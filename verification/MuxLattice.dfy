/** `generate_square_lattice_mux` of scripts/generate_topology.py. */
module MuxLattice {
  import opened Common
  import opened LatticeLayout
  import opened LatticeCouplings

  function MuxQubits(n: nat, m: nat, p: nat): Qubits
    requires m > 0 && p > 0
  {
    map q | 0 <= q < n :: PositionOf(q, m, p)
  }

  lemma FindsEach(n: nat, m: nat, p: nat)
    requires m > 0 && p > 0
    ensures forall pos :: pos in MuxQubits(n, m, p).Values ==>
      0 <= QubitAt(pos, m, p) < n && MuxQubits(n, m, p)[QubitAt(pos, m, p)] == pos
    ensures forall q :: 0 <= q < n ==> QubitAt(MuxQubits(n, m, p)[q], m, p) == q
  {
    forall q: nat ensures QubitAt(PositionOf(q, m, p), m, p) == q {
      LayoutInverse(q, m, p);
    }
  }

  /** What `position_to_qid` holds, by arithmetic instead of a search. */
  function MuxFinder(n: nat, m: nat, p: nat): Finder
    requires m > 0 && p > 0
  {
    FindsEach(n, m, p);
    map pos | pos in MuxQubits(n, m, p).Values :: QubitAt(pos, m, p)
  }

  lemma MuxFinderInverts(n: nat, m: nat, p: nat)
    requires m > 0 && p > 0
    ensures Numbered(n, MuxQubits(n, m, p)) && Inverts(MuxFinder(n, m, p), MuxQubits(n, m, p))
  {
    FindsEach(n, m, p);
  }

  /** The whole outcome of the MUX generator. */
  function MuxTopology(n: nat, m: nat): Result<Topology, Error> {
    if m == 0 then Err(DivisionByZero)
    else
      var p := ISqrt(n) / m;
      if p == 0 then
        if n == 0 then Ok(Topology(0, map[], [])) else Err(DivisionByZero)
      else
        MuxFinderInverts(n, m, p);
        var qubits := MuxQubits(n, m, p);
        Ok(Topology(ISqrt(n), qubits, Couplings(n, qubits, MuxFinder(n, m, p))))
  }

  ghost predicate ExactTopology(n: nat, t: Topology) {
    && Numbered(n, t.qubits) && Injective(t.qubits)
    && Distinct(t.couplings)
    && (forall c :: c in t.couplings <==> ProperCoupling(c, t.qubits))
    && (forall c, d :: c in t.couplings && d in t.couplings ==> c.control != d.target)
  }

  /** For every number of qubits and every block size that leaves room for a block
      in a row: distinct positions, and exactly the couplings between neighbours. */
  lemma MuxTopologyExact(n: nat, m: nat, p: nat)
    requires m > 0 && p == ISqrt(n) / m && p > 0
    ensures MuxTopology(n, m).Ok? && ExactTopology(n, MuxTopology(n, m).value)
  {
    MuxFinderInverts(n, m, p);
    TopologyExact(n, MuxQubits(n, m, p), MuxFinder(n, m, p));
  }

  lemma TopologyExact(n: nat, qubits: Qubits, finder: Finder)
    requires Numbered(n, qubits) && Inverts(finder, qubits)
    ensures ExactTopology(n, Topology(ISqrt(n), qubits, Couplings(n, qubits, finder)))
  {
    CouplingsExact(n, qubits, finder);
  }

  /** Where the qubits sit, without the functions above: the grid size is the integer square root, and
      the qubits walk through the blocks from the upper left corner. */
  lemma MuxQubitsInWords(n: nat, m: nat, p: nat)
    requires m > 0 && p == ISqrt(n) / m && p > 0
    ensures MuxTopology(n, m).Ok?
    ensures
      var t := MuxTopology(n, m).value;
      && t.gridSize * t.gridSize <= n < (t.gridSize + 1) * (t.gridSize + 1)
      && (forall q :: q in t.qubits <==> 0 <= q < n)
      && (0 in t.qubits ==> t.qubits[0] == Position(0, 0))
      && (forall q, r :: q in t.qubits && r in t.qubits && r == q + 1 ==> NextPlace(t.qubits[q], t.qubits[r], m, p))
  {
    hide MuxTopology, NextPlace, MuxQubits;
    MuxTopologyParts(n, m, p);
    QubitsWalk(n, m, p);
  }

  /** Which qubits are coupled, and which one controls: [a, b] is a coupling exactly if the qubits are one
      step apart and row and column of a have an even sum; those of b then have an odd one. */
  lemma MuxCouplingsInWords(n: nat, m: nat, p: nat)
    requires m > 0 && p == ISqrt(n) / m && p > 0
    ensures MuxTopology(n, m).Ok?
    ensures
      var t := MuxTopology(n, m).value;
      forall a, b :: Coupling(a, b) in t.couplings <==>
        && a in t.qubits && b in t.qubits && OneApart(t.qubits[a], t.qubits[b])
        && (t.qubits[a].row + t.qubits[a].col) % 2 == 0
    ensures
      var t := MuxTopology(n, m).value;
      forall c :: c in t.couplings ==>
        c.target in t.qubits && (t.qubits[c.target].row + t.qubits[c.target].col) % 2 == 1
  {
    hide MuxTopology, OneApart, ExactTopology;
    MuxTopologyExact(n, m, p);
    CouplingsInWords(n, MuxTopology(n, m).value);
  }

  lemma MuxTopologyParts(n: nat, m: nat, p: nat)
    requires m > 0 && p == ISqrt(n) / m && p > 0
    ensures
      var t := MuxTopology(n, m);
      t.Ok? && t.value.gridSize == ISqrt(n) && t.value.qubits == MuxQubits(n, m, p) && Numbered(n, t.value.qubits)
  {
    hide ISqrt, Couplings, MuxFinder;
    MuxFinderInverts(n, m, p);
  }

  lemma QubitsWalk(n: nat, m: nat, p: nat)
    requires m > 0 && p > 0
    ensures
      var qubits := MuxQubits(n, m, p);
      && (0 in qubits ==> qubits[0] == Position(0, 0))
      && (forall q, r :: q in qubits && r in qubits && r == q + 1 ==> NextPlace(qubits[q], qubits[r], m, p))
  {
    hide NextPlace, PositionOf;
    var qubits := MuxQubits(n, m, p);
    LayoutWalk(0, m, p);
    forall q, r | q in qubits && r in qubits && r == q + 1 ensures NextPlace(qubits[q], qubits[r], m, p) {
      LayoutWalk(q, m, p);
    }
  }

  lemma CouplingsInWords(n: nat, t: Topology)
    requires ExactTopology(n, t)
    ensures forall a, b :: Coupling(a, b) in t.couplings <==>
      && a in t.qubits && b in t.qubits && OneApart(t.qubits[a], t.qubits[b])
      && (t.qubits[a].row + t.qubits[a].col) % 2 == 0
    ensures forall c :: c in t.couplings ==>
      c.target in t.qubits && (t.qubits[c.target].row + t.qubits[c.target].col) % 2 == 1
  {
    hide OneApart, ProperCoupling, Distinct, Injective;
    forall a, b
      ensures Coupling(a, b) in t.couplings <==>
        && a in t.qubits && b in t.qubits && OneApart(t.qubits[a], t.qubits[b])
        && (t.qubits[a].row + t.qubits[a].col) % 2 == 0
    {
      ProperInWords(a, b, t.qubits);
    }
    forall c | c in t.couplings
      ensures c.target in t.qubits && (t.qubits[c.target].row + t.qubits[c.target].col) % 2 == 1
    {
      assert c == Coupling(c.control, c.target);
      ProperInWords(c.control, c.target, t.qubits);
    }
  }

  /** `added_couplings` keeps couplings sorted. */
  function Sorted(a: nat, b: nat): (nat, nat) {
    if a <= b then (a, b) else (b, a)
  }

  method GenerateSquareLatticeMux(n: nat, m: nat) returns (r: Result<Topology, Error>)
    ensures r == MuxTopology(n, m)
  {
    var gridSize := ISqrt(n);
    if m == 0 {
      return Err(DivisionByZero);
    }
    var p := gridSize / m;
    var qubits: Qubits := map[];
    for qid := 0 to n
      invariant p > 0 || qid == 0
      invariant p > 0 ==> qubits == MuxQubits(qid, m, p)
    {
      if p == 0 {
        return Err(DivisionByZero);
      }
      qubits := qubits[qid := PositionOf(qid, m, p)];
    }
    if n == 0 {
      return Ok(Topology(0, map[], []));
    }
    MuxFinderInverts(n, m, p);
    var finder := BuildFinder(n, qubits);
    UniqueFinder(finder, MuxFinder(n, m, p), qubits);
    var couplings := CollectCouplings(n, qubits, finder);
    return Ok(Topology(gridSize, qubits, couplings));
  }

  lemma UniqueFinder(f: Finder, g: Finder, qubits: Qubits)
    requires Inverts(f, qubits) && Inverts(g, qubits)
    ensures f == g
  {
    assert forall pos :: pos in f <==> pos in g;
  }

  ghost predicate Injective(qubits: Qubits) {
    forall a, b :: a in qubits && b in qubits && qubits[a] == qubits[b] ==> a == b
  }

  method BuildFinder(n: nat, qubits: Qubits) returns (finder: Finder)
    requires Numbered(n, qubits) && Injective(qubits)
    ensures Inverts(finder, qubits)
  {
    finder := map[];
    for qid := 0 to n
      invariant forall q :: 0 <= q < qid ==> qubits[q] in finder && finder[qubits[q]] == q
      invariant forall pos :: pos in finder ==> 0 <= finder[pos] < qid && qubits[finder[pos]] == pos
    {
      finder := finder[qubits[qid] := qid];
    }
  }

  /** Both neighbour checks of every qubit, with the set of couplings already added;
      that set never suppresses anything. */
  method CollectCouplings(n: nat, qubits: Qubits, finder: Finder) returns (couplings: seq<Coupling>)
    requires Numbered(n, qubits) && Inverts(finder, qubits)
    ensures couplings == Couplings(n, qubits, finder)
  {
    hide OrderByCheckerboard, CouplingTo, AddedBy;
    couplings := [];
    var added: set<(nat, nat)> := {};
    for qid := 0 to n
      invariant couplings == Couplings(qid, qubits, finder)
      invariant AllAddedBy(added, qid, qubits)
    {
      var pos := qubits[qid];
      StepIsNew(qid, added, qubits, finder);
      added, couplings := TryCoupling(qid, RightOf(pos), qubits, finder, added, couplings);
      added, couplings := TryCoupling(qid, BottomOf(pos), qubits, finder, added, couplings);
    }
  }

  /** The body for one neighbour: the pair is added unless it was before, which never happens. */
  method TryCoupling(qid: nat, next: Position, qubits: Qubits, finder: Finder, added0: set<(nat, nat)>,
                     couplings0: seq<Coupling>)
    returns (added: set<(nat, nat)>, couplings: seq<Coupling>)
    requires qid in qubits && Inverts(finder, qubits)
    requires next in finder ==> Sorted(qid, finder[next]) !in added0
    ensures couplings == couplings0 + CouplingTo(qid, next, qubits, finder)
    ensures added == added0 + NewPair(qid, next, finder)
  {
    added, couplings := added0, couplings0;
    if next in finder {
      var neighbor := finder[next];
      if Sorted(qid, neighbor) !in added {
        added := added + {Sorted(qid, neighbor)};
        couplings := couplings + [OrderByCheckerboard(qid, neighbor, qubits[qid], qubits[neighbor])];
      }
    }
  }

  function NewPair(qid: nat, next: Position, finder: Finder): set<(nat, nat)> {
    if next in finder then {Sorted(qid, finder[next])} else {}
  }

  ghost predicate AllAddedBy(added: set<(nat, nat)>, k: nat, qubits: Qubits) {
    forall e :: e in added ==> AddedBy(e, k, qubits)
  }

  /** Neither neighbour of the next qubit has been paired with it, and pairing keeps the set right. */
  lemma StepIsNew(qid: nat, added: set<(nat, nat)>, qubits: Qubits, finder: Finder)
    requires qid in qubits && Inverts(finder, qubits) && AllAddedBy(added, qid, qubits)
    ensures var right, bottom := RightOf(qubits[qid]), BottomOf(qubits[qid]);
            && (right in finder ==> Sorted(qid, finder[right]) !in added)
            && (bottom in finder ==> Sorted(qid, finder[bottom]) !in added + NewPair(qid, right, finder))
            && AllAddedBy(added + NewPair(qid, right, finder) + NewPair(qid, bottom, finder), qid + 1, qubits)
  {
    hide AddedBy;
    var right, bottom := RightOf(qubits[qid]), BottomOf(qubits[qid]);
    forall e | e in added ensures AddedBy(e, qid + 1, qubits) {
      AddedLater(e, qid, qubits);
    }
    if right in finder {
      NotAddedYet(qid, finder[right], qubits);
      AddedNow(qid, finder[right], qubits);
    }
    if bottom in finder {
      NotAddedYet(qid, finder[bottom], qubits);
      AddedNow(qid, finder[bottom], qubits);
    }
  }

  lemma AddedLater(e: (nat, nat), k: nat, qubits: Qubits)
    requires AddedBy(e, k, qubits)
    ensures AddedBy(e, k + 1, qubits)
  {
  }

  lemma AddedNow(qid: nat, neighbor: nat, qubits: Qubits)
    requires qid in qubits && neighbor in qubits && IsNext(qubits[qid], qubits[neighbor])
    ensures AddedBy(Sorted(qid, neighbor), qid + 1, qubits)
  {
  }

  /** `e` was added when the loop visited a qubit before `k`. */
  ghost predicate AddedBy(e: (nat, nat), k: nat, qubits: Qubits) {
    exists q, r :: q in qubits && q < k && r in qubits && e == Sorted(q, r) && IsNext(qubits[q], qubits[r])
  }

  lemma NotAddedYet(qid: nat, neighbor: nat, qubits: Qubits)
    requires qid in qubits && neighbor in qubits && IsNext(qubits[qid], qubits[neighbor])
    ensures !AddedBy(Sorted(qid, neighbor), qid, qubits)
  {
    NextFlipsParity(qubits[qid], qubits[neighbor]);
  }
}

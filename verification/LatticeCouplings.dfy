/** The couplings of a lattice: one for each pair of grid neighbours, oriented by a checkerboard. */
module LatticeCouplings {
  import opened Common
  import opened LatticeLayout

  function RightOf(pos: Position): Position {
    Position(pos.row, pos.col + 1)
  }

  function BottomOf(pos: Position): Position {
    Position(pos.row + 1, pos.col)
  }

  /** `q` is the right or the bottom neighbour of `p`. */
  predicate IsNext(p: Position, q: Position) {
    (q.row == p.row && q.col == p.col + 1) || (q.row == p.row + 1 && q.col == p.col)
  }

  predicate Neighbours(p: Position, q: Position) {
    IsNext(p, q) || IsNext(q, p)
  }

  function Parity(pos: Position): int {
    (pos.row + pos.col) % 2
  }

  /** `_order_coupling_by_checkerboard`: even parity controls odd parity. */
  function OrderByCheckerboard(a: nat, b: nat, posA: Position, posB: Position): Coupling {
    if Parity(posA) != Parity(posB) then
      if Parity(posA) < Parity(posB) then Coupling(a, b) else Coupling(b, a)
    else
      if a <= b then Coupling(a, b) else Coupling(b, a)
  }

  type Qubits = map<nat, Position>
  type Finder = map<Position, nat>

  /** `position_to_qid` inverts `qubits`. */
  ghost predicate Inverts(finder: Finder, qubits: Qubits) {
    && (forall q :: q in qubits ==> qubits[q] in finder && finder[qubits[q]] == q)
    && (forall pos :: pos in finder ==> finder[pos] in qubits && qubits[finder[pos]] == pos)
  }

  /** The coupling of `qid` with the qubit at `pos`, if there is one. */
  function CouplingTo(qid: nat, pos: Position, qubits: Qubits, finder: Finder): (r: seq<Coupling>)
    requires qid in qubits
    ensures |r| <= 1
  {
    if pos in finder then [OrderByCheckerboard(qid, finder[pos], qubits[qid], pos)] else []
  }

  /** The couplings that the first k qubits contribute. */
  function Couplings(k: nat, qubits: Qubits, finder: Finder): seq<Coupling>
    requires forall q :: 0 <= q < k ==> q in qubits
  {
    if k == 0 then []
    else
      var pos := qubits[k - 1];
      Couplings(k - 1, qubits, finder)
        + CouplingTo(k - 1, RightOf(pos), qubits, finder)
        + CouplingTo(k - 1, BottomOf(pos), qubits, finder)
  }

  /** What a coupling has to look like: grid neighbours, the even one in control. */
  ghost predicate ProperCoupling(c: Coupling, qubits: Qubits) {
    && c.control in qubits && c.target in qubits
    && Neighbours(qubits[c.control], qubits[c.target])
    && Parity(qubits[c.control]) == 0
  }

  /** Of the two ends of a coupling, the one above or to the left, and the other. */
  ghost function Ends(c: Coupling, qubits: Qubits): (nat, nat)
    requires ProperCoupling(c, qubits)
  {
    if IsNext(qubits[c.control], qubits[c.target]) then (c.control, c.target) else (c.target, c.control)
  }

  lemma NextFlipsParity(p: Position, q: Position)
    requires IsNext(p, q)
    ensures Parity(p) != Parity(q) && !IsNext(q, p)
  {
  }

  /** One neighbour check yields exactly the coupling with that neighbour. */
  lemma CouplingToExact(qid: nat, pos: Position, qubits: Qubits, finder: Finder, c: Coupling)
    requires qid in qubits && Inverts(finder, qubits)
    requires IsNext(qubits[qid], pos)
    ensures c in CouplingTo(qid, pos, qubits, finder) <==>
      ProperCoupling(c, qubits) && Ends(c, qubits).0 == qid && qubits[Ends(c, qubits).1] == pos
  {
    NextFlipsParity(qubits[qid], pos);
  }

  ghost predicate Listed(c: Coupling, k: nat, qubits: Qubits) {
    ProperCoupling(c, qubits) && Ends(c, qubits).0 < k
  }

  /** The couplings of the first k qubits are the proper couplings whose upper left
      end is among them, each listed once. */
  lemma {:induction false} CouplingsBySource(k: nat, qubits: Qubits, finder: Finder)
    requires Inverts(finder, qubits) && forall q :: 0 <= q < k ==> q in qubits
    ensures forall c :: c in Couplings(k, qubits, finder) <==> Listed(c, k, qubits)
    ensures Distinct(Couplings(k, qubits, finder))
  {
    if k == 0 {
    } else {
      CouplingsBySource(k - 1, qubits, finder);
      var before, pos := Couplings(k - 1, qubits, finder), qubits[k - 1];
      var right := CouplingTo(k - 1, RightOf(pos), qubits, finder);
      var bottom := CouplingTo(k - 1, BottomOf(pos), qubits, finder);
      forall c
        ensures c in before + right + bottom <==> Listed(c, k, qubits)
        ensures c in right ==> c !in before
        ensures c in bottom ==> c !in before + right
      {
        CouplingToExact(k - 1, RightOf(pos), qubits, finder, c);
        CouplingToExact(k - 1, BottomOf(pos), qubits, finder, c);
      }
      DistinctConcat(before, right);
      DistinctConcat(before + right, bottom);
    }
  }

  /** Row and column differ by one in all. */
  ghost predicate OneApart(p: Position, q: Position) {
    || (p.row == q.row && (p.col == q.col + 1 || q.col == p.col + 1))
    || (p.col == q.col && (p.row == q.row + 1 || q.row == p.row + 1))
  }

  /** [a, b] is a coupling exactly if the two qubits are one step apart and row and column of the
      controlling one have an even sum; those of the target have an odd one. */
  lemma ProperInWords(a: nat, b: nat, qubits: Qubits)
    ensures ProperCoupling(Coupling(a, b), qubits) <==>
      && a in qubits && b in qubits && OneApart(qubits[a], qubits[b])
      && (qubits[a].row + qubits[a].col) % 2 == 0
    ensures ProperCoupling(Coupling(a, b), qubits) ==> (qubits[b].row + qubits[b].col) % 2 == 1
  {
    if a in qubits && b in qubits && Neighbours(qubits[a], qubits[b]) {
      NeighboursDiffer(qubits[a], qubits[b]);
    }
  }

  /** A qubit's couplings come before those of any later qubit, the one to the right before the one below. */
  ghost predicate InOrder(c: Coupling, d: Coupling, qubits: Qubits)
    requires ProperCoupling(c, qubits) && ProperCoupling(d, qubits)
  {
    || Ends(c, qubits).0 < Ends(d, qubits).0
    || (Ends(c, qubits).0 == Ends(d, qubits).0
        && qubits[c.control].row == qubits[c.target].row && qubits[d.control].row != qubits[d.target].row)
  }

  lemma {:induction false} CouplingsInOrder(k: nat, qubits: Qubits, finder: Finder, i: nat, j: nat)
    requires Inverts(finder, qubits) && forall q :: 0 <= q < k ==> q in qubits
    requires i < j < |Couplings(k, qubits, finder)|
    ensures
      var c, d := Couplings(k, qubits, finder)[i], Couplings(k, qubits, finder)[j];
      ProperCoupling(c, qubits) && ProperCoupling(d, qubits) && InOrder(c, d, qubits)
    decreases k
  {
    hide Inverts, ProperCoupling, Ends, CouplingTo, InOrder;
    if k == 0 {
    } else {
      var pos := qubits[k - 1];
      var before := Couplings(k - 1, qubits, finder);
      var right := CouplingTo(k - 1, RightOf(pos), qubits, finder);
      var bottom := CouplingTo(k - 1, BottomOf(pos), qubits, finder);
      var all := before + right + bottom;
      CouplingsBySource(k - 1, qubits, finder);
      if j < |before| {
        CouplingsInOrder(k - 1, qubits, finder, i, j);
      } else {
        if i < |before| {
          assert all[i] in before && Listed(all[i], k - 1, qubits);
        }
        assert all[j] in right || all[j] in bottom;
        LastInOrder(k - 1, qubits, finder, all[i], all[j], i < |before|);
      }
    }
  }

  lemma LastInOrder(q: nat, qubits: Qubits, finder: Finder, c: Coupling, d: Coupling, earlier: bool)
    requires q in qubits && Inverts(finder, qubits)
    requires
      var right := CouplingTo(q, RightOf(qubits[q]), qubits, finder);
      var bottom := CouplingTo(q, BottomOf(qubits[q]), qubits, finder);
      if earlier then Listed(c, q, qubits) && (d in right || d in bottom) else c in right && d in bottom
    ensures ProperCoupling(c, qubits) && ProperCoupling(d, qubits) && InOrder(c, d, qubits)
  {
    var right, bottom := RightOf(qubits[q]), BottomOf(qubits[q]);
    CouplingToExact(q, right, qubits, finder, c);
    CouplingToExact(q, right, qubits, finder, d);
    CouplingToExact(q, bottom, qubits, finder, d);
  }

  /** All qubits 0 .. n - 1 and no other. */
  ghost predicate Numbered(n: nat, qubits: Qubits) {
    forall q :: q in qubits <==> 0 <= q < n
  }

  lemma NeighboursDiffer(p: Position, q: Position)
    requires Neighbours(p, q)
    ensures Neighbours(q, p)
    ensures Parity(p) in {0, 1} && Parity(q) == 1 - Parity(p)
  {
  }

  /** The couplings are exact: one for each unordered pair of grid neighbours,
      from the even to the odd one, and no other; so no qubit is a control in one
      coupling and a target in another. */
  lemma CouplingsExact(n: nat, qubits: Qubits, finder: Finder)
    requires Numbered(n, qubits) && Inverts(finder, qubits)
    ensures forall c :: c in Couplings(n, qubits, finder) <==> ProperCoupling(c, qubits)
    ensures Distinct(Couplings(n, qubits, finder))
    ensures forall a, b :: a in qubits && b in qubits && Neighbours(qubits[a], qubits[b]) ==>
      (Coupling(a, b) in Couplings(n, qubits, finder) <==> Coupling(b, a) !in Couplings(n, qubits, finder))
    ensures forall c, d :: c in Couplings(n, qubits, finder) && d in Couplings(n, qubits, finder) ==>
      c.control != d.target
  {
    CouplingsBySource(n, qubits, finder);
    forall c ensures Listed(c, n, qubits) <==> ProperCoupling(c, qubits) {
    }
    forall a, b | a in qubits && b in qubits && Neighbours(qubits[a], qubits[b])
      ensures ProperCoupling(Coupling(a, b), qubits) <==> !ProperCoupling(Coupling(b, a), qubits)
    {
      NeighboursDiffer(qubits[a], qubits[b]);
    }
    forall c | ProperCoupling(c, qubits) ensures Parity(qubits[c.control]) == 0 && Parity(qubits[c.target]) == 1 {
      NeighboursDiffer(qubits[c.control], qubits[c.target]);
    }
    hide Couplings, Listed, ProperCoupling;
  }
}

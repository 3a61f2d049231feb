/** When two cross-resonance pairs must not run together, and the graph that says so. */
module PairConflicts {
  import opened Common
  import opened Wiring

  /** A coupling id split at its '-'. */
  datatype Pair = Pair(control: string, target: string)

  /** `UnmappedQubit` is the KeyError of qid_to_mux[q]; `ZeroStep` the ValueError of range(0, n, 0). */
  datatype Error = UnmappedQubit | ZeroStep | NoFrequencyData | NoValidPairs

  type QubitMap = map<string, int>
  type Graph = map<Pair, set<Pair>>

  const MAX_PARALLEL_OPS := 10

  // ---------------------------------------------------------------------
  // When two pairs must not run together
  // ---------------------------------------------------------------------

  /** `set([q1a, q2a]) & set([q1b, q2b])`. */
  predicate SharesQubit(p: Pair, q: Pair) {
    {p.control, p.target} * {q.control, q.target} != {}
  }

  predicate Has(p: Pair, qid: string) {
    qid == p.control || qid == p.target
  }

  /** Some qubit belongs to both pairs. */
  predicate Overlap(p: Pair, q: Pair) {
    Has(q, p.control) || Has(q, p.target)
  }

  lemma SharingIsOverlap(p: Pair, q: Pair)
    ensures SharesQubit(p, q) <==> Overlap(p, q)
  {
    assert p.control in {p.control, p.target} && p.target in {p.control, p.target};
    if Overlap(p, q) {
      var qid := if Has(q, p.control) then p.control else p.target;
      assert qid in {p.control, p.target} * {q.control, q.target};
    }
  }

  function ConflictsOf(cmap: ConflictMap, mux: int): set<int> {
    if mux in cmap then cmap[mux] else {}
  }

  predicate Mapped(qmux: QubitMap, p: Pair) {
    p.control in qmux && p.target in qmux
  }

  /** The test of one combination; it looks up the conflicts of `p`'s MUXes only. */
  function ConflictTest(qmux: QubitMap, cmap: ConflictMap, p: Pair, q: Pair): Result<bool, Error> {
    if SharesQubit(p, q) then Ok(true)
    else if !Mapped(qmux, p) || !Mapped(qmux, q) then Err(UnmappedQubit)
    else
      var a1, a2 := qmux[p.control], qmux[p.target];
      var b1, b2 := qmux[q.control], qmux[q.target];
      if a1 in {b1, b2} || a2 in {b1, b2} then Ok(true)
      else
        var busy := ConflictsOf(cmap, a1) + ConflictsOf(cmap, a2);
        Ok(b1 in busy || b2 in busy)
  }

  /** MUX `a` drives one of the qubits of `p`. */
  ghost predicate UsesMux(w: seq<MuxEntry>, p: Pair, a: int) {
    Drives(w, a, p.control) || Drives(w, a, p.target)
  }

  /** What the hardware forbids, read off the wiring file alone. */
  ghost predicate Clash(w: seq<MuxEntry>, p: Pair, q: Pair) {
    Overlap(p, q) || exists a, b :: UsesMux(w, p, a) && UsesMux(w, q, b) && (a == b || Conflict(w, a, b))
  }

  /** The exact maps, looked up: two MUXes of one pair, two of the other. */
  lemma MuxesOf(w: seq<MuxEntry>, qmux: QubitMap, p: Pair, a: int)
    requires ExactQubitMap(w, qmux) && Mapped(qmux, p)
    ensures UsesMux(w, p, a) <==> a == qmux[p.control] || a == qmux[p.target]
  {
  }

  /** Although it looks in one direction only, the test decides the clash. */
  lemma TestDecidesClash(w: seq<MuxEntry>, qmux: QubitMap, cmap: ConflictMap, p: Pair, q: Pair)
    requires ExactMap(w, cmap) && ExactQubitMap(w, qmux)
    requires ConflictTest(qmux, cmap, p, q).Ok?
    ensures ConflictTest(qmux, cmap, p, q).value <==> Clash(w, p, q)
  {
    SharingIsOverlap(p, q);
    if !SharesQubit(p, q) {
      var a1, a2 := qmux[p.control], qmux[p.target];
      var b1, b2 := qmux[q.control], qmux[q.target];
      forall a ensures UsesMux(w, p, a) <==> a == a1 || a == a2 {
        MuxesOf(w, qmux, p, a);
      }
      forall b ensures UsesMux(w, q, b) <==> b == b1 || b == b2 {
        MuxesOf(w, qmux, q, b);
      }
      forall a, b ensures Conflict(w, a, b) <==> b in ConflictsOf(cmap, a) {
        assert Linked(cmap, a, b) <==> Conflict(w, a, b);
      }
      assert UsesMux(w, p, a1) && UsesMux(w, p, a2) && UsesMux(w, q, b1) && UsesMux(w, q, b2);
      var busy := ConflictsOf(cmap, a1) + ConflictsOf(cmap, a2);
      assert ConflictTest(qmux, cmap, p, q).value <==> a1 in {b1, b2} || a2 in {b1, b2} || b1 in busy || b2 in busy;
    }
  }

  lemma ClashIsSymmetric(w: seq<MuxEntry>, p: Pair, q: Pair)
    ensures Clash(w, p, q) <==> Clash(w, q, p)
  {
    assert forall a, b :: Conflict(w, a, b) <==> Conflict(w, b, a);
  }

  // ---------------------------------------------------------------------
  // The conflict graph
  // ---------------------------------------------------------------------

  type Test = (Pair, Pair) -> Result<bool, Error>

  function Tester(qmux: QubitMap, cmap: ConflictMap): Test {
    (p, q) => ConflictTest(qmux, cmap, p, q)
  }

  ghost predicate Before(pairs: seq<Pair>, p: Pair, q: Pair) {
    exists i, j :: 0 <= i < j < |pairs| && pairs[i] == p && pairs[j] == q
  }

  ghost predicate Testable(pairs: seq<Pair>, test: Test) {
    forall p, q :: Before(pairs, p, q) ==> test(p, q).Ok?
  }

  ghost predicate Edge(pairs: seq<Pair>, test: Test, p: Pair, q: Pair) {
    || (Before(pairs, p, q) && test(p, q) == Ok(true))
    || (Before(pairs, q, p) && test(q, p) == Ok(true))
  }

  predicate Adjacent(g: Graph, p: Pair, q: Pair) {
    p in g && q in g[p]
  }

  ghost predicate GraphOf(pairs: seq<Pair>, test: Test, g: Graph) {
    && g.Keys == Elements(pairs)
    && forall p, q :: Adjacent(g, p, q) <==> Edge(pairs, test, p, q)
  }

  /** The combinations that the double loop has visited when it stands at (i, j). */
  ghost predicate Visited(pairs: seq<Pair>, i: int, j: int, p: Pair, q: Pair) {
    exists k, l :: 0 <= k < l < |pairs| && (k < i || (k == i && l < j)) && pairs[k] == p && pairs[l] == q
  }

  ghost predicate GraphSoFar(pairs: seq<Pair>, test: Test, i: int, j: int, g: Graph) {
    && g.Keys == Elements(pairs)
    && (forall p, q :: Visited(pairs, i, j, p, q) ==> test(p, q).Ok?)
    && forall p, q :: Adjacent(g, p, q) <==>
      || (Visited(pairs, i, j, p, q) && test(p, q) == Ok(true))
      || (Visited(pairs, i, j, q, p) && test(q, p) == Ok(true))
  }

  lemma NothingVisited(pairs: seq<Pair>, test: Test)
    ensures GraphSoFar(pairs, test, 0, 1, map p | p in pairs :: {})
  {
  }

  lemma VisitPair(pairs: seq<Pair>, test: Test, i: int, j: int, g: Graph)
    requires 0 <= i < j < |pairs| && GraphSoFar(pairs, test, i, j, g)
    ensures Before(pairs, pairs[i], pairs[j]) && pairs[i] in g && pairs[j] in g
    ensures test(pairs[i], pairs[j]).Ok? ==>
      GraphSoFar(pairs, test, i, j + 1, if test(pairs[i], pairs[j]).value then AddEdge(g, pairs[i], pairs[j]) else g)
  {
    forall p, q
      ensures Visited(pairs, i, j + 1, p, q) <==> Visited(pairs, i, j, p, q) || (p == pairs[i] && q == pairs[j])
    {
      VisitedNext(pairs, i, j, p, q);
    }
    hide Visited, AddEdge;
  }

  lemma VisitedNext(pairs: seq<Pair>, i: int, j: int, p: Pair, q: Pair)
    requires 0 <= i < j < |pairs|
    ensures Visited(pairs, i, j + 1, p, q) <==> Visited(pairs, i, j, p, q) || (p == pairs[i] && q == pairs[j])
  {
    if Visited(pairs, i, j + 1, p, q) {
      var k, l :| 0 <= k < l < |pairs| && (k < i || (k == i && l < j + 1)) && pairs[k] == p && pairs[l] == q;
    }
  }

  lemma VisitRow(pairs: seq<Pair>, test: Test, i: int, g: Graph)
    requires 0 <= i < |pairs| && GraphSoFar(pairs, test, i, |pairs|, g)
    ensures GraphSoFar(pairs, test, i + 1, i + 2, g)
  {
    assert forall p, q :: Visited(pairs, i, |pairs|, p, q) <==> Visited(pairs, i + 1, i + 2, p, q);
  }

  lemma VisitAll(pairs: seq<Pair>, test: Test, g: Graph)
    requires GraphSoFar(pairs, test, |pairs|, |pairs| + 1, g)
    ensures GraphOf(pairs, test, g) && Testable(pairs, test)
  {
    assert forall p, q :: Visited(pairs, |pairs|, |pairs| + 1, p, q) <==> Before(pairs, p, q);
  }

  method BuildConflictGraph(pairs: seq<Pair>, test: Test) returns (r: Result<Graph, Error>)
    ensures r.Ok? <==> Testable(pairs, test)
    ensures r.Err? ==> exists p, q :: Before(pairs, p, q) && test(p, q) == Err(r.error)
    ensures r.Ok? ==> GraphOf(pairs, test, r.value)
  {
    hide GraphSoFar, Before, GraphOf;
    var g: Graph := map p | p in pairs :: {};
    NothingVisited(pairs, test);
    for i := 0 to |pairs|
      invariant GraphSoFar(pairs, test, i, i + 1, g)
    {
      for j := i + 1 to |pairs|
        invariant GraphSoFar(pairs, test, i, j, g)
      {
        var a, b := pairs[i], pairs[j];
        var outcome := test(a, b);
        VisitPair(pairs, test, i, j, g);
        if outcome.Err? {
          return Err(outcome.error);
        }
        if outcome.value {
          g := AddEdge(g, a, b);
        }
      }
      VisitRow(pairs, test, i, g);
    }
    VisitAll(pairs, test, g);
    return Ok(g);
  }

  function AddEdge(g: Graph, a: Pair, b: Pair): (h: Graph)
    requires a in g && b in g
    ensures h.Keys == g.Keys
    ensures forall p, q :: Adjacent(h, p, q) <==> Adjacent(g, p, q) || (p == a && q == b) || (p == b && q == a)
  {
    AddTo(AddTo(g, a, b), b, a)
  }
}

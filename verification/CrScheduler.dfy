/** Grouping cross-resonance pairs into steps that may run in parallel. */
module CrScheduler {
  import opened Common
  import opened Wiring
  import opened PairConflicts
  import opened GreedyColoring

  // ---------------------------------------------------------------------
  // Splitting oversized classes
  // ---------------------------------------------------------------------

  /** `[group[i : i + k] for i in range(0, len(group), k)]`; a negative step yields nothing. */
  function Chunks(group: seq<Pair>, k: int): seq<seq<Pair>>
    requires k != 0
    decreases |group|
  {
    if group == [] || k < 0 then []
    else if |group| <= k then [group]
    else [group[..k]] + Chunks(group[k..], k)
  }

  function SplitAll(groups: seq<seq<Pair>>, k: int): seq<seq<Pair>>
    requires k != 0
  {
    if groups == [] then []
    else SplitAll(groups[..|groups| - 1], k) + Chunks(groups[|groups| - 1], k)
  }

  function Ceil(n: nat, k: int): int
    requires k >= 1
  {
    (n + k - 1) / k
  }

  ghost function SumOfCeilings(groups: seq<seq<Pair>>, k: int): int
    requires k >= 1
  {
    if groups == [] then 0
    else SumOfCeilings(groups[..|groups| - 1], k) + Ceil(|groups[|groups| - 1]|, k)
  }

  lemma {:induction false} ChunksBounded(group: seq<Pair>, k: int)
    requires k >= 1
    ensures forall c :: c in Chunks(group, k) ==> 1 <= |c| <= k && forall p :: p in c ==> p in group
    decreases |group|
  {
    if |group| <= k {
    } else {
      ChunksBounded(group[k..], k);
      assert group == group[..k] + group[k..];
    }
  }

  lemma {:induction false} ChunksFlatten(group: seq<Pair>, k: int)
    requires k >= 1
    ensures Flatten(Chunks(group, k)) == group
    decreases |group|
  {
    if group == [] {
    } else if |group| <= k {
      assert Flatten([group]) == Flatten([]) + group;
    } else {
      ChunksFlatten(group[k..], k);
      FlattenConcat([group[..k]], Chunks(group[k..], k));
      assert Flatten([group[..k]]) == Flatten([]) + group[..k];
      assert group == group[..k] + group[k..];
    }
  }

  /** Chunks cut a group without loss into pieces of at most k. */
  lemma ChunksCut(group: seq<Pair>, k: int)
    requires k >= 1
    ensures Flatten(Chunks(group, k)) == group
    ensures forall c :: c in Chunks(group, k) ==> 1 <= |c| <= k && forall p :: p in c ==> p in group
  {
    hide Chunks, Flatten;
    ChunksFlatten(group, k);
    ChunksBounded(group, k);
  }

  /** There are no more chunks than needed. */
  lemma {:induction false} ChunkCount(group: seq<Pair>, k: int)
    requires k >= 1
    ensures |Chunks(group, k)| == Ceil(|group|, k)
    decreases |group|
  {
    if |group| > k {
      ChunkCount(group[k..], k);
      CeilOf(|group| - k, k);
      Quotient(|group| + k - 1, k, Ceil(|group| - k, k) + 1);
    } else if group != [] {
      Quotient(|group| + k - 1, k, 1);
    } else {
      Quotient(k - 1, k, 0);
    }
  }

  /** The i-th chunk is the slice from position i * k on, of length k unless the group ends before. */
  lemma {:induction false} ChunkAt(group: seq<Pair>, k: int, i: nat, from: nat)
    requires k >= 1 && i < |Chunks(group, k)| && from == i * k
    ensures from < |group|
    ensures Chunks(group, k)[i] == group[from..if from + k < |group| then from + k else |group|]
    decreases |group|
  {
    if i == 0 {
    } else {
      var rest := group[k..];
      assert i * k == (i - 1) * k + k;
      ChunkAt(rest, k, i - 1, from - k);
      var end := if from + k < |group| then from + k else |group|;
      assert rest[from - k..end - k] == group[from..end];
    }
  }

  lemma CeilOf(n: nat, k: int)
    requires k >= 1
    ensures k * Ceil(n, k) <= n + k - 1 < k * Ceil(n, k) + k
  {
  }

  lemma Quotient(n: int, k: int, q: int)
    requires k >= 1 && k * q <= n < k * q + k
    ensures n / k == q
  {
    var d := n / k;
    if d < q {
      Scale(k, d + 1, q);
    } else if d > q {
      Scale(k, q + 1, d);
    }
  }

  lemma Scale(k: int, a: int, b: int)
    requires k >= 1 && a <= b
    ensures k * a <= k * b
  {
  }

  lemma {:induction false} SplitKeepsAll(groups: seq<seq<Pair>>, k: int)
    requires k >= 1
    ensures Flatten(SplitAll(groups, k)) == Flatten(groups)
    ensures forall c :: c in SplitAll(groups, k) ==> 1 <= |c| <= k
    ensures forall c :: c in SplitAll(groups, k) ==>
      exists i :: 0 <= i < |groups| && forall p :: p in c ==> p in groups[i]
    ensures |SplitAll(groups, k)| == SumOfCeilings(groups, k)
  {
    if groups == [] {
    } else {
      var front, last := groups[..|groups| - 1], groups[|groups| - 1];
      SplitKeepsAll(front, k);
      ChunksCut(last, k);
      ChunkCount(last, k);
      FlattenConcat(SplitAll(front, k), Chunks(last, k));
      forall c | c in SplitAll(groups, k)
        ensures exists i :: 0 <= i < |groups| && forall p :: p in c ==> p in groups[i]
      {
        if c in SplitAll(front, k) {
          var i :| 0 <= i < |front| && forall p :: p in c ==> p in front[i];
          assert forall p :: p in c ==> p in groups[i];
        } else {
          assert forall p :: p in c ==> p in groups[|groups| - 1];
        }
      }
    }
  }

  lemma {:induction false} NegativeStepLosesAll(groups: seq<seq<Pair>>, k: int)
    requires k < 0
    ensures SplitAll(groups, k) == []
  {
    if groups == [] {
    } else {
      NegativeStepLosesAll(groups[..|groups| - 1], k);
    }
  }

  method SplitGroups(groups: seq<seq<Pair>>, k: int) returns (chunks: seq<seq<Pair>>)
    requires k != 0
    ensures chunks == SplitAll(groups, k)
  {
    chunks := [];
    for n := 0 to |groups|
      invariant chunks == SplitAll(groups[..n], k)
    {
      var group := groups[n];
      ghost var before := chunks;
      var i := 0;
      while k > 0 && i < |group|
        invariant 0 <= i && (i <= |group| || k > 0)
        invariant k < 0 ==> chunks == before
        invariant k > 0 ==> chunks + Chunks(if i < |group| then group[i..] else [], k) == before + Chunks(group, k)
        decreases |group| - i
      {
        var end := if i + k < |group| then i + k else |group|;
        assert k < |group[i..]| ==> group[i..][k..] == group[i + k..] && group[i..][..k] == group[i..end];
        assert |group[i..]| <= k ==> group[i..] == group[i..end];
        chunks := chunks + [group[i..end]];
        i := i + k;
      }
      assert groups[..n + 1][..n] == groups[..n];
    }
    assert groups[..|groups|] == groups;
  }

  // ---------------------------------------------------------------------
  // group_cr_pairs_by_conflict
  // ---------------------------------------------------------------------

  ghost function ConflictGraph(pairs: seq<Pair>, test: Test): Graph {
    map p | p in pairs :: set q | q in pairs && Edge(pairs, test, p, q)
  }

  lemma GraphIsConflictGraph(pairs: seq<Pair>, test: Test, g: Graph)
    requires GraphOf(pairs, test, g)
    ensures g == ConflictGraph(pairs, test) && Undirected(g)
  {
    forall p | p in g
      ensures g[p] == set q | q in pairs && Edge(pairs, test, p, q)
    {
      forall q ensures q in g[p] <==> q in pairs && Edge(pairs, test, p, q) {
        assert Adjacent(g, p, q) <==> Edge(pairs, test, p, q);
      }
    }
    forall p, q | Adjacent(g, p, q) ensures q in g && Adjacent(g, q, p) {
      assert Edge(pairs, test, p, q) && Edge(pairs, test, q, p);
    }
  }

  /** Splitting applies only when a limit is given. */
  ghost function Limited(classes: seq<seq<Pair>>, maxOps: Option<int>): seq<seq<Pair>>
    requires maxOps != Some(0)
  {
    match maxOps
    case None => classes
    case Some(k) => SplitAll(classes, k)
  }

  /** `classes` are the groups before any splitting. */
  method GroupCrPairs(pairs: seq<Pair>, qmux: QubitMap, cmap: ConflictMap, maxOps: Option<int>)
    returns (r: Result<seq<seq<Pair>>, Error>, ghost classes: seq<seq<Pair>>)
    ensures r == Err(UnmappedQubit) <==> !Testable(pairs, Tester(qmux, cmap))
    ensures r == Err(ZeroStep) <==> Testable(pairs, Tester(qmux, cmap)) && maxOps == Some(0) && pairs != []
    ensures r.Err? ==> r == Err(UnmappedQubit) || r == Err(ZeroStep)
    ensures Testable(pairs, Tester(qmux, cmap)) ==> GreedyClasses(ConflictGraph(pairs, Tester(qmux, cmap)), classes)
    ensures r.Ok? ==> r.value == if maxOps == Some(0) then [] else Limited(classes, maxOps)
  {
    classes := [];
    var built := BuildConflictGraph(pairs, Tester(qmux, cmap));
    if built.Err? {
      return Err(UnmappedQubit), classes;
    }
    GraphIsConflictGraph(pairs, Tester(qmux, cmap), built.value);
    var groups := ColorClasses(built.value);
    classes := groups;
    PartitionOfNodes(pairs, built.value, groups);
    if maxOps.None? {
      return Ok(groups), classes;
    }
    if maxOps.value == 0 {
      if groups == [] {
        return Ok([]), classes;
      }
      return Err(ZeroStep), classes;
    }
    var chunks := SplitGroups(groups, maxOps.value);
    return Ok(chunks), classes;
  }

  lemma PartitionOfNodes(pairs: seq<Pair>, g: Graph, classes: seq<seq<Pair>>)
    requires g.Keys == Elements(pairs) && Partition(g.Keys, classes)
    ensures ExactlyOnce(pairs, classes)
    ensures classes == [] <==> pairs == []
  {
    if classes != [] {
      var p := classes[0][0];
      assert p in classes[0];
      FlattenMembers(classes, p);
      assert p in multiset(Flatten(classes));
    }
    if pairs != [] {
      assert pairs[0] in multiset(Flatten(classes));
    }
  }

  // ---------------------------------------------------------------------
  // What a schedule promises
  // ---------------------------------------------------------------------

  ghost predicate ExactlyOnce(pairs: seq<Pair>, groups: seq<seq<Pair>>) {
    forall p :: multiset(Flatten(groups))[p] == if p in pairs then 1 else 0
  }

  /** No two different pairs of one group clash on the hardware. */
  ghost predicate Safe(w: seq<MuxEntry>, groups: seq<seq<Pair>>) {
    forall g, p, q :: g in groups && p in g && q in g && p != q ==> !Clash(w, p, q)
  }

  ghost predicate SizesWithin(groups: seq<seq<Pair>>, k: int) {
    forall g :: g in groups ==> 1 <= |g| <= k
  }

  /** Pairs of the input that no group mentions (`external_pairs`). */
  function ExternalPairs(pairs: seq<Pair>, groups: seq<seq<Pair>>): seq<Pair> {
    Filter(p => p !in Flatten(groups), pairs)
  }

  /** The pairs left over are those in no group. */
  lemma LeftOver(pairs: seq<Pair>, groups: seq<seq<Pair>>, p: Pair)
    ensures p in ExternalPairs(pairs, groups) <==> p in pairs && forall i :: 0 <= i < |groups| ==> p !in groups[i]
  {
    FlattenMembers(groups, p);
  }

  lemma SomewhereBefore(pairs: seq<Pair>, p: Pair, q: Pair)
    requires p in pairs && q in pairs && p != q
    ensures Before(pairs, p, q) || Before(pairs, q, p)
  {
    var i :| 0 <= i < |pairs| && pairs[i] == p;
    var j :| 0 <= j < |pairs| && pairs[j] == q;
  }

  lemma ClassesAreSafe(w: seq<MuxEntry>, qmux: QubitMap, cmap: ConflictMap, pairs: seq<Pair>, classes: seq<seq<Pair>>)
    requires ExactMap(w, cmap) && ExactQubitMap(w, qmux)
    requires Testable(pairs, Tester(qmux, cmap))
    requires GreedyClasses(ConflictGraph(pairs, Tester(qmux, cmap)), classes)
    ensures Safe(w, classes)
  {
    var test := Tester(qmux, cmap);
    var g := ConflictGraph(pairs, test);
    forall class_, p, q | class_ in classes && p in class_ && q in class_ && p != q
      ensures !Clash(w, p, q)
    {
      FlattenMembers(classes, p);
      FlattenMembers(classes, q);
      assert p in multiset(Flatten(classes)) && q in multiset(Flatten(classes));
      SomewhereBefore(pairs, p, q);
      assert !Adjacent(g, p, q);
      if Before(pairs, p, q) {
        assert test(p, q).Ok? && test(p, q) != Ok(true);
        TestDecidesClash(w, qmux, cmap, p, q);
      } else {
        assert test(q, p).Ok? && test(q, p) != Ok(true);
        TestDecidesClash(w, qmux, cmap, q, p);
        ClashIsSymmetric(w, p, q);
      }
    }
  }

  lemma SplittingKeepsSafety(w: seq<MuxEntry>, classes: seq<seq<Pair>>, k: int)
    requires k >= 1 && Safe(w, classes)
    ensures Safe(w, SplitAll(classes, k))
  {
    SplitKeepsAll(classes, k);
    forall g, p, q | g in SplitAll(classes, k) && p in g && q in g && p != q
      ensures !Clash(w, p, q)
    {
      var i :| 0 <= i < |classes| && forall x :: x in g ==> x in classes[i];
      assert classes[i] in classes;
    }
  }

  /** Grouping schedules every pair exactly once if and only if there is no limit,
      the limit is at least one, or there is nothing to schedule; only then is the
      list of left-over pairs empty. */
  lemma ExactlyOnceIff(pairs: seq<Pair>, test: Test, classes: seq<seq<Pair>>, maxOps: Option<int>)
    requires GreedyClasses(ConflictGraph(pairs, test), classes)
    requires maxOps != Some(0)
    ensures ExactlyOnce(pairs, Limited(classes, maxOps)) <==> maxOps.None? || maxOps.value >= 1 || pairs == []
    ensures ExternalPairs(pairs, Limited(classes, maxOps)) == [] <==> maxOps.None? || maxOps.value >= 1 || pairs == []
  {
    hide Independent, Minimal, OfDegree, LargestFirstFit, Edge;
    var groups := Limited(classes, maxOps);
    PartitionOfNodes(pairs, ConflictGraph(pairs, test), classes);
    if maxOps.Some? && maxOps.value >= 1 {
      SplitKeepsAll(classes, maxOps.value);
    } else if maxOps.Some? {
      NegativeStepLosesAll(classes, maxOps.value);
    }
    var external := ExternalPairs(pairs, groups);
    assert external != [] ==> external[0] in external;
    assert pairs != [] ==> pairs[0] in pairs && (groups == [] ==> pairs[0] in external);
    assert forall p :: p in pairs && multiset(Flatten(groups))[p] == 1 ==> p !in external;
  }

  /** The number of colours is at most one more than the largest degree. */
  lemma AtMostMaxDegreePlusOne(g: Graph, classes: seq<seq<Pair>>, d: nat)
    requires GreedyClasses(g, classes)
    requires forall p :: p in g ==> |g[p]| + (if p in g[p] then 1 else 0) <= d
    ensures |classes| <= d + 1
  {
    assert |classes| > d + 1 ==> OfDegree(g, |classes| - 1) == {};
  }

  // ---------------------------------------------------------------------
  // Selecting the pairs and composing the schedule
  // ---------------------------------------------------------------------

  predicate FrequencyOrdered(freq: map<string, real>, p: Pair) {
    p.control in freq && p.target in freq && freq[p.control] < freq[p.target]
  }

  predicate FidelityAtLeast(fidelity: map<string, real>, minimum: real, p: Pair) {
    && p.control in fidelity && p.target in fidelity
    && fidelity[p.control] >= minimum && fidelity[p.target] >= minimum
  }

  predicate Allowed(excluded: set<string>, p: Pair) {
    {p.control, p.target} * excluded == {}
  }

  function FilterCrPairs(all: seq<Pair>, freq: map<string, real>, fidelity: map<string, real>,
                         minimum: real): seq<Pair>
  {
    Filter(p => FrequencyOrdered(freq, p) && FidelityAtLeast(fidelity, minimum, p), all)
  }

  /** The pairs to schedule. When no pair passes all filters, the frequency filter
      alone decides, and excluded qubits come back in. */
  function SelectPairs(all: seq<Pair>, freq: map<string, real>, fidelity: map<string, real>, minimum: real,
                       excluded: set<string>): seq<Pair> {
    var freqFiltered := Filter(p => FrequencyOrdered(freq, p), all);
    var crPairs := Filter(p => Allowed(excluded, p), FilterCrPairs(all, freq, fidelity, minimum));
    if crPairs == [] && freqFiltered != [] then freqFiltered else crPairs
  }

  /** The control qubit has the lower frequency, and both are known. */
  ghost predicate Directed(freq: map<string, real>, p: Pair) {
    exists x, y :: (p.control, x) in freq.Items && (p.target, y) in freq.Items && x < y
  }

  /** Directed, both qubits calibrated well enough, and none of them excluded. */
  ghost predicate Qualified(freq: map<string, real>, fidelity: map<string, real>, minimum: real,
                            excluded: set<string>, p: Pair)
  {
    && Directed(freq, p)
    && (forall qid :: Has(p, qid) ==> qid in fidelity && fidelity[qid] >= minimum)
    && (forall qid :: Has(p, qid) ==> qid !in excluded)
  }

  lemma FiltersInWords(freq: map<string, real>, fidelity: map<string, real>, minimum: real, excluded: set<string>,
                       p: Pair)
    ensures FrequencyOrdered(freq, p) <==> Directed(freq, p)
    ensures FrequencyOrdered(freq, p) && FidelityAtLeast(fidelity, minimum, p) && Allowed(excluded, p) <==>
      Qualified(freq, fidelity, minimum, excluded, p)
  {
    assert Has(p, p.control) && Has(p, p.target);
    if FrequencyOrdered(freq, p) {
      assert (p.control, freq[p.control]) in freq.Items && (p.target, freq[p.target]) in freq.Items;
    }
    if Allowed(excluded, p) {
      forall qid | Has(p, qid) ensures qid !in excluded {
        assert qid in excluded ==> qid in {p.control, p.target} * excluded;
      }
    }
  }

  /** Exactly the qualified pairs if there is one, else exactly the pairs with the
      right frequency order; never a pair together with its reverse. */
  lemma SelectedPairs(all: seq<Pair>, freq: map<string, real>, fidelity: map<string, real>, minimum: real,
                      excluded: set<string>)
    ensures
      var selected := SelectPairs(all, freq, fidelity, minimum, excluded);
      var strict := exists p :: p in all && Qualified(freq, fidelity, minimum, excluded, p);
      && (strict ==> forall p :: p in selected <==> p in all && Qualified(freq, fidelity, minimum, excluded, p))
      && (!strict ==> forall p :: p in selected <==> p in all && Directed(freq, p))
      && (forall p :: p in selected ==> Pair(p.target, p.control) !in selected)
      && (Distinct(all) ==> Distinct(selected))
  {
    var good := FilterCrPairs(all, freq, fidelity, minimum);
    var freqFiltered := Filter(p => FrequencyOrdered(freq, p), all);
    var crPairs := Filter(p => Allowed(excluded, p), good);
    forall p
      ensures FrequencyOrdered(freq, p) <==> Directed(freq, p)
      ensures FrequencyOrdered(freq, p) && FidelityAtLeast(fidelity, minimum, p) && Allowed(excluded, p) <==>
        Qualified(freq, fidelity, minimum, excluded, p)
    {
      FiltersInWords(freq, fidelity, minimum, excluded, p);
    }
    hide Directed, Qualified, FidelityAtLeast, Allowed;
    assert forall p :: p in crPairs <==> p in all && Qualified(freq, fidelity, minimum, excluded, p);
    if crPairs != [] {
      assert crPairs[0] in crPairs;
    }
    if freqFiltered == [] {
      assert forall p :: p in all ==> p !in freqFiltered;
    }
    if Distinct(all) {
      FilterDistinct(p => FrequencyOrdered(freq, p), all);
      FilterDistinct(p => FrequencyOrdered(freq, p) && FidelityAtLeast(fidelity, minimum, p), all);
      FilterDistinct(p => Allowed(excluded, p), good);
    }
  }

  function MuxOf(qmux: QubitMap, qid: string): Option<int> {
    if qid in qmux then Some(qmux[qid]) else None
  }

  predicate IsFast(qmux: QubitMap, p: Pair) {
    MuxOf(qmux, p.control) == MuxOf(qmux, p.target)
  }

  function FastPairs(pairs: seq<Pair>, qmux: QubitMap): seq<Pair> {
    Filter(p => IsFast(qmux, p), pairs)
  }

  function SlowPairs(pairs: seq<Pair>, qmux: QubitMap): seq<Pair> {
    Filter(p => !IsFast(qmux, p), pairs)
  }

  /** The loop form of the second script computes the same two lists. */
  method SplitFastSlowPairs(pairs: seq<Pair>, qmux: QubitMap) returns (fast: seq<Pair>, slow: seq<Pair>)
    ensures fast == FastPairs(pairs, qmux) && slow == SlowPairs(pairs, qmux)
  {
    fast, slow := [], [];
    for i := 0 to |pairs|
      invariant fast == FastPairs(pairs[..i], qmux) && slow == SlowPairs(pairs[..i], qmux)
    {
      assert pairs[..i + 1][..i] == pairs[..i];
      if MuxOf(qmux, pairs[i].control) == MuxOf(qmux, pairs[i].target) {
        fast := fast + [pairs[i]];
      } else {
        slow := slow + [pairs[i]];
      }
    }
    assert pairs[..|pairs|] == pairs;
  }

  // The same notions in terms of the wiring alone.

  ghost predicate HasMux(w: seq<MuxEntry>, qid: string) {
    exists a :: Drives(w, a, qid)
  }

  /** Both qubits hang on the same MUX, or neither on any. */
  ghost predicate IntraMux(w: seq<MuxEntry>, p: Pair) {
    forall a :: Drives(w, a, p.control) <==> Drives(w, a, p.target)
  }

  ghost predicate FullyWired(w: seq<MuxEntry>, p: Pair) {
    HasMux(w, p.control) && HasMux(w, p.target)
  }

  /** No lookup fails: two pairs of one kind either share a qubit or are fully wired. */
  ghost predicate Schedulable(w: seq<MuxEntry>, pairs: seq<Pair>) {
    forall p, q :: p in pairs && q in pairs && p != q && (IntraMux(w, p) <==> IntraMux(w, q)) ==>
      Overlap(p, q) || (FullyWired(w, p) && FullyWired(w, q))
  }

  lemma WiringTerms(w: seq<MuxEntry>, qmux: QubitMap, p: Pair)
    requires ExactQubitMap(w, qmux)
    ensures IsFast(qmux, p) <==> IntraMux(w, p)
    ensures Mapped(qmux, p) <==> FullyWired(w, p)
  {
    forall qid, a ensures Drives(w, a, qid) <==> MuxOf(qmux, qid) == Some(a) {
      assert (qid in qmux && qmux[qid] == a) <==> Drives(w, a, qid);
    }
    if IntraMux(w, p) {
      if p.control in qmux {
        assert Drives(w, qmux[p.control], p.control);
      }
      if p.target in qmux {
        assert Drives(w, qmux[p.target], p.target);
      }
    }
    if Mapped(qmux, p) {
      assert Drives(w, qmux[p.control], p.control) && Drives(w, qmux[p.target], p.target);
    }
  }

  lemma WhenTestSucceeds(qmux: QubitMap, cmap: ConflictMap, p: Pair, q: Pair)
    ensures Tester(qmux, cmap)(p, q).Ok? <==> Overlap(p, q) || (Mapped(qmux, p) && Mapped(qmux, q))
    ensures Overlap(p, q) <==> Overlap(q, p)
  {
    SharingIsOverlap(p, q);
  }

  lemma SchedulableMeansTestable(w: seq<MuxEntry>, qmux: QubitMap, cmap: ConflictMap, pairs: seq<Pair>)
    requires ExactQubitMap(w, qmux) && Distinct(pairs)
    ensures Schedulable(w, pairs) <==>
      Testable(FastPairs(pairs, qmux), Tester(qmux, cmap)) && Testable(SlowPairs(pairs, qmux), Tester(qmux, cmap))
  {
    var fast, slow := FastPairs(pairs, qmux), SlowPairs(pairs, qmux);
    var test := Tester(qmux, cmap);
    FilterDistinct(p => IsFast(qmux, p), pairs);
    FilterDistinct(p => !IsFast(qmux, p), pairs);
    forall p ensures (IsFast(qmux, p) <==> IntraMux(w, p)) && (Mapped(qmux, p) <==> FullyWired(w, p)) {
      WiringTerms(w, qmux, p);
    }
    if Schedulable(w, pairs) {
      forall p, q | Before(fast, p, q) || Before(slow, p, q) ensures test(p, q).Ok? {
        assert p != q && p in pairs && q in pairs;
        WhenTestSucceeds(qmux, cmap, p, q);
      }
    }
    if Testable(fast, test) && Testable(slow, test) {
      forall p, q | p in pairs && q in pairs && p != q && (IntraMux(w, p) <==> IntraMux(w, q))
        ensures Overlap(p, q) || (FullyWired(w, p) && FullyWired(w, q))
      {
        SomewhereBefore(if IsFast(qmux, p) then fast else slow, p, q);
        WhenTestSucceeds(qmux, cmap, p, q);
        WhenTestSucceeds(qmux, cmap, q, p);
      }
    }
  }

  /** The main program: select, split into intra- and inter-MUX pairs, group both. */
  method ScheduleChip(all: seq<Pair>, freq: map<string, real>, fidelity: map<string, real>, minimum: real,
                      excluded: set<string>, w: seq<MuxEntry>)
    returns (r: Result<seq<seq<Pair>>, Error>)
    requires Distinct(all)
    ensures r == Err(NoFrequencyData) <==> freq == map[]
    ensures r == Err(NoValidPairs) <==> freq != map[] && SelectPairs(all, freq, fidelity, minimum, excluded) == []
    ensures r == Err(UnmappedQubit) <==>
      var selected := SelectPairs(all, freq, fidelity, minimum, excluded);
      freq != map[] && selected != [] && !Schedulable(w, selected)
    ensures r.Ok? <==>
      var selected := SelectPairs(all, freq, fidelity, minimum, excluded);
      freq != map[] && selected != [] && Schedulable(w, selected)
    ensures r.Ok? ==> GoodSchedule(w, SelectPairs(all, freq, fidelity, minimum, excluded), r.value)
  {
    if freq == map[] {
      return Err(NoFrequencyData);
    }
    var pairs := SelectPairs(all, freq, fidelity, minimum, excluded);
    if pairs == [] {
      return Err(NoValidPairs);
    }
    SelectedPairs(all, freq, fidelity, minimum, excluded);
    r := GroupFastThenSlow(pairs, w);
  }

  method GroupFastThenSlow(pairs: seq<Pair>, w: seq<MuxEntry>) returns (r: Result<seq<seq<Pair>>, Error>)
    requires Distinct(pairs)
    ensures r.Ok? <==> Schedulable(w, pairs)
    ensures r.Err? ==> r.error == UnmappedQubit
    ensures r.Ok? ==> GoodSchedule(w, pairs, r.value)
  {
    hide ExactMap, ExactQubitMap, GreedyClasses, ConflictGraph, Testable, Schedulable, GoodSchedule, SplitAll;
    var cmap := BuildMuxConflictMap(w);
    var qmux := BuildQubitToMuxMap(w);
    var fast, slow := SplitFastSlowPairs(pairs, qmux);
    SchedulableMeansTestable(w, qmux, cmap, pairs);
    var fastGroups, fastClasses := GroupCrPairs(fast, qmux, cmap, Some(MAX_PARALLEL_OPS));
    if fastGroups.Err? {
      return Err(UnmappedQubit);
    }
    var slowGroups, slowClasses := GroupCrPairs(slow, qmux, cmap, Some(MAX_PARALLEL_OPS));
    if slowGroups.Err? {
      return Err(UnmappedQubit);
    }
    GroupsKeepPromises(w, qmux, cmap, fast, fastClasses);
    GroupsKeepPromises(w, qmux, cmap, slow, slowClasses);
    GroupsAreCut(w, qmux, cmap, pairs, fastClasses, slowClasses);
    FastThenSlow(w, qmux, pairs, fastGroups.value, slowGroups.value);
    return Ok(fastGroups.value + slowGroups.value);
  }

  /** What a step list owes the hardware and its caller. */
  ghost predicate GoodSchedule(w: seq<MuxEntry>, pairs: seq<Pair>, groups: seq<seq<Pair>>) {
    && Safe(w, groups)
    && multiset(Flatten(groups)) == multiset(pairs)
    && SizesWithin(groups, 10)
    && FastFirst(w, groups)
    && FromGreedyClasses(w, pairs, groups)
  }

  /** How many classes one kind of pairs takes, counted in clashes: k classes need k pairs that each clash
      with k - 1 or more others, so there is at most one class more than a pair has clashes. */
  lemma ClassesNeedClashes(w: seq<MuxEntry>, nodes: set<Pair>, classes: seq<seq<Pair>>, d: nat)
    requires GreedyClasses(ClashGraph(w, nodes), classes)
    ensures |set p | p in nodes && |set q | q in nodes && q != p && Clash(w, p, q)| >= |classes| - 1| >= |classes|
    ensures (forall p :: p in nodes ==> |set q | q in nodes && q != p && Clash(w, p, q)| <= d) ==> |classes| <= d + 1
  {
    hide GreedyClasses, Clash;
    var g := ClashGraph(w, nodes);
    FewClasses(g, classes, d);
    assert (set p | p in g && |g[p]| >= |classes| - 1)
        == set p | p in nodes && |set q | q in nodes && q != p && Clash(w, p, q)| >= |classes| - 1;
  }

  /** A schedule is cut, fast pairs first, from the classes of its two kinds of pairs, ten pairs to a step, and
      these classes need that many clashes. */
  lemma StepsNeedClashes(w: seq<MuxEntry>, pairs: seq<Pair>, groups: seq<seq<Pair>>)
    returns (fast: seq<seq<Pair>>, slow: seq<seq<Pair>>)
    requires GoodSchedule(w, pairs, groups)
    ensures groups == SplitAll(fast, 10) + SplitAll(slow, 10)
    ensures
      var nodes := set p | p in pairs && IntraMux(w, p);
      |set p | p in nodes && |set q | q in nodes && q != p && Clash(w, p, q)| >= |fast| - 1| >= |fast|
    ensures
      var nodes := set p | p in pairs && !IntraMux(w, p);
      |set p | p in nodes && |set q | q in nodes && q != p && Clash(w, p, q)| >= |slow| - 1| >= |slow|
  {
    hide GreedyClasses, Safe, SizesWithin, FastFirst, SplitAll, SumOfCeilings, IntraMux, Clash;
    fast, slow :| CutFrom(w, pairs, groups, fast, slow);
    ClassesNeedClashes(w, Within(w, pairs), fast, 0);
    ClassesNeedClashes(w, Between(w, pairs), slow, 0);
  }

  /** The pairs as nodes, joined where they clash on the hardware. */
  ghost function ClashGraph(w: seq<MuxEntry>, nodes: set<Pair>): Graph {
    map p | p in nodes :: set q | q in nodes && q != p && Clash(w, p, q)
  }

  ghost function Within(w: seq<MuxEntry>, pairs: seq<Pair>): set<Pair> {
    set p | p in pairs && IntraMux(w, p)
  }

  ghost function Between(w: seq<MuxEntry>, pairs: seq<Pair>): set<Pair> {
    set p | p in pairs && !IntraMux(w, p)
  }

  /** The groups are the chunks of greedy colour classes of the two clash graphs, no more of them than needed. */
  ghost predicate CutFrom(w: seq<MuxEntry>, pairs: seq<Pair>, groups: seq<seq<Pair>>, fast: seq<seq<Pair>>,
                          slow: seq<seq<Pair>>) {
    && GreedyClasses(ClashGraph(w, Within(w, pairs)), fast)
    && GreedyClasses(ClashGraph(w, Between(w, pairs)), slow)
    && groups == SplitAll(fast, 10) + SplitAll(slow, 10)
    && |groups| == SumOfCeilings(fast, 10) + SumOfCeilings(slow, 10)
  }

  ghost predicate FromGreedyClasses(w: seq<MuxEntry>, pairs: seq<Pair>, groups: seq<seq<Pair>>) {
    exists fast, slow :: CutFrom(w, pairs, groups, fast, slow)
  }

  /** The graph that the lookups build is the clash graph of the hardware. */
  lemma GraphIsClashGraph(w: seq<MuxEntry>, qmux: QubitMap, cmap: ConflictMap, pairs: seq<Pair>)
    requires ExactMap(w, cmap) && ExactQubitMap(w, qmux) && Distinct(pairs)
    requires Testable(pairs, Tester(qmux, cmap))
    ensures ConflictGraph(pairs, Tester(qmux, cmap)) == ClashGraph(w, Elements(pairs))
  {
    hide Clash, ExactMap, ExactQubitMap, ConflictTest, Edge, Testable;
    var test := Tester(qmux, cmap);
    var g, h := ConflictGraph(pairs, test), ClashGraph(w, Elements(pairs));
    assert g.Keys == Elements(pairs) == h.Keys;
    forall p | p in pairs
      ensures g[p] == h[p]
    {
      forall q | q in pairs
        ensures q in g[p] <==> q in h[p]
      {
        EdgeIsClash(w, qmux, cmap, pairs, p, q);
      }
    }
  }

  lemma EdgeIsClash(w: seq<MuxEntry>, qmux: QubitMap, cmap: ConflictMap, pairs: seq<Pair>, p: Pair, q: Pair)
    requires ExactMap(w, cmap) && ExactQubitMap(w, qmux) && Distinct(pairs)
    requires Testable(pairs, Tester(qmux, cmap)) && p in pairs && q in pairs
    ensures Edge(pairs, Tester(qmux, cmap), p, q) <==> q != p && Clash(w, p, q)
  {
    hide Clash, ExactMap, ExactQubitMap, ConflictTest;
    var test := Tester(qmux, cmap);
    ClashIsSymmetric(w, p, q);
    if q == p {
      assert !Before(pairs, p, p);
    } else {
      SomewhereBefore(pairs, p, q);
    }
    if Before(pairs, p, q) {
      AnswerIsClash(w, qmux, cmap, pairs, p, q);
    }
    if Before(pairs, q, p) {
      AnswerIsClash(w, qmux, cmap, pairs, q, p);
    }
  }

  lemma AnswerIsClash(w: seq<MuxEntry>, qmux: QubitMap, cmap: ConflictMap, pairs: seq<Pair>, p: Pair, q: Pair)
    requires ExactMap(w, cmap) && ExactQubitMap(w, qmux)
    requires Testable(pairs, Tester(qmux, cmap)) && Before(pairs, p, q)
    ensures Tester(qmux, cmap)(p, q) == Ok(true) <==> Clash(w, p, q)
  {
    hide Clash, ExactMap, ExactQubitMap, ConflictTest, Before;
    assert Tester(qmux, cmap)(p, q) == ConflictTest(qmux, cmap, p, q);
    TestDecidesClash(w, qmux, cmap, p, q);
  }

  lemma KindsOfPairs(w: seq<MuxEntry>, qmux: QubitMap, pairs: seq<Pair>)
    requires ExactQubitMap(w, qmux)
    ensures Elements(FastPairs(pairs, qmux)) == Within(w, pairs)
    ensures Elements(SlowPairs(pairs, qmux)) == Between(w, pairs)
  {
    hide IntraMux, IsFast, ExactQubitMap;
    forall p ensures IsFast(qmux, p) <==> IntraMux(w, p) {
      WiringTerms(w, qmux, p);
    }
  }

  lemma GroupsAreCut(w: seq<MuxEntry>, qmux: QubitMap, cmap: ConflictMap, pairs: seq<Pair>, fast: seq<seq<Pair>>,
                     slow: seq<seq<Pair>>)
    requires ExactMap(w, cmap) && ExactQubitMap(w, qmux) && Distinct(pairs)
    requires Testable(FastPairs(pairs, qmux), Tester(qmux, cmap))
    requires Testable(SlowPairs(pairs, qmux), Tester(qmux, cmap))
    requires GreedyClasses(ConflictGraph(FastPairs(pairs, qmux), Tester(qmux, cmap)), fast)
    requires GreedyClasses(ConflictGraph(SlowPairs(pairs, qmux), Tester(qmux, cmap)), slow)
    ensures FromGreedyClasses(w, pairs, SplitAll(fast, MAX_PARALLEL_OPS) + SplitAll(slow, MAX_PARALLEL_OPS))
  {
    hide GreedyClasses, ConflictGraph, ClashGraph, Testable, ExactMap, ExactQubitMap, SplitAll, SumOfCeilings;
    FilterDistinct(p => IsFast(qmux, p), pairs);
    FilterDistinct(p => !IsFast(qmux, p), pairs);
    GraphIsClashGraph(w, qmux, cmap, FastPairs(pairs, qmux));
    GraphIsClashGraph(w, qmux, cmap, SlowPairs(pairs, qmux));
    KindsOfPairs(w, qmux, pairs);
    SplitKeepsAll(fast, MAX_PARALLEL_OPS);
    SplitKeepsAll(slow, MAX_PARALLEL_OPS);
    assert CutFrom(w, pairs, SplitAll(fast, MAX_PARALLEL_OPS) + SplitAll(slow, MAX_PARALLEL_OPS), fast, slow);
  }

  ghost predicate FastFirst(w: seq<MuxEntry>, groups: seq<seq<Pair>>) {
    exists n :: FastUpTo(w, groups, n)
  }

  ghost predicate FastUpTo(w: seq<MuxEntry>, groups: seq<seq<Pair>>, n: int) {
    && 0 <= n <= |groups|
    && forall i, p :: 0 <= i < |groups| && p in groups[i] ==> (IntraMux(w, p) <==> i < n)
  }

  lemma GroupsKeepPromises(w: seq<MuxEntry>, qmux: QubitMap, cmap: ConflictMap, pairs: seq<Pair>,
                           classes: seq<seq<Pair>>)
    requires ExactMap(w, cmap) && ExactQubitMap(w, qmux)
    requires Testable(pairs, Tester(qmux, cmap))
    requires GreedyClasses(ConflictGraph(pairs, Tester(qmux, cmap)), classes)
    ensures
      var groups := SplitAll(classes, MAX_PARALLEL_OPS);
      Safe(w, groups) && ExactlyOnce(pairs, groups) && SizesWithin(groups, MAX_PARALLEL_OPS)
  {
    ClassesAreSafe(w, qmux, cmap, pairs, classes);
    SplittingKeepsSafety(w, classes, MAX_PARALLEL_OPS);
    SplitKeepsAll(classes, MAX_PARALLEL_OPS);
    ExactlyOnceIff(pairs, Tester(qmux, cmap), classes, Some(MAX_PARALLEL_OPS));
  }

  lemma FastThenSlow(w: seq<MuxEntry>, qmux: QubitMap, pairs: seq<Pair>, fastGroups: seq<seq<Pair>>,
                     slowGroups: seq<seq<Pair>>)
    requires ExactQubitMap(w, qmux) && Distinct(pairs)
    requires Safe(w, fastGroups) && SizesWithin(fastGroups, MAX_PARALLEL_OPS)
    requires ExactlyOnce(FastPairs(pairs, qmux), fastGroups)
    requires Safe(w, slowGroups) && SizesWithin(slowGroups, MAX_PARALLEL_OPS)
    requires ExactlyOnce(SlowPairs(pairs, qmux), slowGroups)
    requires FromGreedyClasses(w, pairs, fastGroups + slowGroups)
    ensures GoodSchedule(w, pairs, fastGroups + slowGroups)
  {
    hide FromGreedyClasses;
    var fast, slow := FastPairs(pairs, qmux), SlowPairs(pairs, qmux);
    PartsMakeWhole(pairs, fast, slow, fastGroups, slowGroups);
    forall p ensures IsFast(qmux, p) <==> IntraMux(w, p) {
      WiringTerms(w, qmux, p);
    }
    FastComesFirst(w, fast, slow, fastGroups, slowGroups);
  }

  lemma PartsMakeWhole(pairs: seq<Pair>, fast: seq<Pair>, slow: seq<Pair>, fastGroups: seq<seq<Pair>>,
                       slowGroups: seq<seq<Pair>>)
    requires Distinct(pairs) && ExactlyOnce(fast, fastGroups) && ExactlyOnce(slow, slowGroups)
    requires forall p :: p in pairs <==> p in fast || p in slow
    requires forall p :: !(p in fast && p in slow)
    ensures multiset(Flatten(fastGroups + slowGroups)) == multiset(pairs)
  {
    FlattenConcat(fastGroups, slowGroups);
    DistinctMultiset(pairs);
  }

  lemma FastComesFirst(w: seq<MuxEntry>, fast: seq<Pair>, slow: seq<Pair>, fastGroups: seq<seq<Pair>>,
                       slowGroups: seq<seq<Pair>>)
    requires ExactlyOnce(fast, fastGroups) && ExactlyOnce(slow, slowGroups)
    requires forall p :: p in fast ==> IntraMux(w, p)
    requires forall p :: p in slow ==> !IntraMux(w, p)
    ensures FastFirst(w, fastGroups + slowGroups)
  {
    var groups := fastGroups + slowGroups;
    forall i, p | 0 <= i < |groups| && p in groups[i]
      ensures IntraMux(w, p) <==> i < |fastGroups|
    {
      if i < |fastGroups| {
        ScheduledIsGiven(fast, fastGroups, i, p);
      } else {
        ScheduledIsGiven(slow, slowGroups, i - |fastGroups|, p);
      }
    }
    assert FastUpTo(w, groups, |fastGroups|);
  }

  lemma ScheduledIsGiven(pairs: seq<Pair>, groups: seq<seq<Pair>>, i: int, p: Pair)
    requires ExactlyOnce(pairs, groups)
    requires 0 <= i < |groups| && p in groups[i]
    ensures p in pairs
  {
    FlattenMembers(groups, p);
    assert p in multiset(Flatten(groups));
  }
}

/** Greedy colouring of a conflict graph, largest degree first. */
module GreedyColoring {
  import opened Common
  import opened PairConflicts

  ghost predicate Undirected(g: Graph) {
    forall p, q :: Adjacent(g, p, q) ==> q in g && Adjacent(g, q, p)
  }

  /** networkx counts a self-loop twice. */
  function Degree(g: Graph, p: Pair): nat
    requires p in g
  {
    |g[p]| + if p in g[p] then 1 else 0
  }

  ghost predicate Descending(g: Graph, order: seq<Pair>)
    requires forall p :: p in order ==> p in g
  {
    forall i, j :: 0 <= i < j < |order| ==>
      |g[order[i]]| + Loops(g, order[i]) >= |g[order[j]]| + Loops(g, order[j])
  }

  /** A node that is its own neighbour has one loop. */
  function Loops(g: Graph, p: Pair): nat
    requires p in g
  {
    if p in g[p] then 1 else 0
  }

  /** Without loops, the nodes with the most neighbours come first. */
  lemma DescendingNeighbours(g: Graph, order: seq<Pair>)
    requires (forall p :: p in order ==> p in g) && forall p :: p in g ==> p !in g[p]
    ensures Descending(g, order) <==> forall i, j :: 0 <= i < j < |order| ==> |g[order[i]]| >= |g[order[j]]|
  {
    if Descending(g, order) {
      forall i, j | 0 <= i < j < |order| ensures |g[order[i]]| >= |g[order[j]]| {
        assert order[i] in g && order[j] in g;
        assert Loops(g, order[i]) == 0 == Loops(g, order[j]);
      }
    }
  }

  /** The nodes in descending degree; ties may come in any order. */
  method LargestFirst(g: Graph) returns (order: seq<Pair>)
    ensures Distinct(order)
    ensures forall p :: p in order <==> p in g
    ensures Descending(g, order)
  {
    order := [];
    var todo := g.Keys;
    while todo != {}
      invariant todo <= g.Keys
      invariant forall p :: p in order <==> p in g && p !in todo
      invariant Distinct(order)
      invariant Descending(g, order)
      invariant forall p, q :: p in order && q in todo ==> Degree(g, p) >= Degree(g, q)
    {
      var p := OfLargestDegree(g, todo);
      todo := todo - {p};
      Comes(g, order, p);
      order := order + [p];
    }
  }

  lemma Comes(g: Graph, order: seq<Pair>, p: Pair)
    requires (forall q :: q in order ==> q in g) && p in g && Descending(g, order)
    requires forall q :: q in order ==> Degree(g, q) >= Degree(g, p)
    ensures Descending(g, order + [p])
  {
    var longer := order + [p];
    forall i, j | 0 <= i < j < |longer|
      ensures |g[longer[i]]| + Loops(g, longer[i]) >= |g[longer[j]]| + Loops(g, longer[j])
    {
      if j == |order| {
        assert order[i] in order;
      }
    }
  }

  method OfLargestDegree(g: Graph, s: set<Pair>) returns (p: Pair)
    requires s != {} && s <= g.Keys
    ensures p in s && forall q :: q in s ==> Degree(g, p) >= Degree(g, q)
  {
    p := Next(s);
    var todo := s - {p};
    while todo != {}
      invariant todo <= s && p in s
      invariant forall q :: q in s - todo ==> Degree(g, p) >= Degree(g, q)
    {
      var q := Next(todo);
      todo := todo - {q};
      if Degree(g, q) > Degree(g, p) {
        p := q;
      }
    }
  }

  /** The colours of the already coloured neighbours of `u`. */
  function NeighbourColors(g: Graph, color: map<Pair, int>, u: Pair): set<int>
    requires u in g
  {
    set v | v in g[u] && v in color :: color[v]
  }

  ghost predicate Proper(g: Graph, color: map<Pair, int>) {
    forall p, q :: p in color && q in color && p != q && Adjacent(g, p, q) ==> color[p] != color[q]
  }

  /** Every smaller colour was taken by a neighbour that came earlier. */
  ghost predicate FirstFit(g: Graph, order: seq<Pair>, color: map<Pair, int>)
    requires forall p :: p in order ==> p in color
  {
    forall i, c :: 0 <= i < |order| && 0 <= c < color[order[i]] ==> TakenEarlier(g, order, color, i, c)
  }

  ghost predicate TakenEarlier(g: Graph, order: seq<Pair>, color: map<Pair, int>, i: int, c: int)
    requires 0 <= i < |order| && forall p :: p in order ==> p in color
  {
    exists j :: 0 <= j < i && Adjacent(g, order[i], order[j]) && color[order[j]] == c
  }

  lemma ExtendFirstFit(g: Graph, order: seq<Pair>, color: map<Pair, int>, u: Pair, c: int)
    requires u in g && u !in order && u !in color && Undirected(g)
    requires forall p :: p in color <==> p in order
    requires Proper(g, color) && FirstFit(g, order, color)
    requires c !in NeighbourColors(g, color, u)
    requires forall x :: 0 <= x < c ==> x in NeighbourColors(g, color, u)
    ensures Proper(g, color[u := c])
    ensures FirstFit(g, order + [u], color[u := c])
  {
    var order', color' := order + [u], color[u := c];
    forall p | p in color && Adjacent(g, u, p) ensures color[p] != c {
      assert color[p] in NeighbourColors(g, color, u);
    }
    forall i, x | 0 <= i < |order'| && 0 <= x < color'[order'[i]]
      ensures TakenEarlier(g, order', color', i, x)
    {
      if i < |order| {
        assert TakenEarlier(g, order, color, i, x);
        var j :| 0 <= j < i && Adjacent(g, order[i], order[j]) && color[order[j]] == x;
        assert order'[j] == order[j];
      } else {
        assert x in NeighbourColors(g, color, u);
        var v :| v in g[u] && v in color && color[v] == x;
        var j :| 0 <= j < |order| && order[j] == v;
        assert order'[j] == v;
      }
    }
  }

  /** The least colour that is not taken. */
  method FreeColor(taken: set<int>) returns (c: int)
    ensures c >= 0 && c !in taken
    ensures forall x :: 0 <= x < c ==> x in taken
  {
    c := 0;
    while c in taken
      invariant c >= 0
      invariant forall x :: 0 <= x < c ==> x in taken
      decreases |AtLeast(taken, c)|
    {
      AtLeastShrinks(taken, c);
      c := c + 1;
    }
  }

  lemma NothingColored(g: Graph)
    ensures Proper(g, map[]) && FirstFit(g, [], map[])
  {
  }

  method GreedyColor(g: Graph, order: seq<Pair>) returns (color: map<Pair, int>)
    requires Distinct(order) && (forall p :: p in order <==> p in g) && Undirected(g)
    ensures color.Keys == g.Keys
    ensures forall p :: p in color ==> color[p] >= 0
    ensures Proper(g, color)
    ensures FirstFit(g, order, color)
  {
    hide Proper, FirstFit, NeighbourColors, Undirected;
    color := map[];
    NothingColored(g);
    for i := 0 to |order|
      invariant forall p :: p in color <==> p in order[..i]
      invariant forall p :: p in color ==> color[p] >= 0
      invariant Proper(g, color)
      invariant FirstFit(g, order[..i], color)
    {
      var u := order[i];
      var c := FreeColor(NeighbourColors(g, color, u));
      ExtendFirstFit(g, order[..i], color, u, c);
      assert order[..i + 1] == order[..i] + [u];
      color := color[u := c];
    }
    assert order[..|order|] == order;
  }

  // ---------------------------------------------------------------------
  // Colour classes
  // ---------------------------------------------------------------------

  /** The nodes of one colour, in the order in which they were coloured. */
  function ColorClass(order: seq<Pair>, color: map<Pair, int>, c: int): (r: seq<Pair>)
    requires forall p :: p in order ==> p in color
    ensures forall p :: p in r <==> p in order && color[p] == c
  {
    if order == [] then []
    else
      var front, last := order[..|order| - 1], order[|order| - 1];
      ColorClass(front, color, c) + if color[last] == c then [last] else []
  }

  /** The nodes whose colour is below `c`. */
  ghost function Below(order: seq<Pair>, color: map<Pair, int>, c: int): seq<Pair>
    requires forall p :: p in order ==> p in color
  {
    if order == [] then []
    else
      var front, last := order[..|order| - 1], order[|order| - 1];
      Below(front, color, c) + if color[last] < c then [last] else []
  }

  lemma {:induction false} BelowNext(order: seq<Pair>, color: map<Pair, int>, c: int)
    requires forall p :: p in order ==> p in color
    ensures multiset(Below(order, color, c + 1)) ==
      multiset(Below(order, color, c)) + multiset(ColorClass(order, color, c))
  {
    if order == [] {
    } else {
      BelowNext(order[..|order| - 1], color, c);
    }
  }

  lemma {:induction false} BelowBounds(order: seq<Pair>, color: map<Pair, int>, k: int)
    requires forall p :: p in order ==> p in color && 0 <= color[p] < k
    ensures Below(order, color, 0) == [] && Below(order, color, k) == order
  {
    if order == [] {
    } else {
      var front := order[..|order| - 1];
      assert order == front + [order[|order| - 1]];
      BelowBounds(front, color, k);
    }
  }

  /** What the unsplit groups are, in terms of the conflict graph: a partition of
      the nodes into independent classes, each of whose members was pushed there
      by a conflict with every earlier class, no more of them than Welsh and
      Powell allow. */
  ghost predicate GreedyClasses(g: Graph, classes: seq<seq<Pair>>) {
    && Partition(g.Keys, classes)
    && Independent(g, classes)
    && Minimal(g, classes)
    && (classes != [] ==> |OfDegree(g, |classes| - 1)| >= |classes|)
    && (exists order, color :: LargestFirstFit(g, order, color, classes))
  }

  /** The classes are what first fit leaves when the nodes come in descending degree: a node gets the
      least number that no earlier neighbour has, and class c lists the nodes numbered c as they came. */
  ghost predicate LargestFirstFit(g: Graph, order: seq<Pair>, color: map<Pair, int>, classes: seq<seq<Pair>>) {
    && Distinct(order) && (forall p :: p in order <==> p in g) && color.Keys == g.Keys && Descending(g, order)
    && (forall i :: 0 <= i < |order| ==> LeastFree(g, order, color, i))
    && (forall p :: p in color ==> 0 <= color[p] < |classes|)
    && (forall c :: 0 <= c < |classes| ==> classes[c] != [] && classes[c] == Colored(order, color, c))
  }

  ghost predicate LeastFree(g: Graph, order: seq<Pair>, color: map<Pair, int>, i: int)
    requires 0 <= i < |order| && (forall p :: p in order ==> p in g && p in color)
  {
    && (forall j :: 0 <= j < i && order[j] in g[order[i]] ==> color[order[j]] != color[order[i]])
    && (forall c :: 0 <= c < color[order[i]] ==> TakenEarlier(g, order, color, i, c))
  }

  function Colored(order: seq<Pair>, color: map<Pair, int>, c: int): seq<Pair> {
    Filter(p => p in color && color[p] == c, order)
  }

  /** Nothing but the order of the nodes is left open: it determines the classes. */
  lemma OrderDecidesClasses(g: Graph, order: seq<Pair>, color: map<Pair, int>, classes: seq<seq<Pair>>,
                            color': map<Pair, int>, classes': seq<seq<Pair>>)
    requires LargestFirstFit(g, order, color, classes) && LargestFirstFit(g, order, color', classes')
    ensures color == color' && classes == classes'
  {
    hide Colored, LeastFree, Descending;
    forall p | p in order ensures color[p] == color'[p] {
      var i :| 0 <= i < |order| && order[i] == p;
      SameColor(g, order, color, color', i);
    }
    assert color == color';
    assert |classes| == |classes'| by {
      NoShorter(g, order, color, classes, classes');
      NoShorter(g, order, color, classes', classes);
    }
  }

  lemma NoShorter(g: Graph, order: seq<Pair>, color: map<Pair, int>, a: seq<seq<Pair>>, b: seq<seq<Pair>>)
    requires LargestFirstFit(g, order, color, a) && LargestFirstFit(g, order, color, b)
    ensures |a| <= |b|
  {
    hide LeastFree, Descending;
    if a != [] {
      var p := a[|a| - 1][0];
      assert p in Colored(order, color, |a| - 1);
    }
  }

  lemma {:induction false} SameColor(g: Graph, order: seq<Pair>, color: map<Pair, int>, color': map<Pair, int>, i: int)
    requires (forall p :: p in order ==> p in g && p in color && p in color' && color[p] >= 0 && color'[p] >= 0)
    requires forall k :: 0 <= k < |order| ==> LeastFree(g, order, color, k) && LeastFree(g, order, color', k)
    requires 0 <= i < |order|
    ensures color[order[i]] == color'[order[i]]
    decreases i
  {
    forall j | 0 <= j < i ensures color[order[j]] == color'[order[j]] {
      SameColor(g, order, color, color', j);
    }
    NotSmaller(g, order, color, color', i);
    NotSmaller(g, order, color', color, i);
  }

  lemma TakenColor(g: Graph, order: seq<Pair>, color: map<Pair, int>, color': map<Pair, int>, i: int, c: int)
    requires (forall p :: p in order ==> p in g && p in color && p in color')
    requires 0 <= i < |order| && LeastFree(g, order, color, i) && LeastFree(g, order, color', i)
    requires forall j :: 0 <= j < i ==> color[order[j]] == color'[order[j]]
    requires 0 <= c < color'[order[i]]
    ensures color[order[i]] != c
  {
    assert TakenEarlier(g, order, color', i, c);
  }

  lemma NotSmaller(g: Graph, order: seq<Pair>, color: map<Pair, int>, color': map<Pair, int>, i: int)
    requires (forall p :: p in order ==> p in g && p in color && p in color' && color[p] >= 0 && color'[p] >= 0)
    requires 0 <= i < |order| && LeastFree(g, order, color, i) && LeastFree(g, order, color', i)
    requires forall j :: 0 <= j < i ==> color[order[j]] == color'[order[j]]
    ensures color[order[i]] >= color'[order[i]]
  {
    if color[order[i]] < color'[order[i]] {
      TakenColor(g, order, color, color', i, color[order[i]]);
    }
  }

  lemma {:induction false} ColorClassIsColored(order: seq<Pair>, color: map<Pair, int>, c: int)
    requires forall p :: p in order ==> p in color
    ensures ColorClass(order, color, c) == Colored(order, color, c)
  {
    if order == [] {
    } else {
      ColorClassIsColored(order[..|order| - 1], color, c);
    }
  }

  lemma ClassesAreLargestFirst(g: Graph, order: seq<Pair>, color: map<Pair, int>, classes: seq<seq<Pair>>)
    requires Distinct(order) && (forall p :: p in order <==> p in g) && color.Keys == g.Keys
    requires (forall p :: p in color ==> color[p] >= 0) && Proper(g, color)
    requires FirstFit(g, order, color) && Descending(g, order)
    requires AreClasses(order, color, classes)
    ensures LargestFirstFit(g, order, color, classes)
  {
    hide ColorClass, Colored, Descending;
    forall i | 0 <= i < |order| ensures LeastFree(g, order, color, i) {
      FirstFitIsLeast(g, order, color, i);
    }
    forall p | p in color ensures 0 <= color[p] < |classes| {
      assert p in ColorClass(order, color, color[p]);
    }
    forall c | 0 <= c < |classes| ensures classes[c] == Colored(order, color, c) {
      ColorClassIsColored(order, color, c);
    }
  }

  lemma FirstFitIsLeast(g: Graph, order: seq<Pair>, color: map<Pair, int>, i: int)
    requires Distinct(order) && (forall p :: p in order <==> p in g) && color.Keys == g.Keys
    requires Proper(g, color) && FirstFit(g, order, color) && 0 <= i < |order|
    ensures LeastFree(g, order, color, i)
  {
    hide TakenEarlier;
  }

  /** What the number of classes means, counted in neighbours. */
  lemma FewClasses(g: Graph, classes: seq<seq<Pair>>, d: nat)
    requires GreedyClasses(g, classes) && forall p :: p in g ==> p !in g[p]
    ensures |set p | p in g && |g[p]| >= |classes| - 1| >= |classes|
    ensures (forall p :: p in g ==> |g[p]| <= d) ==> |classes| <= d + 1
  {
    hide Partition, Independent, Minimal, LargestFirstFit;
    var many := set p | p in g && |g[p]| >= |classes| - 1;
    assert OfDegree(g, |classes| - 1) == many;
    if classes != [] {
      assert many != {};
      var p :| p in many;
    }
  }

  /** Every node is in exactly one class, once; no class is empty. */
  ghost predicate Partition(nodes: set<Pair>, classes: seq<seq<Pair>>) {
    && (forall c :: 0 <= c < |classes| ==> classes[c] != [])
    && multiset(Flatten(classes)) == multiset(nodes)
  }

  ghost predicate Independent(g: Graph, classes: seq<seq<Pair>>) {
    forall c, p, q :: 0 <= c < |classes| && p in classes[c] && q in classes[c] && p != q ==> !Adjacent(g, p, q)
  }

  ghost predicate Minimal(g: Graph, classes: seq<seq<Pair>>) {
    forall c, p, b :: 0 <= b < c < |classes| && p in classes[c] ==> Touches(g, p, classes[b])
  }

  ghost predicate Touches(g: Graph, p: Pair, class_: seq<Pair>) {
    exists q :: q in class_ && q != p && Adjacent(g, p, q)
  }

  ghost function OfDegree(g: Graph, d: int): set<Pair> {
    set p | p in g && |g[p]| + Loops(g, p) >= d
  }

  /** A node of colour c stands at position c or later and has c other neighbours. */
  lemma ColorNeedsPredecessors(g: Graph, order: seq<Pair>, color: map<Pair, int>, i: int)
    requires Distinct(order) && (forall p :: p in order <==> p in g) && color.Keys == g.Keys
    requires FirstFit(g, order, color)
    requires 0 <= i < |order| && color[order[i]] >= 0
    ensures color[order[i]] <= i
    ensures color[order[i]] <= |g[order[i]]|
  {
    var u, c := order[i], color[order[i]];
    var earlier := Elements(order[..i]) * g[u];
    var colors := set q | q in earlier :: color[q];
    forall x | 0 <= x < c ensures x in colors {
      assert TakenEarlier(g, order, color, i, x);
      var j :| 0 <= j < i && Adjacent(g, u, order[j]) && color[order[j]] == x;
      assert order[j] in order[..i];
    }
    IntervalSize(colors, c);
    ImageSize(earlier, color);
    DistinctCardinality(order[..i]);
    SubsetSize(earlier, Elements(order[..i]));
    SubsetSize(earlier, g[u]);
  }

  lemma {:induction false} IntervalSize(s: set<int>, n: nat)
    requires forall x :: 0 <= x < n ==> x in s
    ensures |s| >= n
  {
    if n == 0 {
    } else {
      IntervalSize(s - {n - 1}, n - 1);
    }
  }

  lemma {:induction false} SubsetSize<T>(a: set<T>, b: set<T>)
    requires a <= b
    ensures |a| <= |b|
    decreases |a|
  {
    if a == {} {
    } else {
      var x :| x in a;
      SubsetSize(a - {x}, b - {x});
    }
  }

  lemma {:induction false} ImageSize(s: set<Pair>, f: map<Pair, int>)
    requires s <= f.Keys
    ensures |set q | q in s :: f[q]| <= |s|
    decreases |s|
  {
    var image := set q | q in s :: f[q];
    if s == {} {
    } else {
      var x :| x in s;
      var rest := s - {x};
      var smaller := set q | q in rest :: f[q];
      ImageSize(rest, f);
      assert image == smaller + {f[x]};
    }
  }

  /** In descending order the first node of colour k - 1 and all before it have
      degree k - 1 at least, and there are k of them. */
  lemma WelshPowell(g: Graph, order: seq<Pair>, color: map<Pair, int>, i: int, k: int)
    requires Distinct(order) && (forall p :: p in order <==> p in g) && color.Keys == g.Keys
    requires FirstFit(g, order, color) && Descending(g, order)
    requires 0 <= i < |order| && color[order[i]] == k - 1 && k >= 1
    ensures |OfDegree(g, k - 1)| >= k
  {
    ColorNeedsPredecessors(g, order, color, i);
    var prefix := order[..i + 1];
    assert Elements(prefix) <= OfDegree(g, k - 1);
    DistinctCardinality(prefix);
    SubsetSize(Elements(prefix), OfDegree(g, k - 1));
  }

  ghost predicate ColorsOf(order: seq<Pair>, color: map<Pair, int>, byColor: map<int, seq<Pair>>)
    requires forall p :: p in order ==> p in color
  {
    && (forall c :: c in byColor <==> ColorClass(order, color, c) != [])
    && (forall c :: c in byColor ==> byColor[c] == ColorClass(order, color, c))
  }

  function WithNode(byColor: map<int, seq<Pair>>, c: int, p: Pair): map<int, seq<Pair>> {
    byColor[c := (if c in byColor then byColor[c] else []) + [p]]
  }

  /** `color_groups`: one list per colour that occurs. */
  method CollectColors(order: seq<Pair>, color: map<Pair, int>) returns (byColor: map<int, seq<Pair>>)
    requires forall p :: p in order ==> p in color
    ensures ColorsOf(order, color, byColor)
  {
    hide ColorsOf;
    byColor := map[];
    NothingCollected(color);
    for i := 0 to |order|
      invariant ColorsOf(order[..i], color, byColor)
    {
      CollectOne(order, color, i, byColor);
      byColor := WithNode(byColor, color[order[i]], order[i]);
    }
    assert order[..|order|] == order;
  }

  lemma NothingCollected(color: map<Pair, int>)
    ensures ColorsOf([], color, map[])
  {
  }

  lemma CollectOne(order: seq<Pair>, color: map<Pair, int>, i: int, byColor: map<int, seq<Pair>>)
    requires 0 <= i < |order| && forall p :: p in order ==> p in color
    requires ColorsOf(order[..i], color, byColor)
    ensures ColorsOf(order[..i + 1], color, WithNode(byColor, color[order[i]], order[i]))
  {
    hide ColorClass;
    forall c
      ensures ColorClass(order[..i + 1], color, c)
           == ColorClass(order[..i], color, c) + (if color[order[i]] == c then [order[i]] else [])
    {
      NextInClass(order, color, i, c);
    }
  }

  lemma NextInClass(order: seq<Pair>, color: map<Pair, int>, i: int, c: int)
    requires 0 <= i < |order| && forall p :: p in order ==> p in color
    ensures ColorClass(order[..i + 1], color, c)
         == ColorClass(order[..i], color, c) + (if color[order[i]] == c then [order[i]] else [])
  {
    var next := order[..i + 1];
    assert next[..|next| - 1] == order[..i] && next[|next| - 1] == order[i];
  }

  /** The colours in use are 0, 1, ... without a gap. */
  ghost predicate Gapless(order: seq<Pair>, color: map<Pair, int>)
    requires forall p :: p in order ==> p in color
  {
    forall c :: ColorClass(order, color, c) != [] ==>
      c >= 0 && forall b :: 0 <= b < c ==> ColorClass(order, color, b) != []
  }

  /** The lists of `color_groups` by ascending colour. */
  method GroupByColor(order: seq<Pair>, color: map<Pair, int>) returns (groups: seq<seq<Pair>>)
    requires forall p :: p in order ==> p in color
    requires Gapless(order, color)
    ensures forall c :: 0 <= c < |groups| ==> groups[c] == ColorClass(order, color, c) && groups[c] != []
    ensures forall c :: ColorClass(order, color, c) != [] ==> 0 <= c < |groups|
  {
    var byColor := CollectColors(order, color);
    groups := SortedLists(byColor);
  }

  method SortedLists(byColor: map<int, seq<Pair>>) returns (groups: seq<seq<Pair>>)
    requires forall c :: c in byColor ==> c >= 0 && forall b :: 0 <= b < c ==> b in byColor
    ensures forall c :: c in byColor <==> 0 <= c < |groups|
    ensures forall c :: 0 <= c < |groups| ==> groups[c] == byColor[c]
  {
    groups := [];
    var todo := byColor.Keys;
    while todo != {}
      invariant todo <= byColor.Keys
      invariant forall c :: c in todo <==> c in byColor && c >= |groups|
      invariant forall c :: 0 <= c < |groups| ==> c in byColor && groups[c] == byColor[c]
    {
      var c := Least(todo);
      assert c in byColor && |groups| in byColor;
      assert c == |groups|;
      todo := todo - {c};
      groups := groups + [byColor[c]];
    }
  }

  method Least(s: set<int>) returns (m: int)
    requires s != {}
    ensures m in s && forall x :: x in s ==> m <= x
  {
    m := Next(s);
    var todo := s - {m};
    while todo != {}
      invariant todo <= s && m in s
      invariant forall x :: x in s && x !in todo ==> m <= x
    {
      var x := Next(todo);
      todo := todo - {x};
      if x < m {
        m := x;
      }
    }
  }

  method ColorClasses(g: Graph) returns (classes: seq<seq<Pair>>)
    requires Undirected(g)
    ensures GreedyClasses(g, classes)
  {
    var order := LargestFirst(g);
    var color := GreedyColor(g, order);
    FirstFitIsGapless(g, order, color);
    classes := GroupByColor(order, color);
    ClassesAreGreedy(g, order, color, classes);
  }

  lemma FirstFitIsGapless(g: Graph, order: seq<Pair>, color: map<Pair, int>)
    requires forall p :: p in order ==> p in color && color[p] >= 0
    requires FirstFit(g, order, color)
    ensures Gapless(order, color)
  {
    forall c | ColorClass(order, color, c) != []
      ensures c >= 0 && forall b :: 0 <= b < c ==> ColorClass(order, color, b) != []
    {
      var p := ColorClass(order, color, c)[0];
      assert p in ColorClass(order, color, c);
      forall b | 0 <= b < c ensures ColorClass(order, color, b) != [] {
        var q := ReasonFor(g, order, color, p, b);
      }
    }
  }

  lemma ClassesAreGreedy(g: Graph, order: seq<Pair>, color: map<Pair, int>, classes: seq<seq<Pair>>)
    requires Distinct(order) && (forall p :: p in order <==> p in g) && color.Keys == g.Keys
    requires (forall p :: p in color ==> color[p] >= 0) && Proper(g, color)
    requires FirstFit(g, order, color) && Descending(g, order)
    requires AreClasses(order, color, classes)
    ensures GreedyClasses(g, classes)
  {
    hide Partition, Independent, Minimal, OfDegree, Proper, FirstFit, Descending, AreClasses;
    ClassesArePartition(g, order, color, classes);
    ClassesAreIndependent(g, order, color, classes);
    ClassesAreMinimal(g, order, color, classes);
    ClassesAreFew(g, order, color, classes);
    ClassesAreLargestFirst(g, order, color, classes);
  }

  /** The lists are the colour classes, none of them empty and none missing. */
  ghost predicate AreClasses(order: seq<Pair>, color: map<Pair, int>, classes: seq<seq<Pair>>)
    requires forall p :: p in order ==> p in color
  {
    && (forall c :: 0 <= c < |classes| ==> classes[c] == ColorClass(order, color, c) && classes[c] != [])
    && (forall c :: ColorClass(order, color, c) != [] ==> 0 <= c < |classes|)
  }

  lemma ClassesArePartition(g: Graph, order: seq<Pair>, color: map<Pair, int>, classes: seq<seq<Pair>>)
    requires Distinct(order) && (forall p :: p in order <==> p in g) && color.Keys == g.Keys
    requires AreClasses(order, color, classes)
    ensures Partition(g.Keys, classes)
  {
    hide ColorClass;
    forall p | p in order ensures 0 <= color[p] < |classes| {
      assert p in ColorClass(order, color, color[p]);
    }
    ClassesPartition(order, color, classes);
    DistinctMultiset(order);
    assert multiset(order) == multiset(g.Keys);
  }

  lemma ClassesAreIndependent(g: Graph, order: seq<Pair>, color: map<Pair, int>, classes: seq<seq<Pair>>)
    requires (forall p :: p in order ==> p in color) && Proper(g, color) && AreClasses(order, color, classes)
    ensures Independent(g, classes)
  {
    hide ColorClass;
  }

  lemma ClassesAreMinimal(g: Graph, order: seq<Pair>, color: map<Pair, int>, classes: seq<seq<Pair>>)
    requires (forall p :: p in order ==> p in color) && FirstFit(g, order, color) && AreClasses(order, color, classes)
    ensures Minimal(g, classes)
  {
    hide ColorClass, FirstFit;
    forall c, p, b | 0 <= b < c < |classes| && p in classes[c]
      ensures Touches(g, p, classes[b])
    {
      var q := ReasonFor(g, order, color, p, b);
    }
  }

  lemma ClassesAreFew(g: Graph, order: seq<Pair>, color: map<Pair, int>, classes: seq<seq<Pair>>)
    requires Distinct(order) && (forall p :: p in order <==> p in g) && color.Keys == g.Keys
    requires FirstFit(g, order, color) && Descending(g, order) && AreClasses(order, color, classes)
    ensures classes != [] ==> |OfDegree(g, |classes| - 1)| >= |classes|
  {
    hide ColorClass, FirstFit, Descending, OfDegree;
    if classes != [] {
      var k := |classes|;
      var p := classes[k - 1][0];
      assert p in classes[k - 1];
      var i :| 0 <= i < |order| && order[i] == p;
      WelshPowell(g, order, color, i, k);
    }
  }

  /** The largest, over the positions of the order, of the lesser of position and degree. */
  function PositionBound(g: Graph, order: seq<Pair>): nat
    requires forall p :: p in order ==> p in g
  {
    if order == [] then 0
    else
      var n := |order| - 1;
      Larger(PositionBound(g, order[..n]), Lesser(n, |g[order[n]]| + Loops(g, order[n])))
  }

  function Larger(a: nat, b: nat): nat {
    if a < b then b else a
  }

  function Lesser(a: nat, b: nat): nat {
    if a < b then a else b
  }

  lemma {:induction false} PositionBoundAt(g: Graph, order: seq<Pair>, i: nat)
    requires (forall p :: p in order ==> p in g) && i < |order|
    ensures PositionBound(g, order) >= Lesser(i, |g[order[i]]| + Loops(g, order[i]))
  {
    if i == |order| - 1 {
    } else {
      PositionBoundAt(g, order[..|order| - 1], i);
    }
  }

  /** The bound is reached at some position. */
  lemma {:induction false} PositionBoundReached(g: Graph, order: seq<Pair>) returns (i: nat)
    requires (forall p :: p in order ==> p in g) && order != []
    ensures i < |order|
    ensures PositionBound(g, order) == if i < |g[order[i]]| + Loops(g, order[i]) then i
                                       else |g[order[i]]| + Loops(g, order[i])
  {
    i := |order| - 1;
    var front := order[..i];
    if front != [] && PositionBound(g, front) > Lesser(i, |g[order[i]]| + Loops(g, order[i])) {
      i := PositionBoundReached(g, front);
    }
  }

  /** With the nodes listed in descending degree, counted from 0, the number of classes is at most
      1 + max min(degree, position). */
  lemma ColorsWithinBound(g: Graph, order: seq<Pair>, classes: seq<seq<Pair>>)
    requires Distinct(order) && (forall p :: p in order <==> p in g) && Descending(g, order)
    requires GreedyClasses(g, classes)
    ensures |classes| <= 1 + PositionBound(g, order)
    ensures classes != [] ==>
      exists i :: 0 <= i < |order| && |classes| <= 1 + i && |classes| <= 1 + |g[order[i]]| + Loops(g, order[i])
  {
    hide Partition, Independent, Minimal, PositionBound;
    if classes != [] {
      var k := |classes| - 1;
      ManyOfDegree(g, order, k);
      PositionBoundAt(g, order, k);
    }
  }

  /** If more than k nodes have degree k at least, so has the one at position k. */
  lemma ManyOfDegree(g: Graph, order: seq<Pair>, k: nat)
    requires Distinct(order) && (forall p :: p in order <==> p in g) && Descending(g, order)
    requires |OfDegree(g, k)| > k
    ensures k < |order| && |g[order[k]]| + Loops(g, order[k]) >= k
  {
    var n := if k < |order| then k else |order|;
    if n == |order| || |g[order[n]]| + Loops(g, order[n]) < k {
      forall p | p in OfDegree(g, k) ensures p in order[..n] {
        var i :| 0 <= i < |order| && order[i] == p;
        assert i < n;
      }
      DistinctCardinality(order[..n]);
      SubsetSize(OfDegree(g, k), Elements(order[..n]));
    }
  }

  lemma ReasonFor(g: Graph, order: seq<Pair>, color: map<Pair, int>, p: Pair, c: int) returns (q: Pair)
    requires forall p :: p in order ==> p in color
    requires FirstFit(g, order, color)
    requires p in order && 0 <= c < color[p]
    ensures q in ColorClass(order, color, c) && q != p && Adjacent(g, p, q)
  {
    var i :| 0 <= i < |order| && order[i] == p;
    assert TakenEarlier(g, order, color, i, c);
    var j :| 0 <= j < i && Adjacent(g, order[i], order[j]) && color[order[j]] == c;
    q := order[j];
  }

  lemma ClassesPartition(order: seq<Pair>, color: map<Pair, int>, classes: seq<seq<Pair>>)
    requires forall p :: p in order ==> p in color && 0 <= color[p] < |classes|
    requires forall c :: 0 <= c < |classes| ==> classes[c] == ColorClass(order, color, c)
    ensures multiset(Flatten(classes)) == multiset(order)
  {
    BelowBounds(order, color, |classes|);
    var c := 0;
    while c < |classes|
      invariant 0 <= c <= |classes|
      invariant multiset(Flatten(classes[..c])) == multiset(Below(order, color, c))
    {
      assert classes[..c + 1][..c] == classes[..c];
      BelowNext(order, color, c);
      c := c + 1;
    }
    assert classes[..|classes|] == classes;
  }
}

/** Result types and small facts about sequences that several modules share. */
module Common {

  datatype Option<+T> = None | Some(value: T)

  datatype Result<+T, +E> = Ok(value: T) | Err(error: E)

  ghost predicate Distinct<T>(s: seq<T>) {
    forall i, j :: 0 <= i < j < |s| ==> s[i] != s[j]
  }

  ghost function Elements<T>(s: seq<T>): set<T> {
    set x | x in s
  }

  /** A sequence without repetition has as many elements as positions. */
  lemma {:induction false} DistinctCardinality<T>(s: seq<T>)
    requires Distinct(s)
    ensures |Elements(s)| == |s|
  {
    if s == [] {
    } else {
      var front, last := s[..|s| - 1], s[|s| - 1];
      DistinctCardinality(front);
      assert s == front + [last];
      assert Elements(s) == Elements(front) + {last};
      assert last !in Elements(front);
    }
  }

  /** In a repetition-free sequence every element occurs exactly once. */
  lemma {:induction false} DistinctMultiset<T>(s: seq<T>)
    requires Distinct(s)
    ensures forall x :: multiset(s)[x] == if x in s then 1 else 0
  {
    if s == [] {
    } else {
      var front, last := s[..|s| - 1], s[|s| - 1];
      assert s == front + [last];
      DistinctMultiset(front);
    }
  }

  lemma DistinctConcat<T>(s: seq<T>, t: seq<T>)
    requires Distinct(s) && Distinct(t)
    requires forall x :: x in t ==> x !in s
    ensures Distinct(s + t)
  {
    forall i, j | 0 <= i < j < |s + t| ensures (s + t)[i] != (s + t)[j] {
      if i < |s| <= j {
        assert t[j - |s|] in t;
      }
    }
  }

  function Flatten<T>(ss: seq<seq<T>>): seq<T> {
    if ss == [] then [] else Flatten(ss[..|ss| - 1]) + ss[|ss| - 1]
  }

  lemma {:induction false} FlattenConcat<T>(ss: seq<seq<T>>, tt: seq<seq<T>>)
    ensures Flatten(ss + tt) == Flatten(ss) + Flatten(tt)
  {
    if tt == [] {
      assert ss + tt == ss;
    } else {
      var front := tt[..|tt| - 1];
      FlattenConcat(ss, front);
      assert (ss + tt)[..|ss + tt| - 1] == ss + front;
    }
  }

  lemma {:induction false} FlattenMembers<T>(ss: seq<seq<T>>, x: T)
    ensures x in Flatten(ss) <==> exists i :: 0 <= i < |ss| && x in ss[i]
  {
    if ss == [] {
    } else {
      var front := ss[..|ss| - 1];
      FlattenMembers(front, x);
      assert forall i :: 0 <= i < |front| ==> ss[i] == front[i];
    }
  }

  /** `[x for x in s if keep(x)]`. */
  function Filter<T(!new)>(keep: T -> bool, s: seq<T>): (r: seq<T>)
    ensures forall x :: x in r <==> x in s && keep(x)
  {
    if s == [] then []
    else Filter(keep, s[..|s| - 1]) + if keep(s[|s| - 1]) then [s[|s| - 1]] else []
  }

  lemma {:induction false} FilterNone<T(!new)>(keep: T -> bool, s: seq<T>)
    requires forall x :: x in s ==> !keep(x)
    ensures Filter(keep, s) == []
  {
    if s == [] {
    } else {
      FilterNone(keep, s[..|s| - 1]);
    }
  }

  lemma {:induction false} FilterDistinct<T(!new)>(keep: T -> bool, s: seq<T>)
    requires Distinct(s)
    ensures Distinct(Filter(keep, s))
  {
    if s == [] {
    } else {
      FilterDistinct(keep, s[..|s| - 1]);
    }
  }

  /** What is kept is kept as often as it occurs. */
  lemma {:induction false} FilterCounts<T(!new)>(keep: T -> bool, s: seq<T>, x: T)
    ensures multiset(Filter(keep, s))[x] == if keep(x) then multiset(s)[x] else 0
  {
    if s == [] {
    } else {
      var front, last := s[..|s| - 1], s[|s| - 1];
      FilterCounts(keep, front, x);
      assert s == front + [last];
    }
  }

  /** What is kept stays in its order. */
  lemma {:induction false} FilterKeepsOrder<T(!new)>(keep: T -> bool, s: seq<T>, i: nat, j: nat)
    requires i < j < |Filter(keep, s)|
    ensures exists a, b :: 0 <= a < b < |s| && s[a] == Filter(keep, s)[i] && s[b] == Filter(keep, s)[j]
  {
    if s == [] {
    } else {
      var front, last := s[..|s| - 1], s[|s| - 1];
      if j < |Filter(keep, front)| {
        FilterKeepsOrder(keep, front, i, j);
        var a, b :| 0 <= a < b < |front| && front[a] == Filter(keep, s)[i] && front[b] == Filter(keep, s)[j];
        assert s[a] == front[a] && s[b] == front[b];
      } else {
        assert Filter(keep, front)[i] in Filter(keep, front);
        var a :| 0 <= a < |front| && front[a] == Filter(keep, front)[i];
        assert s[a] == front[a] && s[|front|] == last;
      }
    }
  }

  /** The least number from `start` upwards that is not taken. */
  function FirstFree(used: set<int>, start: int): (r: int)
    ensures start <= r && r !in used
    ensures forall x :: start <= x < r ==> x in used
    decreases |AtLeast(used, start)|
  {
    if start in used then
      AtLeastShrinks(used, start);
      FirstFree(used, start + 1)
    else
      start
  }

  function AtLeast(used: set<int>, start: int): set<int> {
    set x | x in used && x >= start
  }

  lemma AtLeastShrinks(used: set<int>, start: int)
    requires start in used
    ensures |AtLeast(used, start + 1)| < |AtLeast(used, start)|
  {
    assert AtLeast(used, start) == AtLeast(used, start + 1) + {start};
  }

  /** Some element of a nonempty set: the next one an iteration visits. */
  method Next<T(==)>(s: set<T>) returns (x: T)
    requires s != {}
    ensures x in s
  {
    x :| x in s;
  }
}

/** What the backfill of thread numbers leaves in the posts, the counters and the report, read in their fields. */
module ForumOutcome {
  import opened Common
  import opened ForumNumbers

  // ---------------------------------------------------------------------
  // Posts
  // ---------------------------------------------------------------------

  /** The post at position i starts a thread of the project. */
  predicate Starts(posts: seq<Post>, project: string, i: int) {
    0 <= i < |posts| && posts[i].project == project && posts[i].parent == None
  }

  /** The post at position r answers the one at position i. */
  predicate Answers(posts: seq<Post>, r: int, i: int) {
    0 <= r < |posts| && 0 <= i < |posts| && posts[r].parent == Some(posts[i].id)
  }

  /** The number is taken when the backfill comes to position i: a thread had it before, or an earlier thread without a
      positive number got it. */
  ghost predicate Taken(before: seq<Post>, after: seq<Post>, project: string, i: int, n: int)
    requires |after| == |before|
  {
    || (exists j :: Starts(before, project, j) && before[j].number == Some(n))
    || (exists j :: j < i && Starts(before, project, j) && Unnumbered(before[j]) && after[j].number == Some(n))
  }

  /** No number, or one that is not positive. */
  predicate Unnumbered(p: Post) {
    p.number == None || p.number.value <= 0
  }

  /** The thread keeps its positive number; without one it gets the least positive number that is not taken. */
  ghost predicate ThreadNumbered(before: seq<Post>, after: seq<Post>, project: string, i: int)
    requires |after| == |before| && 0 <= i < |before|
  {
    if Unnumbered(before[i]) then
      exists n :: n > 0 && after[i] == before[i].(number := Some(n)) && !Taken(before, after, project, i, n)
        && forall m :: 0 < m < n ==> Taken(before, after, project, i, m)
    else after[i] == before[i]
  }

  lemma Threads(posts: seq<Post>, project: string, i: nat)
    requires UniqueIds(posts) && Starts(posts, project, i)
    ensures ThreadNumbered(posts, BackfillProject(posts, project), project, i)
  {
    hide BackfillProject, Numbers, NumberOf, UniqueIds, GivenBefore, Existing, Taken;
    var after := BackfillProject(posts, project);
    RootsAfter(posts, project, i);
    NumbersAreSmallestFree(posts, project, i);
    NumberIs(posts, project, i);
    if Unnumbered(posts[i]) {
      var n := NumberOf(posts, project, i);
      assert after[i] == posts[i].(number := Some(n)) by {
        SamePost(posts, project, i);
      }
      forall m | m > 0
        ensures Taken(posts, after, project, i, m) <==>
          m in Existing(posts, project) || GivenBefore(posts, project, i, m)
      {
        TakenIs(posts, project, i, m);
      }
    }
  }

  lemma NumberIs(posts: seq<Post>, project: string, i: nat)
    requires UniqueIds(posts) && Starts(posts, project, i)
    ensures posts[i].id in Numbers(posts, project) && Numbers(posts, project)[posts[i].id] ==
      NumberOf(posts, project, i)
  {
    hide NumberOf, AssignUpTo;
    NumbersByPosition(posts, project, |posts|);
  }

  /** Nothing but the number of a post changes. */
  lemma SamePost(posts: seq<Post>, project: string, i: nat)
    requires i < |posts|
    ensures BackfillProject(posts, project)[i] == posts[i].(number := BackfillProject(posts, project)[i].number)
  {
  }

  lemma TakenIs(posts: seq<Post>, project: string, i: nat, m: int)
    requires UniqueIds(posts) && i < |posts| && m > 0
    ensures Taken(posts, BackfillProject(posts, project), project, i, m) <==>
      m in Existing(posts, project) || GivenBefore(posts, project, i, m)
  {
    hide BackfillProject, NumberOf, UniqueIds;
    var after := BackfillProject(posts, project);
    if m in Existing(posts, project) {
      var p :| p in posts && IsRoot(p, project) && IsNumbered(p) && p.number.value == m;
      var j :| 0 <= j < |posts| && posts[j] == p;
      assert Starts(posts, project, j);
    }
    forall j | 0 <= j < i && IsRoot(posts[j], project) ensures after[j].number == Some(NumberOf(posts, project, j)) {
      RootsAfter(posts, project, j);
    }
    if GivenBefore(posts, project, i, m) {
      var j :| 0 <= j < i && NewRoot(posts[j], project) && NumberOf(posts, project, j) == m;
      assert Starts(posts, project, j);
    }
  }

  /** A reply gets the number of the thread it answers; any other post of the project and every post of another project
      stays as it is. */
  lemma Replies(posts: seq<Post>, project: string, r: nat)
    requires UniqueIds(posts) && r < |posts| && !Starts(posts, project, r)
    ensures
      var after := BackfillProject(posts, project);
      && (forall i :: Starts(posts, project, i) && Answers(posts, r, i) && posts[r].project == project ==>
            after[r] == posts[r].(number := after[i].number))
      && (posts[r].project != project || (forall i :: Starts(posts, project, i) ==> !Answers(posts, r, i)) ==>
            after[r] == posts[r])
  {
    hide BackfillProject, UniqueIds;
    RepliesAfter(posts, project, r);
    forall i
      ensures RepliesTo(posts, project, r, i) <==>
        Starts(posts, project, i) && Answers(posts, r, i) && posts[r].project == project
    {
    }
  }

  // ---------------------------------------------------------------------
  // The counter
  // ---------------------------------------------------------------------

  /** `c` is the least counter that is not below the old one nor below the number of a thread. */
  ghost predicate LeastCounter(counters: map<string, int>, after: seq<Post>, project: string, c: int) {
    && BoundsAll(counters, after, project, c)
    && forall v :: BoundsAll(counters, after, project, v) ==> c <= v
  }

  ghost predicate BoundsAll(counters: map<string, int>, after: seq<Post>, project: string, v: int) {
    && v >= 0
    && (project in counters ==> v >= counters[project])
    && (forall i :: Starts(after, project, i) && after[i].number.Some? ==> v >= after[i].number.value)
  }

  predicate HasMax(posts: seq<Post>, project: string, i: nat, n: nat)
    requires i < n <= |posts|
  {
    IsRoot(posts[i], project) && BackfillProject(posts, project)[i].number == Some(MaxNumber(posts, project, n))
  }

  lemma {:induction false} MaxIsAttained(posts: seq<Post>, project: string, n: nat)
    requires UniqueIds(posts) && n <= |posts|
    ensures MaxNumber(posts, project, n) >= 0
    ensures MaxNumber(posts, project, n) > 0 ==> exists i :: 0 <= i < n && HasMax(posts, project, i, n)
  {
    hide BackfillProject, NumberOf, UniqueIds;
    if n == 0 {
    } else {
      MaxIsAttained(posts, project, n - 1);
      if IsRoot(posts[n - 1], project) {
        RootsAfter(posts, project, n - 1);
      }
      if MaxNumber(posts, project, n) == MaxNumber(posts, project, n - 1) > 0 {
        var i :| 0 <= i < n - 1 && HasMax(posts, project, i, n - 1);
        assert HasMax(posts, project, i, n);
      } else if MaxNumber(posts, project, n) > 0 {
        assert HasMax(posts, project, n - 1, n);
      }
    }
  }

  lemma CounterIsLeast(posts: seq<Post>, counters: map<string, int>, project: string)
    requires UniqueIds(posts)
    ensures LeastCounter(counters, BackfillProject(posts, project), project, NewCounter(posts, counters, project))
  {
    hide BackfillProject, MaxNumber, UniqueIds;
    var after, c := BackfillProject(posts, project), NewCounter(posts, counters, project);
    SameStarts(posts, project);
    forall i | Starts(after, project, i) && after[i].number.Some? ensures c >= after[i].number.value {
      CounterCoversNumbers(posts, counters, project, i);
    }
    MaxIsAttained(posts, project, |posts|);
    if MaxNumber(posts, project, |posts|) > 0 {
      var i :| 0 <= i < |posts| && HasMax(posts, project, i, |posts|);
      assert Starts(after, project, i);
    }
  }

  lemma SameStarts(posts: seq<Post>, project: string)
    ensures forall i :: Starts(BackfillProject(posts, project), project, i) <==> Starts(posts, project, i)
  {
  }

  // ---------------------------------------------------------------------
  // The report
  // ---------------------------------------------------------------------

  /** The report counts the threads without a number, the replies whose number differs from their thread's new one, and
      the visible replies to posts that start no thread; its counter is the least one. */
  ghost predicate Reports(before: seq<Post>, counters: map<string, int>, after: seq<Post>, project: string,
                          info: ProjectInfo)
    requires |after| == |before|
  {
    && info.missing == |set k | 0 <= k < |before| && Starts(before, project, k) && Unnumbered(before[k])|
    && info.replies == |set k | 0 <= k < |before| && IsStale(before, after, project, k)|
    && info.orphans == |set k | 0 <= k < |before| && IsOrphan(before, project, k)|
    && LeastCounter(counters, after, project, info.counter)
  }

  ghost predicate IsStale(before: seq<Post>, after: seq<Post>, project: string, k: int)
    requires |after| == |before| && 0 <= k < |before|
  {
    before[k].project == project &&
    exists i :: Starts(before, project, i) && Answers(before, k, i) && before[k].number != after[i].number
  }

  ghost predicate IsOrphan(before: seq<Post>, project: string, k: int)
    requires 0 <= k < |before|
  {
    && before[k].project == project && before[k].parent.Some? && !before[k].isDeleted
    && forall i :: Starts(before, project, i) ==> !Answers(before, k, i)
  }

  lemma {:induction false} MissingIsCount(posts: seq<Post>, project: string, n: nat)
    requires n <= |posts|
    ensures CountNewRoots(posts, project, n) ==
      |set k | 0 <= k < n && Starts(posts, project, k) && Unnumbered(posts[k])|
  {
    hide Starts, Unnumbered;
    if n == 0 {
    } else {
      MissingIsCount(posts, project, n - 1);
      OneMoreMissing(posts, project, n - 1);
      NewIsMissing(posts, project, n - 1);
    }
  }

  lemma NewIsMissing(posts: seq<Post>, project: string, k: nat)
    requires k < |posts|
    ensures NewRoot(posts[k], project) <==> Starts(posts, project, k) && Unnumbered(posts[k])
  {
  }

  lemma OneMoreMissing(posts: seq<Post>, project: string, n: nat)
    requires n < |posts|
    ensures |set k | 0 <= k < n + 1 && Starts(posts, project, k) && Unnumbered(posts[k])| ==
      |set k | 0 <= k < n && Starts(posts, project, k) && Unnumbered(posts[k])|
        + if Starts(posts, project, n) && Unnumbered(posts[n]) then 1 else 0
  {
    hide Starts, Unnumbered;
    var before := set k | 0 <= k < n && Starts(posts, project, k) && Unnumbered(posts[k]);
    assert (set k | 0 <= k < n + 1 && Starts(posts, project, k) && Unnumbered(posts[k]))
        == before + if Starts(posts, project, n) && Unnumbered(posts[n]) then {n} else {};
  }

  lemma {:induction false} StaleIsCount(posts: seq<Post>, after: seq<Post>, project: string, nums: map<string, int>,
                                        n: nat)
    requires |after| == |posts| && n <= |posts|
    requires forall k :: 0 <= k < |posts| ==>
      (IsStale(posts, after, project, k) <==> StaleInAny(posts[k], project, nums))
    ensures CountAllStale(posts, project, nums, nums.Keys, n)
         == |set k | 0 <= k < n && IsStale(posts, after, project, k)|
  {
    hide IsStale, StaleInAny, CountAllStale;
    NoneStale(posts, project, nums);
    if n == 0 {
    } else {
      StaleIsCount(posts, after, project, nums, n - 1);
      OneMoreStale(posts, project, nums, n - 1);
      OneMoreFound(posts, after, project, n - 1);
    }
  }

  lemma NoneStale(posts: seq<Post>, project: string, nums: map<string, int>)
    ensures CountAllStale(posts, project, nums, nums.Keys, 0) == 0
  {
  }

  lemma OneMoreStale(posts: seq<Post>, project: string, nums: map<string, int>, k: nat)
    requires k < |posts|
    ensures CountAllStale(posts, project, nums, nums.Keys, k + 1) ==
      CountAllStale(posts, project, nums, nums.Keys, k) + if StaleInAny(posts[k], project, nums) then 1 else 0
  {
    hide StaleReply;
  }

  lemma OneMoreFound(posts: seq<Post>, after: seq<Post>, project: string, n: nat)
    requires |after| == |posts| && n < |posts|
    ensures |set k | 0 <= k < n + 1 && IsStale(posts, after, project, k)| ==
      |set k | 0 <= k < n && IsStale(posts, after, project, k)| + if IsStale(posts, after, project, n) then 1 else 0
  {
    hide IsStale;
    var before := set k | 0 <= k < n && IsStale(posts, after, project, k);
    assert (set k | 0 <= k < n + 1 && IsStale(posts, after, project, k))
        == before + if IsStale(posts, after, project, n) then {n} else {};
  }

  lemma {:induction false} OrphansIsCount(posts: seq<Post>, project: string, rootIds: set<string>, n: nat)
    requires n <= |posts|
    requires forall k :: 0 <= k < |posts| ==> (IsOrphan(posts, project, k) <==> Orphan(posts[k], project, rootIds))
    ensures CountOrphans(posts, project, rootIds, n) == |set k | 0 <= k < n && IsOrphan(posts, project, k)|
  {
    hide IsOrphan, Orphan;
    var all := set k | 0 <= k < n && IsOrphan(posts, project, k);
    if n == 0 {
    } else {
      OrphansIsCount(posts, project, rootIds, n - 1);
      var before := set k | 0 <= k < n - 1 && IsOrphan(posts, project, k);
      assert all == before + if IsOrphan(posts, project, n - 1) then {n - 1} else {};
    }
  }

  /** The ids that got a number are those of the threads. */
  lemma AnsweredThreads(posts: seq<Post>, project: string, k: nat)
    requires UniqueIds(posts) && k < |posts|
    ensures
      var after, nums := BackfillProject(posts, project), Numbers(posts, project);
      && (IsStale(posts, after, project, k) <==> StaleInAny(posts[k], project, nums))
      && (IsOrphan(posts, project, k) <==> Orphan(posts[k], project, nums.Keys))
  {
    hide BackfillProject, Numbers, NumberOf;
    var nums := Numbers(posts, project);
    forall i | Starts(posts, project, i)
      ensures posts[i].id in nums && BackfillProject(posts, project)[i].number == Some(nums[posts[i].id])
    {
      NumberIs(posts, project, i);
      RootsAfter(posts, project, i);
    }
    if posts[k].parent.Some? && posts[k].parent.value in nums {
      var i := RootOf(posts, project, posts[k].parent.value);
      assert Starts(posts, project, i) && Answers(posts, k, i);
    }
  }

  lemma ReportIsRight(posts: seq<Post>, counters: map<string, int>, project: string)
    requires UniqueIds(posts)
    ensures Reports(posts, counters, BackfillProject(posts, project), project, InfoOf(posts, counters, project))
  {
    hide BackfillProject, Numbers, IsStale, IsOrphan, StaleInAny, Orphan, LeastCounter, UniqueIds;
    var after, nums := BackfillProject(posts, project), Numbers(posts, project);
    forall k | 0 <= k < |posts|
      ensures IsStale(posts, after, project, k) <==> StaleInAny(posts[k], project, nums)
      ensures IsOrphan(posts, project, k) <==> Orphan(posts[k], project, nums.Keys)
    {
      AnsweredThreads(posts, project, k);
    }
    MissingIsCount(posts, project, |posts|);
    StaleIsCount(posts, after, project, nums, |posts|);
    OrphansIsCount(posts, project, nums.Keys, |posts|);
    CounterIsLeast(posts, counters, project);
  }

  // ---------------------------------------------------------------------
  // Duplicates and projects
  // ---------------------------------------------------------------------

  /** Two threads of the project have the same positive number. */
  ghost predicate SameNumberTwice(posts: seq<Post>, project: string) {
    exists i, j :: Starts(posts, project, i) && Starts(posts, project, j) && i != j
      && posts[i].number == posts[j].number && !Unnumbered(posts[i])
  }

  lemma DuplicatesInWords(posts: seq<Post>, project: string)
    ensures NoDuplicates(posts, project) <==> !SameNumberTwice(posts, project)
  {
    if SameNumberTwice(posts, project) {
      var i, j :| Starts(posts, project, i) && Starts(posts, project, j) && i != j
        && posts[i].number == posts[j].number && !Unnumbered(posts[i]);
      assert NumberedRoot(posts[i], project) && NumberedRoot(posts[j], project);
    }
    if !NoDuplicates(posts, project) {
      var i, j :| 0 <= i < j < |posts| && NumberedRoot(posts[i], project) && NumberedRoot(posts[j], project)
        && posts[i].number == posts[j].number;
      assert Starts(posts, project, i) && Starts(posts, project, j);
    }
  }

  /** The whole migration: it visits every named project with a thread; a post of a visited project is as its project's
      backfill leaves it, any other post is untouched; the counter of a visited project is the least one, and no other
      counter changes. */
  lemma MigrationInWords(posts: seq<Post>, counters: map<string, int>, i: nat, p: string)
    requires UniqueIds(posts) && i < |posts|
    ensures p in ProjectsOf(posts) <==> p != "" && exists k :: Starts(posts, p, k)
    ensures AfterProjects(posts, ProjectsOf(posts))[i] ==
      if posts[i].project in ProjectsOf(posts) then BackfillProject(posts, posts[i].project)[i] else posts[i]
    ensures
      var after := AfterCounters(posts, counters, ProjectsOf(posts));
      if p in ProjectsOf(posts) then
        p in after && LeastCounter(counters, AfterProjects(posts, ProjectsOf(posts)), p, after[p])
      else (p in after <==> p in counters) && (p in after ==> after[p] == counters[p])
  {
    hide Numbers, NewCounter, UniqueIds;
    ProjectStarts(posts, p);
    if p in ProjectsOf(posts) {
      hide ProjectsOf;
      CounterIsLeast(posts, counters, p);
      SameThreads(posts, ProjectsOf(posts), p);
      SameLeast(counters, BackfillProject(posts, p), AfterProjects(posts, ProjectsOf(posts)), p,
                NewCounter(posts, counters, p));
    }
  }

  lemma ProjectStarts(posts: seq<Post>, p: string)
    ensures p in ProjectsOf(posts) <==> p != "" && exists k :: Starts(posts, p, k)
  {
    if p in ProjectsOf(posts) {
      var q :| q in posts && q.parent.None? && q.project != "" && q.project == p;
      var k :| 0 <= k < |posts| && posts[k] == q;
      assert Starts(posts, p, k);
    }
    if k :| p != "" && Starts(posts, p, k) {
      assert posts[k] in posts;
    }
  }

  lemma SameThreads(posts: seq<Post>, done: set<string>, p: string)
    requires p in done
    ensures
      var a, b := BackfillProject(posts, p), AfterProjects(posts, done);
      forall i :: (Starts(a, p, i) <==> Starts(b, p, i)) && (Starts(a, p, i) ==> a[i] == b[i])
  {
    hide Numbers;
  }

  lemma SameLeast(counters: map<string, int>, a: seq<Post>, b: seq<Post>, p: string, c: int)
    requires forall i :: (Starts(a, p, i) <==> Starts(b, p, i)) && (Starts(a, p, i) ==> a[i] == b[i])
    requires LeastCounter(counters, a, p, c)
    ensures LeastCounter(counters, b, p, c)
  {
    forall v ensures BoundsAll(counters, a, p, v) <==> BoundsAll(counters, b, p, v) {
    }
  }
}

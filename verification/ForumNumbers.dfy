/** Backfilling project-scoped numbers of forum threads. */
module ForumNumbers {
  import opened Common

  /** A root thread has no parent; `number` is None when the field is missing or null. */
  datatype Post = Post(id: string, project: string, parent: Option<string>, number: Option<int>, isDeleted: bool)

  predicate IsRoot(p: Post, project: string) {
    p.project == project && p.parent.None?
  }

  predicate IsNumbered(p: Post) {
    p.number.Some? && p.number.value > 0
  }

  ghost predicate UniqueIds(posts: seq<Post>) {
    forall i, j :: 0 <= i < j < |posts| ==> posts[i].id != posts[j].id
  }

  // ---------------------------------------------------------------------
  // The numbers of the root threads
  // ---------------------------------------------------------------------

  /** Positive numbers that root threads already carry. */
  function Existing(posts: seq<Post>, project: string): set<int> {
    set p | p in posts && IsRoot(p, project) && IsNumbered(p) :: p.number.value
  }

  /** The numbers of the root threads among the first n posts, and the numbers in use
      by then: a positive number is kept, any other thread gets the smallest positive
      number not in use. */
  function AssignUpTo(posts: seq<Post>, project: string, n: nat): (map<string, int>, set<int>)
    requires n <= |posts|
  {
    if n == 0 then (map[], Existing(posts, project))
    else
      var (nums, used) := AssignUpTo(posts, project, n - 1);
      var p := posts[n - 1];
      if !IsRoot(p, project) then (nums, used)
      else if IsNumbered(p) then (nums[p.id := p.number.value], used)
      else
        var free := FirstFree(used, 1);
        (nums[p.id := free], used + {free})
  }

  function Numbers(posts: seq<Post>, project: string): map<string, int> {
    AssignUpTo(posts, project, |posts|).0
  }

  ghost predicate NoDuplicates(posts: seq<Post>, project: string) {
    forall i, j :: 0 <= i < j < |posts| && NumberedRoot(posts[i], project) && NumberedRoot(posts[j], project) ==>
      posts[i].number != posts[j].number
  }

  predicate NumberedRoot(p: Post, project: string) {
    IsRoot(p, project) && IsNumbered(p)
  }

  predicate NewRoot(p: Post, project: string) {
    IsRoot(p, project) && !IsNumbered(p)
  }

  /** The numbers in use when the i-th post is reached. */
  function UsedBefore(posts: seq<Post>, project: string, i: nat): set<int>
    requires i <= |posts|
  {
    AssignUpTo(posts, project, i).1
  }

  /** The number that the i-th post, a root thread, gets. */
  function NumberOf(posts: seq<Post>, project: string, i: nat): int
    requires i < |posts|
  {
    if IsNumbered(posts[i]) then posts[i].number.value else FirstFree(UsedBefore(posts, project, i), 1)
  }

  /** `nums` holds the numbers of the root threads among the first n posts. */
  ghost predicate NumbersUpTo(posts: seq<Post>, project: string, n: nat, nums: map<string, int>)
    requires n <= |posts|
  {
    && (forall i :: 0 <= i < n && IsRoot(posts[i], project) ==>
         posts[i].id in nums && nums[posts[i].id] == NumberOf(posts, project, i))
    && (forall id :: id in nums ==> exists i :: 0 <= i < n && IsRoot(posts[i], project) && posts[i].id == id)
  }

  lemma {:induction false} NumbersByPosition(posts: seq<Post>, project: string, n: nat)
    requires UniqueIds(posts) && n <= |posts|
    ensures NumbersUpTo(posts, project, n, AssignUpTo(posts, project, n).0)
  {
    if n == 0 {
    } else {
      hide AssignUpTo, NumbersUpTo;
      NumbersByPosition(posts, project, n - 1);
      OneMoreNumber(posts, project, n - 1);
      NextNumber(posts, project, n - 1, AssignUpTo(posts, project, n - 1).0);
    }
  }

  lemma NextNumber(posts: seq<Post>, project: string, i: nat, nums: map<string, int>)
    requires UniqueIds(posts) && i < |posts| && NumbersUpTo(posts, project, i, nums)
    ensures NumbersUpTo(posts, project, i + 1,
      if IsRoot(posts[i], project) then nums[posts[i].id := NumberOf(posts, project, i)] else nums)
  {
    hide NumberOf, IsRoot;
    assert forall j :: 0 <= j < i ==> posts[j].id != posts[i].id;
    forall id | id in nums ensures exists j :: 0 <= j < i + 1 && IsRoot(posts[j], project) && posts[j].id == id {
      var j :| 0 <= j < i && IsRoot(posts[j], project) && posts[j].id == id;
    }
  }

  lemma OneMoreNumber(posts: seq<Post>, project: string, i: nat)
    requires i < |posts|
    ensures AssignUpTo(posts, project, i + 1).0 ==
      if IsRoot(posts[i], project) then AssignUpTo(posts, project, i).0[posts[i].id := NumberOf(posts, project, i)]
      else AssignUpTo(posts, project, i).0
  {
  }

  lemma RootOf(posts: seq<Post>, project: string, id: string) returns (i: nat)
    requires UniqueIds(posts) && id in Numbers(posts, project)
    ensures i < |posts| && IsRoot(posts[i], project) && posts[i].id == id
    ensures Numbers(posts, project)[id] == NumberOf(posts, project, i)
  {
    NumbersByPosition(posts, project, |posts|);
    assert id in AssignUpTo(posts, project, |posts|).0;
    i :| 0 <= i < |posts| && IsRoot(posts[i], project) && posts[i].id == id;
  }

  /** `x` was given to a root thread without a number that comes before position i. */
  ghost predicate GivenBefore(posts: seq<Post>, project: string, i: nat, x: int)
    requires i <= |posts|
  {
    exists j :: 0 <= j < i && NewRoot(posts[j], project) && NumberOf(posts, project, j) == x
  }

  lemma {:induction false} UsedIsExistingOrGiven(posts: seq<Post>, project: string, n: nat, x: int)
    requires n <= |posts|
    ensures x in UsedBefore(posts, project, n) <==> x in Existing(posts, project) || GivenBefore(posts, project, n, x)
  {
    if n == 0 {
    } else {
      UsedIsExistingOrGiven(posts, project, n - 1, x);
      if NewRoot(posts[n - 1], project) && x == NumberOf(posts, project, n - 1) {
        assert GivenBefore(posts, project, n, x);
      }
    }
  }

  /** Old numbers stay. Each new number is the smallest positive one that is neither an
      old number nor given to an earlier thread. */
  lemma NumbersAreSmallestFree(posts: seq<Post>, project: string, i: nat)
    requires UniqueIds(posts) && i < |posts| && IsRoot(posts[i], project)
    ensures posts[i].id in Numbers(posts, project)
    ensures
      var n := Numbers(posts, project)[posts[i].id];
      if IsNumbered(posts[i]) then n == posts[i].number.value
      else
        && n > 0 && n !in Existing(posts, project) && !GivenBefore(posts, project, i, n)
        && forall m :: 0 < m < n ==> m in Existing(posts, project) || GivenBefore(posts, project, i, m)
  {
    NumbersByPosition(posts, project, |posts|);
    forall x
      ensures x in UsedBefore(posts, project, i) <==> x in Existing(posts, project) || GivenBefore(posts, project, i, x)
    {
      UsedIsExistingOrGiven(posts, project, i, x);
    }
  }

  /** All root threads end with different numbers if and only if no two started with
      the same one. */
  lemma NumbersDistinctIff(posts: seq<Post>, project: string)
    requires UniqueIds(posts)
    ensures
      var nums := Numbers(posts, project);
      NoDuplicates(posts, project) <==>
        forall a, b :: a in nums && b in nums && a != b ==> nums[a] != nums[b]
  {
    var nums := Numbers(posts, project);
    NumbersByPosition(posts, project, |posts|);
    if NoDuplicates(posts, project) {
      forall a, b | a in nums && b in nums && a != b ensures nums[a] != nums[b] {
        var i := RootOf(posts, project, a);
        var j := RootOf(posts, project, b);
        if i < j {
          DifferentNumbers(posts, project, i, j);
        } else {
          DifferentNumbers(posts, project, j, i);
        }
      }
    } else {
      var i, j :| 0 <= i < j < |posts| && NumberedRoot(posts[i], project) && NumberedRoot(posts[j], project)
        && posts[i].number == posts[j].number;
      assert nums[posts[i].id] == nums[posts[j].id] && posts[i].id != posts[j].id;
    }
  }

  lemma DifferentNumbers(posts: seq<Post>, project: string, i: nat, j: nat)
    requires UniqueIds(posts) && NoDuplicates(posts, project)
    requires i < j < |posts| && IsRoot(posts[i], project) && IsRoot(posts[j], project)
    ensures NumberOf(posts, project, i) != NumberOf(posts, project, j)
  {
    NumbersAreSmallestFree(posts, project, i);
    NumbersAreSmallestFree(posts, project, j);
    NumbersByPosition(posts, project, |posts|);
    assert IsNumbered(posts[i]) ==> posts[i].number.value in Existing(posts, project);
    assert IsNumbered(posts[j]) ==> posts[j].number.value in Existing(posts, project);
    if NewRoot(posts[i], project) && NewRoot(posts[j], project) {
      assert GivenBefore(posts, project, j, NumberOf(posts, project, i));
    }
  }

  // ---------------------------------------------------------------------
  // The posts and the counter after the backfill
  // ---------------------------------------------------------------------

  /** A post after its project has been backfilled: root threads and their direct
      replies carry the thread's number, everything else stays. */
  function Backfill(p: Post, project: string, nums: map<string, int>): Post {
    if p.project != project then p
    else if p.parent.None? then
      if p.id in nums then p.(number := Some(nums[p.id])) else p
    else
      if p.parent.value in nums then p.(number := Some(nums[p.parent.value])) else p
  }

  function BackfillProject(posts: seq<Post>, project: string): (r: seq<Post>)
    ensures |r| == |posts|
  {
    var nums := Numbers(posts, project);
    seq(|posts|, i requires 0 <= i < |posts| => Backfill(posts[i], project, nums))
  }

  ghost predicate SameRoots(a: seq<Post>, b: seq<Post>, project: string) {
    && |a| == |b|
    && forall i :: 0 <= i < |a| ==>
      (IsRoot(a[i], project) <==> IsRoot(b[i], project)) && (IsRoot(a[i], project) ==> a[i] == b[i])
  }

  /** The numbers of a project depend on its root threads only. */
  lemma {:induction false} NumbersAreLocal(a: seq<Post>, b: seq<Post>, project: string, n: nat)
    requires SameRoots(a, b, project) && n <= |a|
    ensures AssignUpTo(a, project, n) == AssignUpTo(b, project, n)
  {
    if n == 0 {
      forall p ensures p in a && NumberedRoot(p, project) <==> p in b && NumberedRoot(p, project) {
      }
      assert Existing(a, project) == Existing(b, project);
    } else {
      NumbersAreLocal(a, b, project, n - 1);
    }
  }

  lemma BackfilledIds(posts: seq<Post>, project: string)
    requires UniqueIds(posts)
    ensures UniqueIds(BackfillProject(posts, project))
  {
  }

  /** After the backfill every root thread has a positive number; one it had is kept. */
  lemma RootsAfter(posts: seq<Post>, project: string, i: nat)
    requires UniqueIds(posts) && i < |posts| && IsRoot(posts[i], project)
    ensures
      var after := BackfillProject(posts, project)[i];
      && NumberedRoot(after, project) && after.number == Some(NumberOf(posts, project, i)) && after.id == posts[i].id
      && (IsNumbered(posts[i]) ==> after == posts[i])
  {
    NumbersByPosition(posts, project, |posts|);
    NumbersAreSmallestFree(posts, project, i);
  }

  lemma SameNumbersAgain(posts: seq<Post>, project: string)
    requires UniqueIds(posts)
    ensures Numbers(BackfillProject(posts, project), project) == Numbers(posts, project)
  {
    var after := BackfillProject(posts, project);
    var nums, again := Numbers(posts, project), Numbers(after, project);
    BackfilledIds(posts, project);
    forall id | id in nums ensures id in again && again[id] == nums[id] {
      var i := RootOf(posts, project, id);
      RootsAfter(posts, project, i);
      NumbersAreSmallestFree(after, project, i);
    }
    forall id | id in again ensures id in nums {
      var i := RootOf(after, project, id);
      NumbersAreSmallestFree(posts, project, i);
    }
  }

  /** A second run changes nothing. */
  lemma BackfillTwice(posts: seq<Post>, project: string)
    requires UniqueIds(posts)
    ensures BackfillProject(BackfillProject(posts, project), project) == BackfillProject(posts, project)
  {
    SameNumbersAgain(posts, project);
  }

  /** Post r is a direct reply to the root thread at position i. */
  ghost predicate RepliesTo(posts: seq<Post>, project: string, r: int, i: int) {
    && 0 <= r < |posts| && 0 <= i < |posts| && IsRoot(posts[i], project)
    && posts[r].project == project && posts[r].parent == Some(posts[i].id)
  }

  /** After the backfill a direct reply carries its thread's number; a post that is
      neither a root thread of the project nor a direct reply to one is untouched. */
  lemma RepliesAfter(posts: seq<Post>, project: string, r: nat)
    requires UniqueIds(posts) && r < |posts|
    ensures forall i :: RepliesTo(posts, project, r, i) ==>
      BackfillProject(posts, project)[r] == posts[r].(number := BackfillProject(posts, project)[i].number)
    ensures !IsRoot(posts[r], project) && (forall i :: !RepliesTo(posts, project, r, i)) ==>
      BackfillProject(posts, project)[r] == posts[r]
  {
    NumbersByPosition(posts, project, |posts|);
    forall i | RepliesTo(posts, project, r, i)
      ensures BackfillProject(posts, project)[r] == posts[r].(number := BackfillProject(posts, project)[i].number)
    {
      RootsAfter(posts, project, i);
    }
    if posts[r].parent.Some? && posts[r].parent.value in Numbers(posts, project) {
      var i := RootOf(posts, project, posts[r].parent.value);
      assert posts[r].project == project ==> RepliesTo(posts, project, r, i);
    }
  }

  // ---------------------------------------------------------------------
  // The counter
  // ---------------------------------------------------------------------

  function Max(a: int, b: int): int {
    if a < b then b else a
  }

  /** The largest number of the first n posts' root threads, or 0. */
  function MaxNumber(posts: seq<Post>, project: string, n: nat): int
    requires n <= |posts|
  {
    if n == 0 then 0
    else
      var m := MaxNumber(posts, project, n - 1);
      if IsRoot(posts[n - 1], project) then Max(m, NumberOf(posts, project, n - 1)) else m
  }

  function CounterOf(counters: map<string, int>, project: string): int {
    if project in counters then counters[project] else 0
  }

  function NewCounter(posts: seq<Post>, counters: map<string, int>, project: string): int {
    Max(MaxNumber(posts, project, |posts|), CounterOf(counters, project))
  }

  /** The counter never decreases and is at least every root number after the run, so
      the next thread cannot reuse one. */
  lemma {:induction false} CounterCoversNumbers(posts: seq<Post>, counters: map<string, int>, project: string, i: nat)
    requires UniqueIds(posts) && i < |posts| && IsRoot(posts[i], project)
    ensures NewCounter(posts, counters, project) >= CounterOf(counters, project)
    ensures BackfillProject(posts, project)[i].number.Some?
    ensures NewCounter(posts, counters, project) >= BackfillProject(posts, project)[i].number.value
  {
    RootsAfter(posts, project, i);
    MaxNumberCovers(posts, project, i, |posts|);
  }

  lemma {:induction false} MaxNumberCovers(posts: seq<Post>, project: string, i: nat, n: nat)
    requires i < n <= |posts| && IsRoot(posts[i], project)
    ensures MaxNumber(posts, project, n) >= NumberOf(posts, project, i)
  {
    if i == n - 1 {
    } else {
      MaxNumberCovers(posts, project, i, n - 1);
    }
  }

  // ---------------------------------------------------------------------
  // What a run reports
  // ---------------------------------------------------------------------

  /** Root threads without a positive number. */
  function CountNewRoots(posts: seq<Post>, project: string, n: nat): nat
    requires n <= |posts|
  {
    if n == 0 then 0
    else CountNewRoots(posts, project, n - 1) + if NewRoot(posts[n - 1], project) then 1 else 0
  }

  /** The update filter of one thread: its direct replies with another number. */
  predicate StaleReply(p: Post, project: string, rootId: string, num: int) {
    p.project == project && p.parent == Some(rootId) && p.number != Some(num)
  }

  function CountStale(posts: seq<Post>, project: string, rootId: string, num: int, n: nat): nat
    requires n <= |posts|
  {
    if n == 0 then 0
    else
      CountStale(posts, project, rootId, num, n - 1)
        + if StaleReply(posts[n - 1], project, rootId, num) then 1 else 0
  }

  /** Stale replies to any of the threads in `done`. */
  function CountAllStale(posts: seq<Post>, project: string, nums: map<string, int>, done: set<string>, n: nat): nat
    requires n <= |posts| && done <= nums.Keys
  {
    if n == 0 then 0
    else
      var p := posts[n - 1];
      var stale :=
        p.parent.Some? && p.parent.value in done && StaleReply(p, project, p.parent.value, nums[p.parent.value]);
      CountAllStale(posts, project, nums, done, n - 1) + if stale then 1 else 0
  }

  predicate Orphan(p: Post, project: string, rootIds: set<string>) {
    p.project == project && p.parent.Some? && p.parent.value !in rootIds && !p.isDeleted
  }

  function CountOrphans(posts: seq<Post>, project: string, rootIds: set<string>, n: nat): nat
    requires n <= |posts|
  {
    if n == 0 then 0
    else CountOrphans(posts, project, rootIds, n - 1) + if Orphan(posts[n - 1], project, rootIds) then 1 else 0
  }

  datatype ProjectInfo = ProjectInfo(missing: nat, replies: nat, orphans: nat, counter: int)

  function InfoOf(posts: seq<Post>, counters: map<string, int>, project: string): ProjectInfo {
    var nums := Numbers(posts, project);
    ProjectInfo(CountNewRoots(posts, project, |posts|),
                CountAllStale(posts, project, nums, nums.Keys, |posts|),
                CountOrphans(posts, project, nums.Keys, |posts|),
                NewCounter(posts, counters, project))
  }

  /** The root threads, or the other posts, that differ. */
  function CountChanged(a: seq<Post>, b: seq<Post>, roots: bool, n: nat): nat
    requires n <= |a| && |a| == |b|
  {
    if n == 0 then 0
    else CountChanged(a, b, roots, n - 1) + if a[n - 1].parent.None? == roots && a[n - 1] != b[n - 1] then 1 else 0
  }

  predicate StaleInAny(p: Post, project: string, nums: map<string, int>) {
    p.parent.Some? && p.parent.value in nums && StaleReply(p, project, p.parent.value, nums[p.parent.value])
  }

  /** Executing changes a root thread of the project if it has no positive number, and
      any other post if it is a stale reply. */
  lemma ChangedPost(posts: seq<Post>, project: string, k: nat)
    requires UniqueIds(posts) && k < |posts|
    ensures BackfillProject(posts, project)[k] != posts[k] <==>
      if posts[k].parent.None? then NewRoot(posts[k], project)
      else StaleInAny(posts[k], project, Numbers(posts, project))
  {
    hide Numbers, UniqueIds;
    if IsRoot(posts[k], project) {
      RootsAfter(posts, project, k);
    }
  }

  /** The root count and the reply count that are reported, by a dry run too, are exactly
      the root threads and the other posts that executing changes. */
  lemma {:induction false} ReportedIsChanged(posts: seq<Post>, project: string, n: nat)
    requires UniqueIds(posts) && n <= |posts|
    ensures CountChanged(posts, BackfillProject(posts, project), true, n) == CountNewRoots(posts, project, n)
    ensures
      var nums := Numbers(posts, project);
      CountChanged(posts, BackfillProject(posts, project), false, n) ==
        CountAllStale(posts, project, nums, nums.Keys, n)
  {
    hide Numbers, BackfillProject, UniqueIds, IsNumbered, StaleReply;
    if n == 0 {
    } else {
      ReportedIsChanged(posts, project, n - 1);
      ChangedPost(posts, project, n - 1);
    }
  }

  lemma {:induction false} OneMoreThread(posts: seq<Post>, project: string, nums: map<string, int>, done: set<string>,
                                         id: string, n: nat)
    requires n <= |posts| && done <= nums.Keys && id in nums && id !in done
    ensures CountAllStale(posts, project, nums, done + {id}, n) ==
      CountAllStale(posts, project, nums, done, n) + CountStale(posts, project, id, nums[id], n)
  {
    if n == 0 {
    } else {
      OneMoreThread(posts, project, nums, done, id, n - 1);
    }
  }

  lemma {:induction false} SameStale(a: seq<Post>, b: seq<Post>, project: string, id: string, num: int, n: nat)
    requires |a| == |b| && n <= |a|
    requires forall k :: 0 <= k < |a| ==> (StaleReply(a[k], project, id, num) <==> StaleReply(b[k], project, id, num))
    ensures CountStale(a, project, id, num, n) == CountStale(b, project, id, num, n)
  {
    if n == 0 {
    } else {
      SameStale(a, b, project, id, num, n - 1);
    }
  }

  lemma {:induction false} NothingStale(posts: seq<Post>, project: string, nums: map<string, int>, n: nat)
    requires n <= |posts|
    ensures CountAllStale(posts, project, nums, {}, n) == 0
  {
    if n == 0 {
    } else {
      NothingStale(posts, project, nums, n - 1);
    }
  }

  // ---------------------------------------------------------------------
  // The migration itself
  // ---------------------------------------------------------------------

  datatype Error = DuplicateNumbers(project: string)

  /** Replies to the threads in `done` renumbered. */
  function RenumberReplies(p: Post, project: string, nums: map<string, int>, done: set<string>): Post
    requires done <= nums.Keys
  {
    if p.project == project && p.parent.Some? && p.parent.value in done
    then p.(number := Some(nums[p.parent.value])) else p
  }

  /** The forum posts, listed in the (created_at, _id) order of the migration's sort,
      and the counter documents by project. */
  class ForumStore {
    var posts: seq<Post>
    var counters: map<string, int>

    constructor (posts: seq<Post>, counters: map<string, int>)
      ensures this.posts == posts && this.counters == counters
    {
      this.posts, this.counters := posts, counters;
    }

    /** The positive numbers in use, and whether one occurs twice. */
    method CollectExisting(project: string) returns (used: set<int>, duplicate: bool)
      ensures used == Existing(posts, project)
      ensures duplicate <==> !NoDuplicates(posts, project)
    {
      used, duplicate := {}, false;
      for i := 0 to |posts|
        invariant forall x :: x in used <==>
          exists j :: 0 <= j < i && NumberedRoot(posts[j], project) && posts[j].number.value == x
        invariant duplicate <==> !NoDuplicates(posts[..i], project)
      {
        var p := posts[i];
        if NumberedRoot(p, project) {
          duplicate := duplicate || p.number.value in used;
          used := used + {p.number.value};
        }
      }
      assert posts[..|posts|] == posts;
      assert forall x :: x in used <==> x in Existing(posts, project);
    }

    /** The gap-filling loop. */
    method NumberRoots(project: string, existing: set<int>)
      returns (nums: map<string, int>, assignments: seq<(string, int)>, maxNumber: int)
      requires existing == Existing(posts, project)
      ensures nums == Numbers(posts, project)
      ensures assignments == NewNumbers(posts, project, |posts|)
      ensures maxNumber == MaxNumber(posts, project, |posts|)
    {
      nums, assignments, maxNumber := map[], [], 0;
      var used, next := existing, 1;
      for i := 0 to |posts|
        invariant (nums, used) == AssignUpTo(posts, project, i)
        invariant assignments == NewNumbers(posts, project, i)
        invariant maxNumber == MaxNumber(posts, project, i)
        invariant next >= 1 && forall x :: 1 <= x < next ==> x in used
      {
        var p := posts[i];
        if IsRoot(p, project) {
          var number;
          if IsNumbered(p) {
            number := p.number.value;
          } else {
            while next in used
              invariant next >= 1 && forall x :: 1 <= x < next ==> x in used
              decreases |AtLeast(used, next)|
            {
              AtLeastShrinks(used, next);
              next := next + 1;
            }
            number := next;
            assert number == FirstFree(used, 1);
            used := used + {number};
            assignments := assignments + [(p.id, number)];
            next := next + 1;
          }
          nums := nums[p.id := number];
          maxNumber := Max(maxNumber, number);
        }
      }
    }

    /** Count, or update and count, the stale direct replies of every thread. */
    method UpdateReplies(project: string, nums: map<string, int>, dryRun: bool) returns (count: nat)
      modifies this
      ensures count == CountAllStale(old(posts), project, nums, nums.Keys, |old(posts)|)
      ensures counters == old(counters) && |posts| == |old(posts)|
      ensures dryRun ==> posts == old(posts)
      ensures !dryRun ==> forall k :: 0 <= k < |posts| ==>
        posts[k] == RenumberReplies(old(posts)[k], project, nums, nums.Keys)
    {
      count := 0;
      var todo := nums.Keys;
      NothingStale(posts, project, nums, |posts|);
      assert nums.Keys - todo == {};
      while todo != {}
        invariant todo <= nums.Keys && counters == old(counters) && |posts| == |old(posts)|
        invariant count == CountAllStale(old(posts), project, nums, nums.Keys - todo, |old(posts)|)
        invariant dryRun ==> posts == old(posts)
        invariant !dryRun ==>
          forall k :: 0 <= k < |posts| ==> posts[k] == RenumberReplies(old(posts)[k], project, nums, nums.Keys - todo)
      {
        var id := Next(todo);
        ghost var done := nums.Keys - todo;
        SameStale(old(posts), posts, project, id, nums[id], |posts|);
        OneMoreThread(old(posts), project, nums, done, id, |posts|);
        count := count + CountStale(posts, project, id, nums[id], |posts|);
        if !dryRun {
          posts := seq(|posts|, k requires 0 <= k < |posts| reads this =>
            if StaleReply(posts[k], project, id, nums[id]) then posts[k].(number := Some(nums[id])) else posts[k]);
        }
        todo := todo - {id};
        assert nums.Keys - todo == done + {id};
      }
      assert nums.Keys - todo == nums.Keys;
    }

    /** Write the new numbers, one thread at a time, counting the modified ones. */
    method UpdateRoots(ghost posts0: seq<Post>, project: string, assignments: seq<(string, int)>)
      returns (modified: nat)
      requires UniqueIds(posts0) && SameIds(posts0, posts) && SameRoots(posts0, posts, project)
      requires assignments == NewNumbers(posts0, project, |posts0|)
      modifies this
      ensures modified == CountNewRoots(posts0, project, |posts0|)
      ensures counters == old(counters) && |posts| == |old(posts)|
      ensures forall k :: 0 <= k < |posts| ==> posts[k] == ApplyNumbers(old(posts)[k], assignments)
    {
      modified := 0;
      for m := 0 to |assignments|
        invariant counters == old(counters) && |posts| == |old(posts)|
        invariant forall k :: 0 <= k < |posts| ==> posts[k] == ApplyNumbers(old(posts)[k], assignments[..m])
        invariant modified == m
      {
        ghost var k := NewNumbersAt(posts0, project, |posts0|, m);
        NotAppliedYet(old(posts)[k], assignments[..m]);
        assert assignments[..m + 1][..m] == assignments[..m];
        var changed := UpdateOne(assignments[m].0, assignments[m].1);
        modified := modified + if changed then 1 else 0;
      }
      assert assignments[..|assignments|] == assignments;
      NewNumbersCount(posts0, project, |posts0|);
    }

    /** `update_one` by id; tells whether it modified anything. */
    method UpdateOne(id: string, number: int) returns (changed: bool)
      modifies this
      ensures counters == old(counters) && |posts| == |old(posts)|
      ensures forall j :: 0 <= j < |posts| ==> posts[j] == WithNumber(old(posts)[j], id, number)
      ensures forall j :: 0 <= j < |posts| && old(posts)[j].id == id && old(posts)[j].number != Some(number) ==> changed
    {
      changed := exists j :: 0 <= j < |posts| && posts[j].id == id && posts[j].number != Some(number);
      posts := seq(|posts|, j requires 0 <= j < |posts| reads this => WithNumber(posts[j], id, number));
    }

    /** One project: blocked by duplicates, reported by a dry run, or backfilled. */
    method BackfillOne(project: string, dryRun: bool) returns (r: Result<ProjectInfo, Error>)
      requires UniqueIds(posts)
      modifies this
      ensures r == Err(DuplicateNumbers(project)) <==> !dryRun && !NoDuplicates(old(posts), project)
      ensures r.Err? ==> r.error == DuplicateNumbers(project)
      ensures r.Ok? ==> r.value == InfoOf(old(posts), old(counters), project)
      ensures r.Err? || dryRun ==> posts == old(posts) && counters == old(counters)
      ensures r.Ok? && !dryRun ==>
        && posts == BackfillProject(old(posts), project)
        && counters == old(counters)[project := NewCounter(old(posts), old(counters), project)]
    {
      hide UniqueIds, NoDuplicates, Existing, Numbers, NewNumbers, MaxNumber, CountNewRoots, CountAllStale,
        CountOrphans, BackfillProject, RenumberReplies, ApplyNumbers, SameIds, SameRoots;
      var existing, duplicate := CollectExisting(project);
      if duplicate && !dryRun {
        return Err(DuplicateNumbers(project));
      }
      ghost var posts0 := posts;
      var nums, assignments, maxNumber := NumberRoots(project, existing);
      var replies := UpdateReplies(project, nums, dryRun);
      RepliesRenumbered(posts0, posts, project, nums);
      var orphans := CountOrphans(posts, project, nums.Keys, |posts|);
      var counter := Max(maxNumber, CounterOf(counters, project));
      NewNumbersCount(posts0, project, |posts0|);
      if !dryRun {
        ghost var replied := posts;
        var modified := UpdateRoots(posts0, project, assignments);
        RootsRenumbered(posts0, replied, posts, project);
        counters := counters[project := counter];
      }
      return Ok(ProjectInfo(|assignments|, replies, orphans, counter));
    }

    /** The posts and counters are those of a run that has finished the projects in `done`. */
    ghost predicate Finished(posts0: seq<Post>, counters0: map<string, int>, done: set<string>)
      reads this
    {
      posts == AfterProjects(posts0, done) && counters == AfterCounters(posts0, counters0, done)
    }

    method BackfillNext(ghost posts0: seq<Post>, ghost counters0: map<string, int>, ghost done: set<string>,
                        project: string, dryRun: bool)
      returns (r: Result<ProjectInfo, Error>)
      requires UniqueIds(posts0) && project !in done && Finished(posts0, counters0, if dryRun then {} else done)
      modifies this
      ensures r.Err? <==> !dryRun && !NoDuplicates(posts0, project)
      ensures r.Ok? ==> r.value == InfoOf(posts0, counters0, project)
      ensures r.Err? || dryRun ==> Finished(posts0, counters0, if dryRun then {} else done)
      ensures r.Ok? && !dryRun ==> Finished(posts0, counters0, done + {project})
    {
      OneMoreProject(posts0, counters0, if dryRun then {} else done, project);
      r := BackfillOne(project, dryRun);
    }

    /** The migration: every project with a root thread in turn. If a project has
        duplicate numbers, executing stops there; each project is by then either
        backfilled entirely or not touched at all. */
    method Migrate(dryRun: bool) returns (r: Result<map<string, ProjectInfo>, Error>)
      requires UniqueIds(posts)
      modifies this
      ensures dryRun ==> r.Ok? && posts == old(posts) && counters == old(counters)
      ensures !dryRun ==> (r.Ok? <==> forall p :: p in ProjectsOf(old(posts)) ==> NoDuplicates(old(posts), p))
      ensures r.Ok? ==> r.value == Infos(old(posts), old(counters), ProjectsOf(old(posts)))
      ensures r.Ok? && !dryRun ==> Finished(old(posts), old(counters), ProjectsOf(old(posts)))
      ensures r.Err? ==> exists done :: done <= ProjectsOf(old(posts)) && Finished(old(posts), old(counters), done)
    {
      hide UniqueIds, NoDuplicates, InfoOf, ProjectsOf, Infos, AfterProjects, AfterCounters;
      ghost var posts0, counters0, projects := posts, counters, ProjectsOf(posts);
      var infos: map<string, ProjectInfo> := map[];
      var todo := ProjectsOf(posts);
      NoProjectsYet(posts, counters);
      assert projects - todo == {};
      while todo != {}
        invariant todo <= projects
        invariant infos == Infos(posts0, counters0, projects - todo)
        invariant Finished(posts0, counters0, if dryRun then {} else projects - todo)
        invariant !dryRun ==> forall p :: p in projects - todo ==> NoDuplicates(posts0, p)
      {
        var project := Next(todo);
        ghost var done := projects - todo;
        var outcome := BackfillNext(posts0, counters0, done, project, dryRun);
        if outcome.Err? {
          return Err(outcome.error);
        }
        infos := infos[project := outcome.value];
        OneMoreInfo(posts0, counters0, done, project);
        todo := todo - {project};
        assert projects - todo == done + {project};
      }
      assert projects - todo == projects;
      return Ok(infos);
    }
  }

  /** Renumbering replies leaves ids, root threads and orphans as they were. */
  lemma RepliesRenumbered(a: seq<Post>, b: seq<Post>, project: string, nums: map<string, int>)
    requires |a| == |b|
    requires a == b || forall k :: 0 <= k < |a| ==> b[k] == RenumberReplies(a[k], project, nums, nums.Keys)
    ensures SameIds(a, b) && SameRoots(a, b, project)
    ensures CountOrphans(a, project, nums.Keys, |a|) == CountOrphans(b, project, nums.Keys, |b|)
  {
    SameOrphans(a, b, project, nums.Keys, |a|);
  }

  /** Renumbered replies and then renumbered root threads: the backfilled project. */
  lemma RootsRenumbered(posts: seq<Post>, replied: seq<Post>, after: seq<Post>, project: string)
    requires UniqueIds(posts) && |posts| == |replied| == |after|
    requires forall k :: 0 <= k < |posts| ==>
      replied[k] == RenumberReplies(posts[k], project, Numbers(posts, project), Numbers(posts, project).Keys)
    requires forall k :: 0 <= k < |posts| ==> after[k] == ApplyNumbers(replied[k], NewNumbers(posts, project, |posts|))
    ensures after == BackfillProject(posts, project)
  {
    hide Numbers, NewNumbers, ApplyNumbers, NumberOf;
    forall k | 0 <= k < |posts| ensures after[k] == BackfillProject(posts, project)[k] {
      AppliedNumbers(posts, project, |posts|, k, replied[k]);
      if IsRoot(posts[k], project) {
        RootsAfter(posts, project, k);
      }
    }
  }

  ghost function Infos(posts: seq<Post>, counters: map<string, int>, projects: set<string>): map<string, ProjectInfo> {
    map p | p in projects :: InfoOf(posts, counters, p)
  }

  lemma OneMoreInfo(posts: seq<Post>, counters: map<string, int>, done: set<string>, project: string)
    ensures Infos(posts, counters, done + {project}) ==
      Infos(posts, counters, done)[project := InfoOf(posts, counters, project)]
  {
    hide InfoOf;
  }

  ghost predicate SameIds(a: seq<Post>, b: seq<Post>) {
    |a| == |b| && forall k :: 0 <= k < |a| ==> a[k].id == b[k].id
  }

  /** The (id, number) pairs for the root threads without a number, in order. */
  function NewNumbers(posts: seq<Post>, project: string, n: nat): seq<(string, int)>
    requires n <= |posts|
  {
    if n == 0 then [] else NewNumbers(posts, project, n - 1) + NewNumber(posts, project, n - 1)
  }

  function NewNumber(posts: seq<Post>, project: string, i: nat): seq<(string, int)>
    requires i < |posts|
  {
    if NewRoot(posts[i], project) then [(posts[i].id, NumberOf(posts, project, i))] else []
  }

  lemma {:induction false} NewNumbersCount(posts: seq<Post>, project: string, n: nat)
    requires n <= |posts|
    ensures |NewNumbers(posts, project, n)| == CountNewRoots(posts, project, n)
  {
    if n == 0 {
    } else {
      NewNumbersCount(posts, project, n - 1);
    }
  }

  /** The thread behind the m-th assignment, which no earlier assignment names. */
  lemma {:induction false} NewNumbersAt(posts: seq<Post>, project: string, n: nat, m: nat) returns (k: nat)
    requires UniqueIds(posts) && n <= |posts| && m < |NewNumbers(posts, project, n)|
    ensures k < n && NewRoot(posts[k], project)
    ensures NewNumbers(posts, project, n)[m] == (posts[k].id, NumberOf(posts, project, k))
    ensures forall l :: 0 <= l < m ==> NewNumbers(posts, project, n)[l].0 != posts[k].id
    ensures NumberOf(posts, project, k) > 0
  {
    var before := NewNumbers(posts, project, n - 1);
    if m < |before| {
      k := NewNumbersAt(posts, project, n - 1, m);
    } else {
      k := n - 1;
      forall l | 0 <= l < m ensures before[l].0 != posts[k].id {
        var j := NewNumbersAt(posts, project, n - 1, l);
        assert posts[j].id != posts[k].id;
      }
    }
  }

  /** One post after a list of updates by id. */
  function ApplyNumbers(p: Post, assignments: seq<(string, int)>): Post {
    if assignments == [] then p
    else
      var last := assignments[|assignments| - 1];
      var q := ApplyNumbers(p, assignments[..|assignments| - 1]);
      WithNumber(q, last.0, last.1)
  }

  function WithNumber(p: Post, id: string, number: int): Post {
    if p.id == id then p.(number := Some(number)) else p
  }

  lemma {:induction false} NotAppliedYet(p: Post, assignments: seq<(string, int)>)
    requires forall l :: 0 <= l < |assignments| ==> assignments[l].0 != p.id
    ensures ApplyNumbers(p, assignments) == p
  {
    if assignments == [] {
    } else {
      NotAppliedYet(p, assignments[..|assignments| - 1]);
    }
  }

  lemma {:induction false} AppliedNumbers(posts: seq<Post>, project: string, n: nat, k: nat, p: Post)
    requires UniqueIds(posts) && n <= |posts| && k < |posts| && p.id == posts[k].id
    ensures ApplyNumbers(p, NewNumbers(posts, project, n)) ==
      if k < n && NewRoot(posts[k], project) then p.(number := Some(NumberOf(posts, project, k))) else p
  {
    hide NumberOf, NewRoot, ApplyNumbers, UniqueIds;
    if n == 0 {
      NotAppliedYet(p, []);
    } else {
      AppliedNumbers(posts, project, n - 1, k, p);
      var before := NewNumbers(posts, project, n - 1);
      DifferentIds(posts, k, n - 1);
      if NewRoot(posts[n - 1], project) {
        ApplyOneMore(p, before, posts[n - 1].id, NumberOf(posts, project, n - 1));
      } else {
        assert NewNumbers(posts, project, n) == before + [] == before;
      }
    }
  }

  lemma ApplyOneMore(p: Post, assignments: seq<(string, int)>, id: string, number: int)
    ensures ApplyNumbers(p, assignments + [(id, number)]) == WithNumber(ApplyNumbers(p, assignments), id, number)
  {
    assert (assignments + [(id, number)])[..|assignments|] == assignments;
  }

  lemma DifferentIds(posts: seq<Post>, i: nat, j: nat)
    requires UniqueIds(posts) && i < |posts| && j < |posts|
    ensures i != j ==> posts[i].id != posts[j].id
  {
  }

  lemma {:induction false} SameOrphans(a: seq<Post>, b: seq<Post>, project: string, rootIds: set<string>, n: nat)
    requires |a| == |b| && n <= |a|
    requires forall k :: 0 <= k < |a| ==> (Orphan(a[k], project, rootIds) <==> Orphan(b[k], project, rootIds))
    ensures CountOrphans(a, project, rootIds, n) == CountOrphans(b, project, rootIds, n)
  {
    if n == 0 {
    } else {
      SameOrphans(a, b, project, rootIds, n - 1);
    }
  }

  // ---------------------------------------------------------------------
  // Projects do not disturb each other
  // ---------------------------------------------------------------------

  function ProjectsOf(posts: seq<Post>): set<string> {
    set p | p in posts && p.parent.None? && p.project != "" :: p.project
  }

  /** The posts when the projects in `done` have been backfilled. */
  function AfterProjects(posts: seq<Post>, done: set<string>): (r: seq<Post>)
    ensures |r| == |posts|
  {
    seq(|posts|, i requires 0 <= i < |posts| =>
      if posts[i].project in done then Backfill(posts[i], posts[i].project, Numbers(posts, posts[i].project))
      else posts[i])
  }

  function AfterCounters(posts: seq<Post>, counters: map<string, int>, done: set<string>): map<string, int> {
    map p | p in counters.Keys + done :: if p in done then NewCounter(posts, counters, p) else counters[p]
  }

  lemma NoProjectsYet(posts: seq<Post>, counters: map<string, int>)
    ensures AfterProjects(posts, {}) == posts && AfterCounters(posts, counters, {}) == counters
    ensures Infos(posts, counters, {}) == map[]
  {
  }

  /** The two lists contain the same posts of the project, at the same places. */
  ghost predicate AgreeOn(a: seq<Post>, b: seq<Post>, project: string) {
    && |a| == |b|
    && forall i :: 0 <= i < |a| ==>
         a[i].id == b[i].id && a[i].project == b[i].project && (a[i].project == project ==> a[i] == b[i])
  }

  lemma {:induction false} CountsAreLocal(a: seq<Post>, b: seq<Post>, project: string, nums: map<string, int>, n: nat)
    requires AgreeOn(a, b, project) && n <= |a|
    requires forall k :: 0 <= k <= |a| ==> AssignUpTo(a, project, k) == AssignUpTo(b, project, k)
    ensures CountNewRoots(a, project, n) == CountNewRoots(b, project, n)
    ensures CountAllStale(a, project, nums, nums.Keys, n) == CountAllStale(b, project, nums, nums.Keys, n)
    ensures CountOrphans(a, project, nums.Keys, n) == CountOrphans(b, project, nums.Keys, n)
    ensures MaxNumber(a, project, n) == MaxNumber(b, project, n)
  {
    if n == 0 {
    } else {
      CountsAreLocal(a, b, project, nums, n - 1);
      assert AssignUpTo(a, project, n - 1) == AssignUpTo(b, project, n - 1);
    }
  }

  lemma ProjectIsLocal(a: seq<Post>, b: seq<Post>, ca: map<string, int>, cb: map<string, int>, project: string)
    requires AgreeOn(a, b, project) && CounterOf(ca, project) == CounterOf(cb, project)
    ensures Numbers(a, project) == Numbers(b, project)
    ensures InfoOf(a, ca, project) == InfoOf(b, cb, project)
    ensures NewCounter(a, ca, project) == NewCounter(b, cb, project)
    ensures NoDuplicates(a, project) <==> NoDuplicates(b, project)
  {
    forall k | 0 <= k <= |a| ensures AssignUpTo(a, project, k) == AssignUpTo(b, project, k) {
      NumbersAreLocal(a, b, project, k);
    }
    CountsAreLocal(a, b, project, Numbers(a, project), |a|);
  }

  lemma OneMoreProject(posts: seq<Post>, counters: map<string, int>, done: set<string>, project: string)
    requires UniqueIds(posts) && project !in done
    ensures
      var posts', counters' := AfterProjects(posts, done), AfterCounters(posts, counters, done);
      && UniqueIds(posts')
      && (NoDuplicates(posts', project) <==> NoDuplicates(posts, project))
      && InfoOf(posts', counters', project) == InfoOf(posts, counters, project)
      && BackfillProject(posts', project) == AfterProjects(posts, done + {project})
      && counters'[project := NewCounter(posts', counters', project)] ==
           AfterCounters(posts, counters, done + {project})
  {
    hide Numbers, InfoOf, NoDuplicates, NewCounter;
    var posts', counters' := AfterProjects(posts, done), AfterCounters(posts, counters, done);
    ProjectIsLocal(posts, posts', counters, counters', project);
  }

  /** Running the whole migration again changes no post and no counter. */
  lemma MigrateTwice(posts: seq<Post>, counters: map<string, int>, i: nat)
    requires UniqueIds(posts) && i < |posts|
    ensures
      var projects := ProjectsOf(posts);
      var posts', counters' := AfterProjects(posts, projects), AfterCounters(posts, counters, projects);
      && ProjectsOf(posts') == projects
      && AfterProjects(posts', projects)[i] == posts'[i]
      && AfterCounters(posts', counters', projects) == counters'
  {
    hide Numbers, NewCounter, ProjectsOf, UniqueIds;
    var projects := ProjectsOf(posts);
    var posts', counters' := AfterProjects(posts, projects), AfterCounters(posts, counters, projects);
    SameProjects(posts, posts');
    forall p | p in projects
      ensures Numbers(posts', p) == Numbers(posts, p) && NewCounter(posts', counters', p) == counters'[p]
    {
      AgainSameProject(posts, counters, projects, p);
    }
  }

  lemma SameProjects(a: seq<Post>, b: seq<Post>)
    requires |a| == |b| && forall k :: 0 <= k < |a| ==> a[k].project == b[k].project && a[k].parent == b[k].parent
    ensures ProjectsOf(a) == ProjectsOf(b)
  {
    forall p ensures p in ProjectsOf(a) <==> p in ProjectsOf(b) {
      if p in ProjectsOf(a) {
        var k :| 0 <= k < |a| && a[k].parent.None? && a[k].project == p && p != "";
        assert b[k] in b;
      }
      if p in ProjectsOf(b) {
        var k :| 0 <= k < |b| && b[k].parent.None? && b[k].project == p && p != "";
        assert a[k] in a;
      }
    }
  }

  lemma AgainSameProject(posts: seq<Post>, counters: map<string, int>, projects: set<string>, p: string)
    requires UniqueIds(posts) && p in projects
    ensures
      var posts', counters' := AfterProjects(posts, projects), AfterCounters(posts, counters, projects);
      Numbers(posts', p) == Numbers(posts, p) && NewCounter(posts', counters', p) == counters'[p]
  {
    var posts', counters' := AfterProjects(posts, projects), AfterCounters(posts, counters, projects);
    var alone := BackfillProject(posts, p);
    assert AgreeOn(alone, posts', p);
    ProjectIsLocal(alone, posts', counters', counters', p);
    SameNumbersAgain(posts, p);
    BackfilledIds(posts, p);
    SameMax(posts, p, |posts|);
  }

  lemma {:induction false} SameMax(posts: seq<Post>, p: string, n: nat)
    requires UniqueIds(posts) && n <= |posts|
    ensures MaxNumber(BackfillProject(posts, p), p, n) == MaxNumber(posts, p, n)
  {
    if n == 0 {
    } else {
      SameMax(posts, p, n - 1);
      if IsRoot(posts[n - 1], p) {
        RootsAfter(posts, p, n - 1);
      }
    }
  }
}

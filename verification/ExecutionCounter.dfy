/** Execution indices from one shared counter document per key. */
module ExecutionCounter {
  import opened Common

  /** The unique index of the collection. */
  datatype Key = Key(projectId: string, date: string, username: string, chipId: string)

  type Store = map<Key, int>

  const MAX_RETRIES := 5

  /** Where a caller stands; `attempt` counts from 0. `Failed` is the RuntimeError. */
  datatype Stage =
    | Finding(attempt: nat)
    | Inserting(attempt: nat)
    | Incrementing(attempt: nat)
    | Done(index: int)
    | Failed

  /** Callers have numbers; caller c asks for an index of key keys[c]. */
  datatype State = State(store: Store, stages: seq<Stage>)

  function Retry(attempt: nat): Stage {
    if attempt + 1 < MAX_RETRIES then Finding(attempt + 1) else Failed
  }

  /** The next database operation of one caller: find, insert under the unique
      index, or find-and-increment, each atomic. */
  function CallerStep(store: Store, key: Key, stage: Stage): (Store, Stage) {
    match stage
    case Finding(n) =>
      (store, if key in store then Incrementing(n) else Inserting(n))
    case Inserting(n) =>
      if key in store then (store, Retry(n)) else (store[key := 0], Done(0))
    case Incrementing(n) =>
      if key in store then (store[key := store[key] + 1], Done(store[key] + 1)) else (store, Retry(n))
    case Done(_) => (store, stage)
    case Failed => (store, stage)
  }

  function Step(keys: seq<Key>, s: State, c: nat): State
    requires |s.stages| == |keys| && c < |keys|
  {
    var (store, stage) := CallerStep(s.store, keys[c], s.stages[c]);
    State(store, s.stages[c := stage])
  }

  /** A schedule names the caller that moves next; any sequence is possible. */
  predicate IsSchedule(keys: seq<Key>, schedule: seq<nat>) {
    forall i :: 0 <= i < |schedule| ==> schedule[i] < |keys|
  }

  function Run(keys: seq<Key>, s: State, schedule: seq<nat>): (r: State)
    requires |s.stages| == |keys| && IsSchedule(keys, schedule)
    ensures |r.stages| == |keys|
  {
    if schedule == [] then s
    else Step(keys, Run(keys, s, schedule[..|schedule| - 1]), schedule[|schedule| - 1])
  }

  function Start(keys: seq<Key>, store: Store): (s: State)
    ensures |s.stages| == |keys|
  {
    State(store, seq(|keys|, _ => Finding(0)))
  }

  // ---------------------------------------------------------------------
  // What every step keeps
  // ---------------------------------------------------------------------

  /** The first index that is still free for a key. */
  function FirstIndex(store: Store, key: Key): int {
    if key in store then store[key] + 1 else 0
  }

  ghost predicate Returned(keys: seq<Key>, s: State, c: int, key: Key, index: int) {
    0 <= c < |keys| && c < |s.stages| && keys[c] == key && s.stages[c] == Done(index)
  }

  /** Some caller of `key` has been given `index`. */
  ghost predicate Taken(keys: seq<Key>, s: State, key: Key, index: int) {
    exists c :: Returned(keys, s, c, key, index)
  }

  /** No index goes to two callers of one key. */
  ghost predicate Unique(keys: seq<Key>, s: State) {
    forall a, b, key, index :: Returned(keys, s, a, key, index) && Returned(keys, s, b, key, index) ==> a == b
  }

  /** The indices given out are the interval from the first free one to the counter. */
  ghost predicate GapFree(keys: seq<Key>, store0: Store, s: State) {
    && (forall key :: FirstIndex(store0, key) <= FirstIndex(s.store, key))
    && (forall key, index :: Taken(keys, s, key, index) <==>
          FirstIndex(store0, key) <= index < FirstIndex(s.store, key))
  }

  /** A second attempt, and an increment, happen only once the document exists. */
  ghost predicate StagesSound(keys: seq<Key>, s: State) {
    && |s.stages| == |keys|
    && forall c :: 0 <= c < |keys| ==>
      match s.stages[c]
      case Finding(n) => n == 0 || (n == 1 && keys[c] in s.store)
      case Inserting(n) => n == 0
      case Incrementing(n) => n <= 1 && keys[c] in s.store
      case Done(_) => keys[c] in s.store
      case Failed => false
  }

  ghost predicate Inv(keys: seq<Key>, store0: Store, s: State) {
    StagesSound(keys, s) && Unique(keys, s) && GapFree(keys, store0, s)
  }

  lemma StepKeepsInv(keys: seq<Key>, store0: Store, s: State, c: nat)
    requires Inv(keys, store0, s) && c < |keys|
    ensures Inv(keys, store0, Step(keys, s, c))
  {
    var t := Step(keys, s, c);
    if s.stages[c].Done? {
      assert t.stages == s.stages;
    } else {
      assert t.stages[c].Done? ==> t.stages[c].index == FirstIndex(s.store, keys[c]);
      StepReturns(keys, s, c);
      forall key, index
        ensures Taken(keys, t, key, index) <==> FirstIndex(store0, key) <= index < FirstIndex(t.store, key)
      {
        assert Taken(keys, s, key, index) <==> FirstIndex(store0, key) <= index < FirstIndex(s.store, key);
        assert FirstIndex(store0, key) <= FirstIndex(s.store, key);
      }
      forall a, b, key, index | Returned(keys, t, a, key, index) && Returned(keys, t, b, key, index)
        ensures a == b
      {
        if Returned(keys, s, a, key, index) || Returned(keys, s, b, key, index) {
          assert Taken(keys, s, key, index);
        }
      }
    }
  }

  /** A step of a caller that is not done either gives out nothing or gives the next
      free index of its key to that caller. */
  lemma StepReturns(keys: seq<Key>, s: State, c: nat)
    requires |s.stages| == |keys| && c < |keys| && !s.stages[c].Done?
    ensures
      var t := Step(keys, s, c);
      && (forall d, key, index :: Returned(keys, t, d, key, index) <==>
            Returned(keys, s, d, key, index) || (d == c && key == keys[c] && t.stages[c] == Done(index)))
      && (forall key, index :: Taken(keys, t, key, index) <==>
            Taken(keys, s, key, index) || (key == keys[c] && t.stages[c] == Done(index)))
      && (forall key :: FirstIndex(t.store, key) ==
            if key == keys[c] && t.stages[c].Done? then FirstIndex(s.store, key) + 1 else FirstIndex(s.store, key))
  {
    var t := Step(keys, s, c);
    forall d, key, index
      ensures Returned(keys, t, d, key, index) <==>
        Returned(keys, s, d, key, index) || (d == c && key == keys[c] && t.stages[c] == Done(index))
    {
    }
    forall key, index
      ensures Taken(keys, t, key, index) <==>
        Taken(keys, s, key, index) || (key == keys[c] && t.stages[c] == Done(index))
    {
      if Taken(keys, s, key, index) {
        var d :| Returned(keys, s, d, key, index);
        assert Returned(keys, t, d, key, index);
      }
      if key == keys[c] && t.stages[c] == Done(index) {
        assert Returned(keys, t, c, key, index);
      }
    }
  }

  lemma {:induction false} RunKeepsInv(keys: seq<Key>, store0: Store, schedule: seq<nat>)
    requires IsSchedule(keys, schedule)
    ensures Inv(keys, store0, Run(keys, Start(keys, store0), schedule))
  {
    if schedule == [] {
      assert forall key, index :: !Taken(keys, Start(keys, store0), key, index);
    } else {
      RunKeepsInv(keys, store0, schedule[..|schedule| - 1]);
      StepKeepsInv(keys, store0, Run(keys, Start(keys, store0), schedule[..|schedule| - 1]), schedule[|schedule| - 1]);
    }
  }

  /** In every interleaving: no index is given out twice, the indices given out for a
      key are exactly those from the first free one up to the stored counter, and
      nobody ever runs out of retries. */
  lemma IndicesDistinctAndGapFree(keys: seq<Key>, store0: Store, schedule: seq<nat>)
    requires IsSchedule(keys, schedule)
    ensures
      var s := Run(keys, Start(keys, store0), schedule);
      && Unique(keys, s)
      && (forall key, index :: Taken(keys, s, key, index) <==>
           FirstIndex(store0, key) <= index < FirstIndex(s.store, key))
      && Failed !in s.stages
  {
    RunKeepsInv(keys, store0, schedule);
  }

  /** Not used up before the run: above the stored counter, or from 0 on if there was none. */
  predicate Fresh(store0: Store, key: Key, i: int) {
    if key in store0 then store0[key] < i else 0 <= i
  }

  /** The same read in the numbers: callers of one key get different indices; each is fresh and not above the counter
      stored now; and every fresh number up to that counter has been given out. */
  lemma IndicesInNumbers(keys: seq<Key>, store0: Store, schedule: seq<nat>)
    requires IsSchedule(keys, schedule)
    ensures
      var s := Run(keys, Start(keys, store0), schedule);
      && (forall a, b :: 0 <= a < b < |keys| && keys[a] == keys[b] && s.stages[a].Done? && s.stages[b].Done? ==>
            s.stages[a].index != s.stages[b].index)
      && (forall c :: 0 <= c < |keys| && s.stages[c].Done? ==>
            && keys[c] in s.store && s.stages[c].index <= s.store[keys[c]]
            && Fresh(store0, keys[c], s.stages[c].index))
      && (forall key, i :: key in s.store && i <= s.store[key] && Fresh(store0, key, i) ==>
            exists c :: 0 <= c < |keys| && keys[c] == key && s.stages[c] == Done(i))
  {
    hide Run;
    RunKeepsInv(keys, store0, schedule);
    var s := Run(keys, Start(keys, store0), schedule);
    forall c | 0 <= c < |keys| && s.stages[c].Done?
      ensures keys[c] in s.store && s.stages[c].index <= s.store[keys[c]] && Fresh(store0, keys[c], s.stages[c].index)
    {
      assert Returned(keys, s, c, keys[c], s.stages[c].index);
      assert Taken(keys, s, keys[c], s.stages[c].index);
    }
    forall a, b | 0 <= a < b < |keys| && keys[a] == keys[b] && s.stages[a].Done? && s.stages[b].Done?
      ensures s.stages[a].index != s.stages[b].index
    {
      assert Returned(keys, s, a, keys[a], s.stages[a].index);
      assert Returned(keys, s, b, keys[b], s.stages[b].index);
    }
    forall key, i | key in s.store && i <= s.store[key] && Fresh(store0, key, i)
      ensures exists c :: 0 <= c < |keys| && keys[c] == key && s.stages[c] == Done(i)
    {
      assert Taken(keys, s, key, i);
    }
  }

  // ---------------------------------------------------------------------
  // Progress and order
  // ---------------------------------------------------------------------

  function Steps(schedule: seq<nat>, c: nat): nat {
    if schedule == [] then 0
    else Steps(schedule[..|schedule| - 1], c) + if schedule[|schedule| - 1] == c then 1 else 0
  }

  /** How many steps of its own a caller may still need. */
  function Remaining(stage: Stage): nat {
    match stage
    case Finding(n) => if n == 0 then 4 else 2
    case Inserting(_) => 3
    case Incrementing(_) => 1
    case Done(_) => 0
    case Failed => 0
  }

  /** Whatever the others do, a caller that has moved four times is done; on the way
      it begins at most a second attempt. */
  lemma {:induction false} FourStepsSuffice(keys: seq<Key>, store0: Store, schedule: seq<nat>, c: nat)
    requires IsSchedule(keys, schedule) && c < |keys|
    ensures
      var stage := Run(keys, Start(keys, store0), schedule).stages[c];
      && Remaining(stage) + Steps(schedule, c) <= (if stage.Done? then Steps(schedule, c) else 4)
      && (Steps(schedule, c) >= 4 ==> stage.Done?)
      && (stage.Finding? || stage.Inserting? || stage.Incrementing? ==> stage.attempt <= 1)
  {
    RunKeepsInv(keys, store0, schedule);
    if schedule == [] {
    } else {
      var earlier := schedule[..|schedule| - 1];
      FourStepsSuffice(keys, store0, earlier, c);
      RunKeepsInv(keys, store0, earlier);
    }
  }

  /** Caller b has no index below `low`, and gets none. */
  predicate Above(keys: seq<Key>, s: State, b: nat, low: int)
    requires |s.stages| == |keys| && b < |keys|
  {
    low <= FirstIndex(s.store, keys[b]) && (s.stages[b].Done? ==> low <= s.stages[b].index)
  }

  lemma StepStaysAbove(keys: seq<Key>, s: State, c: nat, b: nat, low: int)
    requires |s.stages| == |keys| && c < |keys| && b < |keys| && Above(keys, s, b, low)
    ensures Above(keys, Step(keys, s, c), b, low)
  {
  }

  lemma {:induction false} RunStaysAbove(keys: seq<Key>, store0: Store, before: seq<nat>, after: seq<nat>, b: nat,
                                         low: int)
    requires IsSchedule(keys, before) && IsSchedule(keys, before + after) && b < |keys|
    requires Above(keys, Run(keys, Start(keys, store0), before), b, low)
    ensures Above(keys, Run(keys, Start(keys, store0), before + after), b, low)
  {
    hide Step, Above, Start;
    if after == [] {
      assert before + after == before;
    } else {
      var earlier := after[..|after| - 1];
      var whole := before + after;
      assert whole[..|whole| - 1] == before + earlier;
      RunStaysAbove(keys, store0, before, earlier, b, low);
      StepStaysAbove(keys, Run(keys, Start(keys, store0), before + earlier), whole[|whole| - 1], b, low);
    }
  }

  /** A caller that starts after another one has its index gets a larger index. */
  lemma LaterCallerGetsLargerIndex(keys: seq<Key>, store0: Store, before: seq<nat>, after: seq<nat>, a: nat, b: nat)
    requires IsSchedule(keys, before) && IsSchedule(keys, before + after) && a < |keys| && b < |keys|
    requires keys[a] == keys[b] && b !in before
    ensures
      var s, t := Run(keys, Start(keys, store0), before), Run(keys, Start(keys, store0), before + after);
      && FirstIndex(s.store, keys[b]) <= FirstIndex(t.store, keys[b])
      && (t.stages[b].Done? ==> t.stages[b].index >= FirstIndex(s.store, keys[b]))
      && (s.stages[a].Done? && t.stages[b].Done? ==> s.stages[a].index < t.stages[b].index)
  {
    hide Run, Start, Step;
    RunKeepsInv(keys, store0, before);
    var s := Run(keys, Start(keys, store0), before);
    if s.stages[a].Done? {
      assert Returned(keys, s, a, keys[a], s.stages[a].index);
      assert Taken(keys, s, keys[a], s.stages[a].index);
    }
    NotMovedYet(keys, store0, before, b);
    RunStaysAbove(keys, store0, before, after, b, FirstIndex(s.store, keys[b]));
  }

  lemma {:induction false} NotMovedYet(keys: seq<Key>, store0: Store, schedule: seq<nat>, c: nat)
    requires IsSchedule(keys, schedule) && c < |keys| && c !in schedule
    ensures Run(keys, Start(keys, store0), schedule).stages[c] == Finding(0)
  {
    if schedule == [] {
    } else {
      NotMovedYet(keys, store0, schedule[..|schedule| - 1], c);
    }
  }

  // ---------------------------------------------------------------------
  // The retry loop of one caller
  // ---------------------------------------------------------------------

  datatype Error = OutOfRetries

  class CounterCollection {
    var docs: Store

    constructor ()
      ensures docs == map[]
    {
      docs := map[];
    }

    /** Insert under the unique index; false stands for DuplicateKeyError. */
    method InsertOne(key: Key) returns (ok: bool)
      modifies this
      ensures ok == (key !in old(docs))
      ensures docs == if ok then old(docs)[key := 0] else old(docs)
    {
      ok := key !in docs;
      if ok {
        docs := docs[key := 0];
      }
    }

    method FindOneAndIncrement(key: Key) returns (result: Option<int>)
      modifies this
      ensures result.Some? <==> key in old(docs)
      ensures result.Some? ==> result.value == old(docs)[key] + 1
      ensures docs == if result.Some? then old(docs)[key := result.value] else old(docs)
    {
      if key !in docs {
        return None;
      }
      docs := docs[key := docs[key] + 1];
      return Some(docs[key]);
    }

    /** The loop with nobody interfering: two steps of the caller's state machine. */
    method GetNextIndex(key: Key) returns (r: Result<int, Error>)
      modifies this
      ensures
        var after := Run([key], Start([key], old(docs)), [0, 0]);
        docs == after.store && r.Ok? && after.stages == [Done(r.value)]
      ensures r == Ok(FirstIndex(old(docs), key))
      ensures docs == old(docs)[key := FirstIndex(old(docs), key)]
    {
      SoloRun(key, docs);
      for attempt := 0 to MAX_RETRIES
        invariant attempt == 0 && docs == old(docs)
      {
        if key !in docs {
          var ok := InsertOne(key);
          if ok {
            return Ok(0);
          }
        } else {
          var result := FindOneAndIncrement(key);
          if result.Some? {
            return Ok(result.value);
          }
        }
      }
      return Err(OutOfRetries);
    }
  }

  lemma SoloRun(key: Key, store: Store)
    ensures
      var after := Run([key], Start([key], store), [0, 0]);
      && after.store == store[key := FirstIndex(store, key)]
      && after.stages == [Done(FirstIndex(store, key))]
  {
    var s0 := Start([key], store);
    assert s0.stages == [Finding(0)];
    assert [0][..0] == [] && [0, 0][..1] == [0];
    assert Run([key], s0, []) == s0;
    var s1 := Run([key], s0, [0]);
    assert s1 == Step([key], s0, 0);
    assert Run([key], s0, [0, 0]) == Step([key], s1, 0);
  }
}

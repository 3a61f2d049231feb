/** What parallel merging leaves behind, counted and read in the note itself. */
module NoteOutcome {
  import opened Common
  import opened Json
  import opened CalibrationNote

  // ---------------------------------------------------------------------
  // Which workers get through
  // ---------------------------------------------------------------------

  /** Some write of the merge goes below a parameter that holds something other than a dictionary. */
  ghost predicate Blocked(base: Note, w: Writes) {
    exists path :: path in w && path.0 in base && base[path.0].Leaf?
  }

  lemma RefusedIfBlocked(base: Note, w: Writes)
    ensures CanSet(base, w) <==> !Blocked(base, w)
  {
  }

  /** A worker completes its whole program if no merge in it is blocked by the base note; otherwise it stops at the
      first one that is. */
  lemma WorkerOutcome(job: Job, doc0: Option<Document>, schedule: seq<nat>, i: nat)
    requires DisjointPaths(job.programs) && IsSchedule(job, schedule) && i < |job.programs|
    requires Finished(job.programs[i], Run(job, doc0, schedule).stages[i])
    ensures
      var base := if doc0.Some? then doc0.value.note else job.initial;
      var program, stage := job.programs[i], Run(job, doc0, schedule).stages[i];
      if forall k :: 0 <= k < |program| ==> !Blocked(base, program[k]) then stage == Merging(|program|, 0)
      else
        && stage.Rejected? && stage.next < |program| && Blocked(base, program[stage.next])
        && forall k :: 0 <= k < stage.next ==> !Blocked(base, program[k])
  {
    hide Run, Overlay, DocumentIsRight, Blocked, CanSet;
    RunKeepsInv(job, doc0, schedule);
    var s, base, program := Run(job, doc0, schedule), BaseNote(job, doc0), job.programs[i];
    assert StageSound(base, program, s.stages[i], s.doc.Some?);
    forall k | 0 <= k < |program| ensures CanSet(base, program[k]) <==> !Blocked(base, program[k]) {
      RefusedIfBlocked(base, program[k]);
    }
  }

  // ---------------------------------------------------------------------
  // What the note holds
  // ---------------------------------------------------------------------

  /** Worker i has carried out its k-th merge. */
  ghost predicate HasMerged(s: State, i: int, k: int) {
    0 <= i < |s.stages| && (s.stages[i].Merging? || s.stages[i].Rejected?) && 0 <= k < s.stages[i].next
  }

  ghost predicate MergedUpTo(s: State, i: int, n: nat) {
    forall k :: HasMerged(s, i, k) <==> 0 <= k < n
  }

  lemma MergedSoFar(job: Job, doc0: Option<Document>, schedule: seq<nat>, i: nat)
    requires DisjointPaths(job.programs) && IsSchedule(job, schedule) && i < |job.programs|
    ensures
      var s := Run(job, doc0, schedule);
      MergedUpTo(s, i, MergesDone(s.stages[i], job.programs[i]))
  {
    hide Run, Overlay, DocumentIsRight;
    RunKeepsInv(job, doc0, schedule);
    var s := Run(job, doc0, schedule);
    assert StageSound(BaseNote(job, doc0), job.programs[i], s.stages[i], s.doc.Some?);
  }

  /** The last merge that writes a path decides. */
  lemma {:induction false} FoldAt(merges: seq<Writes>, k: nat, path: Path)
    requires k < |merges| && path in merges[k] && forall l :: k < l < |merges| ==> path !in merges[l]
    ensures path in Fold(merges) && Fold(merges)[path] == merges[k][path]
    decreases |merges|
  {
    if k == |merges| - 1 {
    } else {
      FoldAt(merges[..|merges| - 1], k, path);
    }
  }

  lemma {:induction false} FoldWithout(merges: seq<Writes>, path: Path)
    requires forall l :: 0 <= l < |merges| ==> path !in merges[l]
    ensures path !in Fold(merges)
  {
    if merges == [] {
    } else {
      FoldWithout(merges[..|merges| - 1], path);
    }
  }

  /** At any moment of any interleaving the note holds, below its parameter, what the worker that owns a path wrote
      there last. */
  lemma LastWriteIsThere(job: Job, doc0: Option<Document>, schedule: seq<nat>, i: nat, k: nat, path: Path)
    requires DisjointPaths(job.programs) && IsSchedule(job, schedule) && i < |job.programs| && k < |job.programs[i]|
    requires HasMerged(Run(job, doc0, schedule), i, k) && path in job.programs[i][k]
    requires forall l :: k < l < |job.programs[i]| && HasMerged(Run(job, doc0, schedule), i, l) ==>
      path !in job.programs[i][l]
    ensures
      var s := Run(job, doc0, schedule);
      && s.doc.Some? && path.0 in s.doc.value.note && s.doc.value.note[path.0].Obj?
      && path.1 in s.doc.value.note[path.0].fields
      && s.doc.value.note[path.0].fields[path.1] == job.programs[i][k][path]
  {
    hide Run, HasMerged, DisjointPaths;
    var s, program := Run(job, doc0, schedule), job.programs[i];
    var n := MergesDone(s.stages[i], program);
    MergedSoFar(job, doc0, schedule, i);
    FoldAt(program[..n], k, path);
    assert Writer(program, path);
    WrittenPathsSurvive(job, doc0, schedule, i, path);
  }

  lemma {:induction false} UnwrittenSoFar(job: Job, s: State, path: Path, n: nat)
    requires |s.stages| == |job.programs| && n <= |job.programs|
    requires forall i, k :: 0 <= i < n && 0 <= k < MergesDone(s.stages[i], job.programs[i]) ==>
      path !in job.programs[i][k]
    ensures path !in AllWrites(job.programs, s.stages, n)
  {
    if n == 0 {
    } else {
      UnwrittenSoFar(job, s, path, n - 1);
      FoldWithout(job.programs[n - 1][..MergesDone(s.stages[n - 1], job.programs[n - 1])], path);
    }
  }

  /** A field that nobody has written yet is as in the base note, and a parameter that is not a dictionary there is
      never touched. */
  lemma RestIsUntouched(job: Job, doc0: Option<Document>, schedule: seq<nat>, p: string, q: string)
    requires DisjointPaths(job.programs) && IsSchedule(job, schedule)
    requires Run(job, doc0, schedule).doc.Some?
    requires forall i, k ::
      0 <= i < |job.programs| && 0 <= k < |job.programs[i]| && HasMerged(Run(job, doc0, schedule), i, k) ==>
        (p, q) !in job.programs[i][k]
    ensures
      var base, note := if doc0.Some? then doc0.value.note else job.initial, Run(job, doc0, schedule).doc.value.note;
      && (p in base && base[p].Leaf? ==> p in note && note[p] == base[p])
      && (p in note && note[p].Obj? && q in note[p].fields <==> p in base && base[p].Obj? && q in base[p].fields)
      && (p in note && note[p].Obj? && q in note[p].fields ==> note[p].fields[q] == base[p].fields[q])
  {
    hide Run, HasMerged, Column;
    RunKeepsInv(job, doc0, schedule);
    var s, base := Run(job, doc0, schedule), BaseNote(job, doc0);
    forall i, k | 0 <= i < |job.programs| && 0 <= k < MergesDone(s.stages[i], job.programs[i])
      ensures (p, q) !in job.programs[i][k]
    {
      MergedSoFar(job, doc0, schedule, i);
      assert MergedUpTo(s, i, MergesDone(s.stages[i], job.programs[i]));
    }
    UnwrittenSoFar(job, s, (p, q), |job.programs|);
    UnwrittenField(base, AllWrites(job.programs, s.stages, |s.stages|), p, q);
  }

  lemma UnwrittenField(base: Note, w: Writes, p: string, q: string)
    requires (p, q) !in w
    ensures
      var note := Overlay(base, w);
      && (p in base && base[p].Leaf? ==> p in note && note[p] == base[p])
      && (p in note && note[p].Obj? && q in note[p].fields <==> p in base && base[p].Obj? && q in base[p].fields)
      && (p in note && note[p].Obj? && q in note[p].fields ==> note[p].fields[q] == base[p].fields[q])
  {
  }

  // ---------------------------------------------------------------------
  // What the version counts
  // ---------------------------------------------------------------------

  ghost function MergesAt(program: seq<Writes>, n: nat): set<int> {
    set k | 0 <= k < n && k < |program| && program[k] != map[]
  }

  lemma {:induction false} NonemptyIsCount(program: seq<Writes>, n: nat)
    requires n <= |program|
    ensures Nonempty(program[..n]) == |MergesAt(program, n)|
  {
    if n == 0 {
    } else {
      hide MergesAt, Nonempty;
      NonemptyIsCount(program, n - 1);
      NonemptyNext(program, n - 1);
      MergesNext(program, n - 1);
    }
  }

  lemma MergesNext(program: seq<Writes>, k: nat)
    requires k < |program|
    ensures |MergesAt(program, k + 1)| == |MergesAt(program, k)| + if program[k] != map[] then 1 else 0
  {
    assert MergesAt(program, k + 1) == MergesAt(program, k) + if program[k] != map[] then {k} else {};
  }

  /** Worker and merge of every non-empty merge carried out by one of the first n workers. */
  ghost function Counted(programs: seq<seq<Writes>>, stages: seq<Stage>, n: nat): set<(int, int)>
    requires n <= |programs| && |stages| == |programs|
  {
    set i, k | 0 <= i < n && k in MergesAt(programs[i], MergesDone(stages[i], programs[i])) :: (i, k)
  }

  lemma {:induction false} SuccessesAreCounted(programs: seq<seq<Writes>>, stages: seq<Stage>, n: nat)
    requires n <= |programs| && |stages| == |programs|
    requires forall i :: 0 <= i < n ==> !stages[i].Creating? && !stages[i].CreateInserting?
    ensures AllSuccesses(programs, stages, n) == n + |Counted(programs, stages, n)|
  {
    if n == 0 {
      assert Counted(programs, stages, 0) == {};
    } else {
      hide MergesAt, Counted, Nonempty;
      SuccessesAreCounted(programs, stages, n - 1);
      NonemptyIsCount(programs[n - 1], MergesDone(stages[n - 1], programs[n - 1]));
      CountedNext(programs, stages, n - 1);
    }
  }

  lemma CountedNext(programs: seq<seq<Writes>>, stages: seq<Stage>, i: nat)
    requires i < |programs| && |stages| == |programs|
    ensures |Counted(programs, stages, i + 1)|
         == |Counted(programs, stages, i)| + |MergesAt(programs[i], MergesDone(stages[i], programs[i]))|
  {
    hide MergesAt;
    var own := MergesAt(programs[i], MergesDone(stages[i], programs[i]));
    PairsWith(i, own);
    assert Counted(programs, stages, i + 1) == Counted(programs, stages, i) + set k | k in own :: (i, k);
  }

  lemma SomeElement<T>(s: set<T>) returns (x: T)
    requires s != {}
    ensures x in s
  {
    x :| x in s;
  }

  lemma {:induction false} PairsWith(i: int, s: set<int>)
    ensures |set k | k in s :: (i, k)| == |s|
    decreases |s|
  {
    if s == {} {
    } else {
      var x := SomeElement(s);
      PairsWith(i, s - {x});
      assert (set k | k in s :: (i, k)) == (set k | k in s - {x} :: (i, k)) + {(i, x)};
    }
  }

  /** When every worker has finished, the version has grown by one for each worker, which created or met the note, and
      by one for each non-empty merge that was carried out. */
  lemma VersionCounts(job: Job, doc0: Option<Document>, schedule: seq<nat>)
    requires DisjointPaths(job.programs) && IsSchedule(job, schedule) && job.programs != []
    requires forall i :: 0 <= i < |job.programs| ==> Finished(job.programs[i], Run(job, doc0, schedule).stages[i])
    ensures
      var s := Run(job, doc0, schedule);
      && s.doc.Some?
      && s.doc.value.version == (if doc0.Some? then doc0.value.version else 0) + |job.programs|
         + |set i, k | 0 <= i < |job.programs| && 0 <= k < |job.programs[i]| && HasMerged(s, i, k)
                       && job.programs[i][k] != map[] :: (i, k)|
  {
    hide Run, Overlay, HasMerged, AllSuccesses, AllWrites;
    RunKeepsInv(job, doc0, schedule);
    var s := Run(job, doc0, schedule);
    forall i | 0 <= i < |s.stages| ensures !s.stages[i].Creating? && !s.stages[i].CreateInserting? {
      assert Finished(job.programs[i], s.stages[i]);
    }
    assert !s.stages[0].Creating? && !s.stages[0].CreateInserting?;
    assert s.doc.Some?;
    SuccessesAreCounted(job.programs, s.stages, |s.stages|);
    CountedIsMerged(job, doc0, schedule);
  }

  lemma CountedIsMerged(job: Job, doc0: Option<Document>, schedule: seq<nat>)
    requires DisjointPaths(job.programs) && IsSchedule(job, schedule)
    ensures
      var s := Run(job, doc0, schedule);
      Counted(job.programs, s.stages, |s.stages|)
        == set i, k | 0 <= i < |job.programs| && 0 <= k < |job.programs[i]| && HasMerged(s, i, k)
                      && job.programs[i][k] != map[] :: (i, k)
  {
    hide Run, HasMerged, DisjointPaths;
    var s := Run(job, doc0, schedule);
    forall i | 0 <= i < |job.programs| ensures MergedUpTo(s, i, MergesDone(s.stages[i], job.programs[i])) {
      MergedSoFar(job, doc0, schedule, i);
    }
  }
}

/** Parallel workers merging their results into one master calibration note. */
module CalibrationNote {
  import opened Common
  import opened Json

  /** (parameter type, qubit label): the two dot-free parts of "note.<param>.<qubit>". */
  type Path = (string, string)
  type Note = map<string, Json>
  type Writes = map<Path, Json>

  datatype Document = Document(note: Note, version: int)

  const MAX_RETRIES := 3

  // ---------------------------------------------------------------------
  // $set on dotted paths
  // ---------------------------------------------------------------------

  ghost predicate IsUpdateOp(calib: Note, p: string, q: string) {
    p in calib && calib[p].Obj? && q in calib[p].fields
  }

  /** The `update_ops` of a worker's note: one path per qubit of every dictionary. */
  ghost predicate UpdateOps(calib: Note, ops: Writes) {
    forall p, q :: ((p, q) in ops <==> IsUpdateOp(calib, p, q)) && ((p, q) in ops ==> ops[(p, q)] == calib[p].fields[q])
  }

  method BuildUpdateOps(calib: Note) returns (ops: Writes)
    ensures UpdateOps(calib, ops)
    ensures forall p, q :: (p, q) in ops <==> p in calib && calib[p].Obj? && q in calib[p].fields
    ensures forall p, q :: (p, q) in ops ==> ops[(p, q)] == calib[p].fields[q]
  {
    ops := map[];
    var params := calib.Keys;
    while params != {}
      invariant params <= calib.Keys
      invariant UpdateOps(map p | p in calib && p !in params :: calib[p], ops)
    {
      var p := Next(params);
      params := params - {p};
      if calib[p].Obj? {
        ops := AddQubits(ops, p, calib[p].fields);
      }
    }
    assert (map p | p in calib && p !in params :: calib[p]) == calib;
  }

  method AddQubits(ops0: Writes, p: string, fields: map<string, Json>) returns (ops: Writes)
    ensures forall r, q :: (r, q) in ops <==> (r, q) in ops0 || (r == p && q in fields)
    ensures forall r, q :: (r, q) in ops ==> ops[(r, q)] == if r == p && q in fields then fields[q] else ops0[(r, q)]
  {
    ops := ops0;
    var qubits := fields.Keys;
    while qubits != {}
      invariant qubits <= fields.Keys
      invariant forall r, q :: (r, q) in ops <==> (r, q) in ops0 || (r == p && q in fields && q !in qubits)
      invariant forall r, q :: (r, q) in ops ==>
        ops[(r, q)] == if r == p && q in fields && q !in qubits then fields[q] else ops0[(r, q)]
    {
      var q := Next(qubits);
      qubits := qubits - {q};
      ops := ops[(p, q) := fields[q]];
    }
  }

  /** MongoDB refuses to create a field inside something that is not an object. */
  predicate CanSet(note: Note, w: Writes) {
    forall path :: path in w && path.0 in note ==> note[path.0].Obj?
  }

  function Params(w: Writes): set<string> {
    set path | path in w :: path.0
  }

  function FieldsAt(note: Note, p: string): map<string, Json> {
    if p in note && note[p].Obj? then note[p].fields else map[]
  }

  /** The writes below one parameter. */
  function Column(w: Writes, p: string): (c: map<string, Json>)
    ensures forall q :: q in c <==> (p, q) in w
    ensures forall q :: q in c ==> c[q] == w[(p, q)]
  {
    var qubits := set path | path in w && path.0 == p :: path.1;
    assert forall q :: (p, q) in w ==> (p, q).1 in qubits;
    map q | q in qubits :: w[(p, q)]
  }

  lemma ColumnOfUnion(v: Writes, w: Writes, p: string)
    ensures Column(v + w, p) == Column(v, p) + Column(w, p)
  {
    forall q ensures q in Column(v + w, p) <==> q in Column(v, p) + Column(w, p) {
    }
  }

  /** The note with every path of `w` set; missing parameters become objects. */
  function Overlay(note: Note, w: Writes): Note {
    map p | p in note.Keys + Params(w) ::
      if p in note && note[p].Leaf? then note[p] else Obj(FieldsAt(note, p) + Column(w, p))
  }

  function Read(note: Note, path: Path): Option<Json> {
    if path.1 in FieldsAt(note, path.0) then Some(FieldsAt(note, path.0)[path.1]) else None
  }

  lemma OverlayNothing(note: Note)
    ensures Overlay(note, map[]) == note
  {
    forall p | p in note ensures Overlay(note, map[])[p] == note[p] {
      assert Column(map[], p) == map[];
      assert FieldsAt(note, p) + map[] == FieldsAt(note, p);
    }
  }

  lemma OverlayKeys(note: Note, v: Writes, w: Writes)
    ensures Overlay(note, v).Keys == note.Keys + Params(v)
    ensures Params(v + w) == Params(v) + Params(w)
  {
  }

  /** Overlays accumulate, later writes winning. */
  lemma OverlayTwice(note: Note, v: Writes, w: Writes)
    ensures Overlay(Overlay(note, v), w) == Overlay(note, v + w)
  {
    hide Overlay, Params;
    var x, y := Overlay(Overlay(note, v), w), Overlay(note, v + w);
    OverlayKeys(note, v, w);
    OverlayKeys(note, v + w, map[]);
    OverlayKeys(Overlay(note, v), w, map[]);
    assert x.Keys == y.Keys;
    forall p | p in y.Keys ensures x[p] == y[p] {
      OverlayTwiceAt(note, v, w, p);
    }
  }

  lemma OverlayTwiceAt(note: Note, v: Writes, w: Writes, p: string)
    requires p in note.Keys + Params(v) + Params(w)
    ensures p in Overlay(Overlay(note, v), w) && p in Overlay(note, v + w)
    ensures Overlay(Overlay(note, v), w)[p] == Overlay(note, v + w)[p]
  {
    OverlayKeys(note, v, w);
    ColumnOfUnion(v, w, p);
    if !(p in note && note[p].Leaf?) {
      FieldsOfOverlay(note, v, p);
      UnionAssociates(FieldsAt(note, p), Column(v, p), Column(w, p));
    }
  }

  lemma UnionAssociates<K, V>(a: map<K, V>, b: map<K, V>, c: map<K, V>)
    ensures (a + b) + c == a + (b + c)
  {
  }

  lemma FieldsOfOverlay(note: Note, v: Writes, p: string)
    requires !(p in note && note[p].Leaf?)
    ensures FieldsAt(Overlay(note, v), p) == FieldsAt(note, p) + Column(v, p)
  {
    if p !in note && p !in Params(v) {
      assert Column(v, p) == map[];
    }
  }

  /** Setting paths never changes which parameters can be written to. */
  lemma OverlayKeepsCanSet(note: Note, v: Writes, w: Writes)
    ensures CanSet(Overlay(note, v), w) <==> CanSet(note, w)
  {
  }

  /** Reading back: the written value where there is one, the old value elsewhere. */
  lemma ReadOverlay(note: Note, w: Writes, path: Path)
    requires CanSet(note, w)
    ensures Read(Overlay(note, w), path) == if path in w then Some(w[path]) else Read(note, path)
  {
    if path in w {
      assert path.1 in Column(w, path.0);
    }
  }

  // ---------------------------------------------------------------------
  // Workers sharing one document
  // ---------------------------------------------------------------------

  /** Where a worker stands. Every worker first creates the note if it is absent
      (`upsert_on_insert`), then performs its merges in order. An upsert that finds no
      document inserts one in a second step, which fails if another worker was faster.
      `Rejected` is the write error of a path below a non-object, `Failed` the
      DuplicateKeyError re-raised after the last attempt. */
  datatype Stage =
    | Creating(attempt: nat)
    | CreateInserting(attempt: nat)
    | Merging(next: nat, attempt: nat)
    | MergeInserting(next: nat, attempt: nat)
    | Rejected(next: nat)
    | Failed

  /** All workers start from the same initial note; worker i then merges programs[i]. */
  datatype Job = Job(initial: Note, programs: seq<seq<Writes>>)

  datatype State = State(doc: Option<Document>, stages: seq<Stage>)

  function Bump(doc: Document, note: Note): Document {
    Document(note, doc.version + 1)
  }

  function WorkerStep(doc: Option<Document>, initial: Note, program: seq<Writes>, stage: Stage)
    : (Option<Document>, Stage)
  {
    match stage
    case Creating(n) =>
      if doc.Some? then (Some(Bump(doc.value, doc.value.note)), Merging(0, 0)) else (doc, CreateInserting(n))
    case CreateInserting(n) =>
      if doc.None? then (Some(Document(initial, 1)), Merging(0, 0))
      else (doc, if n + 1 < MAX_RETRIES then Creating(n + 1) else Failed)
    case Merging(k, n) =>
      if k >= |program| then (doc, stage)
      else if program[k] == map[] then (doc, Merging(k + 1, 0))
      else if doc.None? then (doc, MergeInserting(k, n))
      else if CanSet(doc.value.note, program[k]) then
        (Some(Bump(doc.value, Overlay(doc.value.note, program[k]))), Merging(k + 1, 0))
      else (doc, Rejected(k))
    case MergeInserting(k, n) =>
      if doc.None? && k < |program| then (Some(Document(Overlay(map[], program[k]), 1)), Merging(k + 1, 0))
      else (doc, if n + 1 < MAX_RETRIES then Merging(k, n + 1) else Failed)
    case Rejected(_) => (doc, stage)
    case Failed => (doc, stage)
  }

  function Step(job: Job, s: State, i: nat): (t: State)
    requires |s.stages| == |job.programs| && i < |job.programs|
    ensures |t.stages| == |job.programs|
  {
    var (doc, stage) := WorkerStep(s.doc, job.initial, job.programs[i], s.stages[i]);
    State(doc, s.stages[i := stage])
  }

  predicate IsSchedule(job: Job, schedule: seq<nat>) {
    forall k :: 0 <= k < |schedule| ==> schedule[k] < |job.programs|
  }

  function Start(job: Job, doc: Option<Document>): (s: State)
    ensures |s.stages| == |job.programs|
  {
    State(doc, seq(|job.programs|, _ => Creating(0)))
  }

  function Run(job: Job, doc: Option<Document>, schedule: seq<nat>): (s: State)
    requires IsSchedule(job, schedule)
    ensures |s.stages| == |job.programs|
  {
    if schedule == [] then Start(job, doc)
    else Step(job, Run(job, doc, schedule[..|schedule| - 1]), schedule[|schedule| - 1])
  }

  // ---------------------------------------------------------------------
  // What has been written so far
  // ---------------------------------------------------------------------

  /** The writes of a run of merges, later ones winning. */
  function Fold(merges: seq<Writes>): Writes {
    if merges == [] then map[] else Fold(merges[..|merges| - 1]) + merges[|merges| - 1]
  }

  function Nonempty(merges: seq<Writes>): nat {
    if merges == [] then 0
    else Nonempty(merges[..|merges| - 1]) + if merges[|merges| - 1] != map[] then 1 else 0
  }

  /** How many merges a worker has behind it. */
  function MergesDone(stage: Stage, program: seq<Writes>): (k: nat)
    ensures k <= |program|
  {
    match stage
    case Merging(k, _) => if k <= |program| then k else 0
    case MergeInserting(k, _) => if k <= |program| then k else 0
    case Rejected(k) => if k <= |program| then k else 0
    case _ => 0
  }

  function WritesOf(program: seq<Writes>, stage: Stage): Writes {
    Fold(program[..MergesDone(stage, program)])
  }

  /** Successful writes of one worker: creating the note and each non-empty merge. */
  function Successes(program: seq<Writes>, stage: Stage): nat {
    (if stage.Creating? || stage.CreateInserting? then 0 else 1) + Nonempty(program[..MergesDone(stage, program)])
  }

  /** All writes of the first n workers. */
  function AllWrites(programs: seq<seq<Writes>>, stages: seq<Stage>, n: nat): Writes
    requires n <= |programs| && |stages| == |programs|
  {
    if n == 0 then map[] else AllWrites(programs, stages, n - 1) + WritesOf(programs[n - 1], stages[n - 1])
  }

  function AllSuccesses(programs: seq<seq<Writes>>, stages: seq<Stage>, n: nat): nat
    requires n <= |programs| && |stages| == |programs|
  {
    if n == 0 then 0 else AllSuccesses(programs, stages, n - 1) + Successes(programs[n - 1], stages[n - 1])
  }

  ghost predicate Writer(program: seq<Writes>, path: Path) {
    exists k :: 0 <= k < |program| && path in program[k]
  }

  /** No two workers write the same path. */
  ghost predicate DisjointPaths(programs: seq<seq<Writes>>) {
    forall i, j, path :: 0 <= i < |programs| && 0 <= j < |programs| && i != j ==>
      !(Writer(programs[i], path) && Writer(programs[j], path))
  }

  lemma {:induction false} FoldStaysInProgram(program: seq<Writes>, k: nat, path: Path)
    requires k <= |program| && path in Fold(program[..k])
    ensures Writer(program, path)
  {
    if k == 0 {
    } else {
      assert program[..k][..k - 1] == program[..k - 1];
      if path in Fold(program[..k - 1]) {
        FoldStaysInProgram(program, k - 1, path);
      }
    }
  }

  /** When worker i completes one more merge, the union of all writes grows by it. */
  lemma {:induction false} OneMoreMerge(programs: seq<seq<Writes>>, stages: seq<Stage>, i: nat, stage: Stage, n: nat)
    requires DisjointPaths(programs) && |stages| == |programs| && i < n <= |programs|
    requires MergesDone(stages[i], programs[i]) < |programs[i]|
    requires MergesDone(stage, programs[i]) == MergesDone(stages[i], programs[i]) + 1
    ensures AllWrites(programs, stages[i := stage], n) ==
      AllWrites(programs, stages, n) + programs[i][MergesDone(stages[i], programs[i])]
  {
    var k := MergesDone(stages[i], programs[i]);
    var w := programs[i][k];
    if n - 1 == i {
      SameWrites(programs, stages, i, stage, n - 1);
      assert programs[i][..k + 1][..k] == programs[i][..k];
      UnionAssociates(AllWrites(programs, stages, n - 1), Fold(programs[i][..k]), w);
    } else {
      OneMoreMerge(programs, stages, i, stage, n - 1);
      var last := WritesOf(programs[n - 1], stages[n - 1]);
      forall path | path in w && path in last ensures false {
        assert Writer(programs[i], path);
        FoldStaysInProgram(programs[n - 1], MergesDone(stages[n - 1], programs[n - 1]), path);
      }
      DisjointUnionsCommute(AllWrites(programs, stages, n - 1), w, last);
    }
  }

  lemma DisjointUnionsCommute<K, V>(a: map<K, V>, b: map<K, V>, c: map<K, V>)
    requires b.Keys !! c.Keys
    ensures (a + b) + c == (a + c) + b
  {
  }

  lemma {:induction false} SameWrites(programs: seq<seq<Writes>>, stages: seq<Stage>, i: nat, stage: Stage, n: nat)
    requires |stages| == |programs| && i < |programs| && n <= |programs|
    requires i >= n || MergesDone(stage, programs[i]) == MergesDone(stages[i], programs[i])
    ensures AllWrites(programs, stages[i := stage], n) == AllWrites(programs, stages, n)
  {
    if n == 0 {
    } else {
      SameWrites(programs, stages, i, stage, n - 1);
    }
  }

  lemma {:induction false} SuccessesChange(programs: seq<seq<Writes>>, stages: seq<Stage>, i: nat, stage: Stage, n: nat)
    requires |stages| == |programs| && i < |programs| && n <= |programs|
    ensures AllSuccesses(programs, stages[i := stage], n) - AllSuccesses(programs, stages, n) ==
      if i < n then Successes(programs[i], stage) - Successes(programs[i], stages[i]) else 0
  {
    if n == 0 {
    } else {
      SuccessesChange(programs, stages, i, stage, n - 1);
    }
  }

  // ---------------------------------------------------------------------
  // The invariant of every interleaving
  // ---------------------------------------------------------------------

  function BaseNote(job: Job, doc0: Option<Document>): Note {
    if doc0.Some? then doc0.value.note else job.initial
  }

  function BaseVersion(doc0: Option<Document>): int {
    if doc0.Some? then doc0.value.version else 0
  }

  ghost predicate StageSound(base: Note, program: seq<Writes>, stage: Stage, exists_: bool) {
    match stage
    case Creating(n) => n == 0 || (n == 1 && exists_)
    case CreateInserting(n) => n == 0
    case Merging(k, n) => n == 0 && exists_ && k <= |program| && forall j :: 0 <= j < k ==> CanSet(base, program[j])
    case MergeInserting(_, _) => false
    case Rejected(k) =>
      && exists_ && k < |program| && !CanSet(base, program[k])
      && forall j :: 0 <= j < k ==> CanSet(base, program[j])
    case Failed => false
  }

  /** The note is the base note overlaid with everything written so far, and the
      version has counted every successful write. */
  ghost predicate Inv(job: Job, doc0: Option<Document>, s: State) {
    && |s.stages| == |job.programs|
    && (forall i :: 0 <= i < |s.stages| ==> StageSound(BaseNote(job, doc0), job.programs[i], s.stages[i], s.doc.Some?))
    && (s.doc.None? ==>
         doc0.None? && forall i :: 0 <= i < |s.stages| ==> s.stages[i].Creating? || s.stages[i].CreateInserting?)
    && (s.doc.Some? ==> DocumentIsRight(job, doc0, s))
  }

  ghost predicate DocumentIsRight(job: Job, doc0: Option<Document>, s: State)
    requires |s.stages| == |job.programs| && s.doc.Some?
  {
    && s.doc.value.note == Overlay(BaseNote(job, doc0), AllWrites(job.programs, s.stages, |s.stages|))
    && s.doc.value.version == BaseVersion(doc0) + AllSuccesses(job.programs, s.stages, |s.stages|)
  }

  lemma {:induction false} NothingYet(programs: seq<seq<Writes>>, stages: seq<Stage>, n: nat)
    requires |stages| == |programs| && n <= |programs|
    requires forall i :: 0 <= i < n ==> stages[i].Creating? || stages[i].CreateInserting?
    ensures AllWrites(programs, stages, n) == map[] && AllSuccesses(programs, stages, n) == 0
  {
    if n == 0 {
    } else {
      NothingYet(programs, stages, n - 1);
      assert programs[n - 1][..0] == [];
    }
  }

  lemma StepKeepsInv(job: Job, doc0: Option<Document>, s: State, i: nat)
    requires DisjointPaths(job.programs)
    requires Inv(job, doc0, s) && i < |job.programs|
    ensures Inv(job, doc0, Step(job, s, i))
  {
    StagesStaySound(job, doc0, s, i);
    var t := Step(job, s, i);
    if t.doc.Some? {
      if s.doc.None? {
        CreationIsRight(job, doc0, s, i);
      } else if s.stages[i].Merging? && t.stages[i].Merging? {
        MergeIsRight(job, doc0, s, i);
      } else {
        OtherStepIsRight(job, doc0, s, i);
      }
    }
  }

  lemma StagesStaySound(job: Job, doc0: Option<Document>, s: State, i: nat)
    requires Inv(job, doc0, s) && i < |job.programs|
    ensures
      var t := Step(job, s, i);
      && (forall j :: 0 <= j < |t.stages| ==>
           StageSound(BaseNote(job, doc0), job.programs[j], t.stages[j], t.doc.Some?))
      && (t.doc.None? ==>
           doc0.None? && forall j :: 0 <= j < |t.stages| ==> t.stages[j].Creating? || t.stages[j].CreateInserting?)
  {
    var base := BaseNote(job, doc0);
    assert StageSound(base, job.programs[i], s.stages[i], s.doc.Some?);
    MovedStageSound(job, doc0, s, i);
    forall j | 0 <= j < |s.stages| && j != i
      ensures StageSound(base, job.programs[j], s.stages[j], Step(job, s, i).doc.Some?)
    {
      assert StageSound(base, job.programs[j], s.stages[j], s.doc.Some?);
    }
  }

  lemma MovedStageSound(job: Job, doc0: Option<Document>, s: State, i: nat)
    requires Inv(job, doc0, s) && i < |job.programs|
    ensures
      var t := Step(job, s, i);
      && StageSound(BaseNote(job, doc0), job.programs[i], t.stages[i], t.doc.Some?)
      && (s.doc.Some? ==> t.doc.Some?)
      && (t.doc.None? ==> t.stages[i].Creating? || t.stages[i].CreateInserting?)
  {
    hide Overlay, AllWrites, AllSuccesses;
    var base, program, stage := BaseNote(job, doc0), job.programs[i], s.stages[i];
    assert StageSound(base, program, stage, s.doc.Some?);
    if stage.Merging? && stage.next < |program| {
      OverlayKeepsCanSet(base, AllWrites(job.programs, s.stages, |s.stages|), program[stage.next]);
    }
  }

  lemma CreationIsRight(job: Job, doc0: Option<Document>, s: State, i: nat)
    requires Inv(job, doc0, s) && i < |job.programs| && s.doc.None? && Step(job, s, i).doc.Some?
    ensures DocumentIsRight(job, doc0, Step(job, s, i))
  {
    var n := |job.programs|;
    var after := Step(job, s, i).stages[i];
    assert StageSound(BaseNote(job, doc0), job.programs[i], s.stages[i], false);
    NothingYet(job.programs, s.stages, n);
    SameWrites(job.programs, s.stages, i, after, n);
    SuccessesChange(job.programs, s.stages, i, after, n);
    OverlayNothing(BaseNote(job, doc0));
    assert job.programs[i][..0] == [];
  }

  lemma MergeIsRight(job: Job, doc0: Option<Document>, s: State, i: nat)
    requires DisjointPaths(job.programs)
    requires Inv(job, doc0, s) && i < |job.programs| && s.doc.Some?
    requires s.stages[i].Merging? && Step(job, s, i).stages[i].Merging?
    ensures DocumentIsRight(job, doc0, Step(job, s, i))
  {
    var n, program, k := |job.programs|, job.programs[i], s.stages[i].next;
    var after := Step(job, s, i).stages[i];
    assert StageSound(BaseNote(job, doc0), program, s.stages[i], true);
    if k < |program| {
      assert after == Merging(k + 1, 0);
      NoteAfterMerge(job.programs, s.stages, i, after, s.doc.value.note, BaseNote(job, doc0));
      SuccessesChange(job.programs, s.stages, i, after, n);
      NonemptyNext(program, k);
    } else {
      assert Step(job, s, i).stages == s.stages;
    }
  }

  lemma NonemptyNext(program: seq<Writes>, k: nat)
    requires k < |program|
    ensures Nonempty(program[..k + 1]) == Nonempty(program[..k]) + if program[k] != map[] then 1 else 0
  {
    assert program[..k + 1][..k] == program[..k];
  }

  lemma NoteAfterMerge(programs: seq<seq<Writes>>, stages: seq<Stage>, i: nat, after: Stage, note: Note, base: Note)
    requires DisjointPaths(programs) && |stages| == |programs| && i < |programs|
    requires MergesDone(stages[i], programs[i]) < |programs[i]|
    requires MergesDone(after, programs[i]) == MergesDone(stages[i], programs[i]) + 1
    requires note == Overlay(base, AllWrites(programs, stages, |programs|))
    ensures
      var w := programs[i][MergesDone(stages[i], programs[i])];
      && Overlay(note, w) == Overlay(base, AllWrites(programs, stages[i := after], |programs|))
      && (w == map[] ==> note == Overlay(base, AllWrites(programs, stages[i := after], |programs|)))
  {
    var w := programs[i][MergesDone(stages[i], programs[i])];
    OneMoreMerge(programs, stages, i, after, |programs|);
    OverlayTwice(base, AllWrites(programs, stages, |programs|), w);
    OverlayNothing(note);
  }

  lemma OtherStepIsRight(job: Job, doc0: Option<Document>, s: State, i: nat)
    requires Inv(job, doc0, s) && i < |job.programs| && s.doc.Some?
    requires !(s.stages[i].Merging? && Step(job, s, i).stages[i].Merging?)
    ensures DocumentIsRight(job, doc0, Step(job, s, i))
  {
    var n := |job.programs|;
    var after := Step(job, s, i).stages[i];
    assert StageSound(BaseNote(job, doc0), job.programs[i], s.stages[i], true);
    SameWrites(job.programs, s.stages, i, after, n);
    SuccessesChange(job.programs, s.stages, i, after, n);
    assert job.programs[i][..0] == [];
  }

  lemma {:induction false} RunKeepsInv(job: Job, doc0: Option<Document>, schedule: seq<nat>)
    requires DisjointPaths(job.programs) && IsSchedule(job, schedule)
    ensures Inv(job, doc0, Run(job, doc0, schedule))
  {
    if schedule == [] {
      var s := Start(job, doc0);
      NothingYet(job.programs, s.stages, |s.stages|);
      OverlayNothing(BaseNote(job, doc0));
    } else {
      var earlier := schedule[..|schedule| - 1];
      RunKeepsInv(job, doc0, earlier);
      StepKeepsInv(job, doc0, Run(job, doc0, earlier), schedule[|schedule| - 1]);
    }
  }

  // ---------------------------------------------------------------------
  // Confluence
  // ---------------------------------------------------------------------

  /** How many merges of a program the base note admits before the first write below
      a parameter that is not an object. */
  function Accepted(base: Note, program: seq<Writes>): (k: nat)
    ensures k <= |program|
    ensures forall j :: 0 <= j < k ==> CanSet(base, program[j])
    ensures k < |program| ==> !CanSet(base, program[k])
  {
    if program == [] || !CanSet(base, program[0]) then 0 else 1 + Accepted(base, program[1..])
  }

  /** Where a worker ends, whatever the others do. */
  function FinalStage(base: Note, program: seq<Writes>): Stage {
    var k := Accepted(base, program);
    if k == |program| then Merging(k, 0) else Rejected(k)
  }

  function FinalStages(job: Job, base: Note): (r: seq<Stage>)
    ensures |r| == |job.programs|
  {
    seq(|job.programs|, i requires 0 <= i < |job.programs| => FinalStage(base, job.programs[i]))
  }

  /** The one document every complete run ends with: the base note overlaid with all
      admitted merges, and a version that has counted each of them. */
  function FinalDocument(job: Job, doc0: Option<Document>): Document {
    var base := BaseNote(job, doc0);
    var stages := FinalStages(job, base);
    Document(Overlay(base, AllWrites(job.programs, stages, |stages|)),
             BaseVersion(doc0) + AllSuccesses(job.programs, stages, |stages|))
  }

  predicate Finished(program: seq<Writes>, stage: Stage) {
    (stage.Merging? && stage.next >= |program|) || stage.Rejected? || stage.Failed?
  }

  /** Parallel merging is confluent: whenever every worker has finished, in whatever
      interleaving, the document and all outcomes are the same. */
  lemma MergingIsConfluent(job: Job, doc0: Option<Document>, schedule: seq<nat>)
    requires DisjointPaths(job.programs) && IsSchedule(job, schedule) && job.programs != []
    requires forall i :: 0 <= i < |job.programs| ==> Finished(job.programs[i], Run(job, doc0, schedule).stages[i])
    ensures Run(job, doc0, schedule) == State(Some(FinalDocument(job, doc0)), FinalStages(job, BaseNote(job, doc0)))
  {
    hide Overlay, Run;
    RunKeepsInv(job, doc0, schedule);
    var s, base := Run(job, doc0, schedule), BaseNote(job, doc0);
    forall i | 0 <= i < |job.programs|
      ensures s.stages[i] == FinalStage(base, job.programs[i]) && s.doc.Some?
    {
      assert StageSound(base, job.programs[i], s.stages[i], s.doc.Some?);
    }
    assert s.stages == FinalStages(job, base);
  }

  /** Own steps a worker may still need. */
  function Remaining(program: seq<Writes>, stage: Stage): int {
    match stage
    case Creating(n) => |program| + if n == 0 then 3 else 1
    case CreateInserting(_) => |program| + 2
    case Merging(k, _) => |program| - k
    case _ => 0
  }

  function Steps(schedule: seq<nat>, i: nat): nat {
    if schedule == [] then 0
    else Steps(schedule[..|schedule| - 1], i) + if schedule[|schedule| - 1] == i then 1 else 0
  }

  /** Every worker finishes after at most three steps more than it has merges, and
      never re-raises a DuplicateKeyError. */
  lemma {:induction false} WorkersFinish(job: Job, doc0: Option<Document>, schedule: seq<nat>, i: nat)
    requires DisjointPaths(job.programs) && IsSchedule(job, schedule) && i < |job.programs|
    ensures
      var program, stage := job.programs[i], Run(job, doc0, schedule).stages[i];
      && stage != Failed
      && (Finished(program, stage) || Remaining(program, stage) + Steps(schedule, i) <= |program| + 3)
      && (Steps(schedule, i) >= |program| + 3 ==> Finished(program, stage))
  {
    hide Overlay, AllWrites, AllSuccesses, CanSet, DocumentIsRight, DisjointPaths, WorkerStep, Remaining, Bump;
    RunKeepsInv(job, doc0, schedule);
    var last := Run(job, doc0, schedule);
    assert StageSound(BaseNote(job, doc0), job.programs[i], last.stages[i], last.doc.Some?);
    RemainingBounds(BaseNote(job, doc0), job.programs[i], last.stages[i], last.doc.Some?);
    if schedule == [] {
    } else {
      var earlier := schedule[..|schedule| - 1];
      WorkersFinish(job, doc0, earlier, i);
      RunKeepsInv(job, doc0, earlier);
      var s := Run(job, doc0, earlier);
      assert StageSound(BaseNote(job, doc0), job.programs[i], s.stages[i], s.doc.Some?);
      OneStepLess(BaseNote(job, doc0), s.doc, job.initial, job.programs[i], s.stages[i]);
    }
  }

  /** A step of a worker that has not finished brings it nearer to its end. */
  lemma OneStepLess(base: Note, doc: Option<Document>, initial: Note, program: seq<Writes>, stage: Stage)
    requires StageSound(base, program, stage, doc.Some?)
    ensures
      var next := WorkerStep(doc, initial, program, stage).1;
      if Finished(program, stage) then Finished(program, next)
      else Finished(program, next) || Remaining(program, next) < Remaining(program, stage)
  {
    hide Overlay, CanSet, Bump;
  }

  lemma RemainingBounds(base: Note, program: seq<Writes>, stage: Stage, exists_: bool)
    requires StageSound(base, program, stage, exists_)
    ensures Remaining(program, stage) <= |program| + 3
    ensures !Finished(program, stage) ==> Remaining(program, stage) > 0
  {
  }

  // ---------------------------------------------------------------------
  // Nothing written is ever lost
  // ---------------------------------------------------------------------

  /** For a path of worker i, only worker i's writes count. */
  lemma {:induction false} OwnerDecides(programs: seq<seq<Writes>>, stages: seq<Stage>, i: nat, path: Path, n: nat)
    requires DisjointPaths(programs) && |stages| == |programs| && i < |programs| && n <= |programs|
    requires Writer(programs[i], path)
    ensures
      var own, all := WritesOf(programs[i], stages[i]), AllWrites(programs, stages, n);
      && (path in all <==> i < n && path in own)
      && (path in all ==> all[path] == own[path])
  {
    if n == 0 {
    } else {
      OwnerDecides(programs, stages, i, path, n - 1);
      if n - 1 != i && path in WritesOf(programs[n - 1], stages[n - 1]) {
        FoldStaysInProgram(programs[n - 1], MergesDone(stages[n - 1], programs[n - 1]), path);
      }
    }
  }

  lemma {:induction false} FoldCanSet(base: Note, program: seq<Writes>, k: nat)
    requires k <= |program| && forall j :: 0 <= j < k ==> CanSet(base, program[j])
    ensures CanSet(base, Fold(program[..k]))
  {
    if k == 0 {
    } else {
      FoldCanSet(base, program, k - 1);
      assert program[..k][..k - 1] == program[..k - 1];
    }
  }

  lemma {:induction false} AllCanSet(job: Job, base: Note, s: State, n: nat)
    requires |s.stages| == |job.programs| && n <= |job.programs|
    requires forall i :: 0 <= i < |s.stages| ==> StageSound(base, job.programs[i], s.stages[i], s.doc.Some?)
    ensures CanSet(base, AllWrites(job.programs, s.stages, n))
  {
    if n == 0 {
    } else {
      AllCanSet(job, base, s, n - 1);
      assert StageSound(base, job.programs[n - 1], s.stages[n - 1], s.doc.Some?);
      FoldCanSet(base, job.programs[n - 1], MergesDone(s.stages[n - 1], job.programs[n - 1]));
    }
  }

  /** At any moment of any interleaving, every path a worker has written reads as that
      worker wrote it last; its other paths still read as in the base note. */
  lemma WrittenPathsSurvive(job: Job, doc0: Option<Document>, schedule: seq<nat>, i: nat, path: Path)
    requires DisjointPaths(job.programs) && IsSchedule(job, schedule)
    requires i < |job.programs| && Writer(job.programs[i], path)
    ensures
      var s := Run(job, doc0, schedule);
      var own := WritesOf(job.programs[i], s.stages[i]);
      && (path in own ==> s.doc.Some?)
      && (s.doc.Some? ==>
           Read(s.doc.value.note, path) == if path in own then Some(own[path]) else Read(BaseNote(job, doc0), path))
  {
    RunKeepsInv(job, doc0, schedule);
    var s, base, n := Run(job, doc0, schedule), BaseNote(job, doc0), |job.programs|;
    if s.doc.Some? {
      OwnerDecides(job.programs, s.stages, i, path, n);
      AllCanSet(job, base, s, n);
      ReadOverlay(base, AllWrites(job.programs, s.stages, n), path);
    } else {
      assert job.programs[i][..0] == [];
    }
  }

  /** With `upsert` in place of `upsert_on_insert` it would be different: the note of a
      worker that starts late replaces everything merged so far. */
  function Upsert(doc: Option<Document>, note: Note): Document {
    Document(note, (if doc.Some? then doc.value.version else 0) + 1)
  }

  lemma UpsertWouldErase(initial: Note, w: Writes, path: Path)
    requires CanSet(initial, w) && path in w
    ensures
      var merged := Overlay(Upsert(None, initial).note, w);
      var after := Upsert(Some(Document(merged, 2)), initial);
      && Upsert(None, initial) == Document(initial, 1) && after == Document(initial, 3)
      && Read(merged, path) == Some(w[path])
      && (Read(after.note, path) == Some(w[path]) <==> Read(initial, path) == Some(w[path]))
  {
    ReadOverlay(initial, w, path);
  }
}

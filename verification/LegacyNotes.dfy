/** Moving single target summaries into author-tracked comments. */
module LegacyNotes {
  import opened Common
  import opened Text

  /** A summary note; `updatedBy` is empty when nobody is recorded. */
  datatype Note = Note(content: string, updatedBy: string)

  datatype Comment = Comment(id: string, content: string, createdBy: string)

  datatype Target = Target(project: string, chip: string, kind: string, id: string)

  /** The unique index of the target notes. */
  datatype NoteKey = NoteKey(target: Target, scope: string)

  datatype TargetNote = TargetNote(note: Note, comments: seq<Comment>, source: string)

  /** A qubit or coupling document; several users may have one for the same target. */
  datatype LegacyDoc = LegacyDoc(project: string, chip: string, qid: string, username: string, note: Note)

  type Notes = map<NoteKey, TargetNote>

  /** The latest cool-down of a (project, chip), where there is one. */
  type Cooldowns = map<(string, string), string>

  datatype Store = Store(notes: Notes, qubits: seq<LegacyDoc>, couplings: seq<LegacyDoc>)

  const GLOBAL := "global"
  const EMPTY_NOTE := Note("", "")

  // ---------------------------------------------------------------------
  // Comments
  // ---------------------------------------------------------------------

  /** What must not get lost: the trimmed text and its author. */
  datatype Entry = Entry(content: string, author: string)

  predicate Blank(note: Note) {
    Strip(note.content) == ""
  }

  function EntryOf(note: Note): Entry {
    Entry(Strip(note.content), if note.updatedBy != "" then note.updatedBy else "migration")
  }

  function CommentEntry(c: Comment): Entry {
    Entry(Strip(c.content), c.createdBy)
  }

  function Entries(comments: seq<Comment>): set<Entry> {
    set c | c in comments :: CommentEntry(c)
  }

  predicate HasId(comments: seq<Comment>, id: string) {
    exists c :: c in comments && c.id == id
  }

  function LegacyId(source: string, kind: string, scope: string): string {
    "legacy-" + source + "-" + kind + "-" + scope
  }

  /** A non-blank note becomes a comment unless its id or its text is there already. */
  function AddComment(comments: seq<Comment>, id: string, note: Note): seq<Comment> {
    if Blank(note) || HasId(comments, id) || EntryOf(note) in Entries(comments) then comments
    else comments + [Comment(id, EntryOf(note).content, EntryOf(note).author)]
  }

  /** The text survives exactly when the id was not taken by another text. */
  lemma AddCommentEntries(comments: seq<Comment>, id: string, note: Note)
    ensures Entries(AddComment(comments, id, note)) ==
      Entries(comments) + if !Blank(note) && !HasId(comments, id) then {EntryOf(note)} else {}
  {
    StripTrims(note.content);
    var after := AddComment(comments, id, note);
    if after != comments {
      var c := Comment(id, EntryOf(note).content, EntryOf(note).author);
      assert CommentEntry(c) == EntryOf(note);
      EntriesAppend(comments, c);
    }
  }

  lemma EntriesAppend(comments: seq<Comment>, c: Comment)
    ensures Entries(comments + [c]) == Entries(comments) + {CommentEntry(c)}
  {
    assert c in comments + [c];
    assert forall d :: d in comments + [c] <==> d in comments || d == c;
  }

  // ---------------------------------------------------------------------
  // Phase 1: the notes of the target notes themselves
  // ---------------------------------------------------------------------

  function OwnId(k: NoteKey): string {
    LegacyId("target-note", k.target.kind, k.scope)
  }

  function MigrateOwn(k: NoteKey, t: TargetNote): TargetNote {
    if Blank(t.note) then t else t.(comments := AddComment(t.comments, OwnId(k), t.note), note := EMPTY_NOTE)
  }

  function Phase1(notes: Notes): Notes {
    map k | k in notes :: MigrateOwn(k, notes[k])
  }

  // ---------------------------------------------------------------------
  // Phase 2: the notes of qubit and coupling documents
  // ---------------------------------------------------------------------

  function ScopeKey(cooldowns: Cooldowns, project: string, chip: string): string {
    if (project, chip) in cooldowns then "cooldown:" + cooldowns[(project, chip)] else GLOBAL
  }

  function ScopeSource(scope: string): string {
    if scope == GLOBAL then "legacy_global" else "current_cooldown"
  }

  function TargetOf(doc: LegacyDoc, kind: string): Target {
    Target(doc.project, doc.chip, kind, doc.qid)
  }

  /** Where the summary of a target belongs now. */
  function CurrentKey(cooldowns: Cooldowns, t: Target): NoteKey {
    NoteKey(t, ScopeKey(cooldowns, t.project, t.chip))
  }

  function GetOrCreate(notes: Notes, k: NoteKey): TargetNote {
    if k in notes then notes[k] else TargetNote(EMPTY_NOTE, [], ScopeSource(k.scope))
  }

  function DocId(k: NoteKey): string {
    LegacyId(k.target.kind, k.target.kind, k.scope)
  }

  function MigrateDoc(notes: Notes, doc: LegacyDoc, kind: string, cooldowns: Cooldowns): Notes {
    if Blank(doc.note) then notes
    else
      var k := CurrentKey(cooldowns, TargetOf(doc, kind));
      var t := GetOrCreate(notes, k);
      notes[k := t.(comments := AddComment(t.comments, DocId(k), doc.note))]
  }

  /** The first n documents of one kind. */
  function MigrateDocs(notes: Notes, docs: seq<LegacyDoc>, n: nat, kind: string, cooldowns: Cooldowns): Notes
    requires n <= |docs|
  {
    if n == 0 then notes else MigrateDoc(MigrateDocs(notes, docs, n - 1, kind, cooldowns), docs[n - 1], kind, cooldowns)
  }

  function ClearNote(doc: LegacyDoc): LegacyDoc {
    if Blank(doc.note) then doc else doc.(note := EMPTY_NOTE)
  }

  function ClearNotes(docs: seq<LegacyDoc>): (r: seq<LegacyDoc>)
    ensures |r| == |docs|
  {
    seq(|docs|, i requires 0 <= i < |docs| => ClearNote(docs[i]))
  }

  function Phase2(s: Store, notes: Notes, cooldowns: Cooldowns): Notes {
    var qubitsDone := MigrateDocs(notes, s.qubits, |s.qubits|, "qubit", cooldowns);
    MigrateDocs(qubitsDone, s.couplings, |s.couplings|, "coupling", cooldowns)
  }

  // ---------------------------------------------------------------------
  // Phase 3: earlier migrated comments leave the global scope
  // ---------------------------------------------------------------------

  predicate IsMigrated(c: Comment, kind: string) {
    LegacyId(kind, kind, GLOBAL) <= c.id
  }

  function Migrated(comments: seq<Comment>, kind: string): seq<Comment> {
    Filter(c => IsMigrated(c, kind), comments)
  }

  function Remaining(comments: seq<Comment>, kind: string): seq<Comment> {
    Filter(c => !IsMigrated(c, kind), comments)
  }

  /** Append every comment whose text is not there yet, under the new id. */
  function Relocate(comments: seq<Comment>, moving: seq<Comment>, id: string): seq<Comment> {
    if moving == [] then comments
    else
      var before, c := Relocate(comments, moving[..|moving| - 1], id), moving[|moving| - 1];
      if CommentEntry(c) in Entries(before) then before else before + [c.(id := id)]
  }

  /** The comments of `t` that phase 3 considers. */
  function Moving(notes: Notes, cooldowns: Cooldowns, t: Target): seq<Comment> {
    var g := NoteKey(t, GLOBAL);
    if g in notes && notes[g].source == "legacy_global" && CurrentKey(cooldowns, t) != g
    then Migrated(notes[g].comments, t.kind) else []
  }

  function RelocatedComments(notes: Notes, cooldowns: Cooldowns, t: Target): seq<Comment> {
    var k := CurrentKey(cooldowns, t);
    Relocate(GetOrCreate(notes, k).comments, Moving(notes, cooldowns, t), DocId(k))
  }

  /** Whether anything moves; comments that are all there already stay where they are. */
  predicate Moved(notes: Notes, cooldowns: Cooldowns, t: Target) {
    RelocatedComments(notes, cooldowns, t) != GetOrCreate(notes, CurrentKey(cooldowns, t)).comments
  }

  function Trimmed3(g: TargetNote, kind: string): TargetNote {
    g.(comments := Remaining(g.comments, kind))
  }

  predicate KeptGlobal(g: TargetNote, kind: string) {
    Remaining(g.comments, kind) != [] || !Blank(g.note)
  }

  function Phase3(notes: Notes, cooldowns: Cooldowns): Notes {
    map k | k in Keys3(notes, cooldowns) :: Note3(notes, cooldowns, k)
  }

  function Keys3(notes: Notes, cooldowns: Cooldowns): set<NoteKey> {
    var emptied := set k |
      k in notes && k.scope == GLOBAL && Moved(notes, cooldowns, k.target) && !KeptGlobal(notes[k], k.target.kind);
    var created := set k |
      k in notes && k.scope == GLOBAL && Moved(notes, cooldowns, k.target) :: CurrentKey(cooldowns, k.target);
    notes.Keys - emptied + created
  }

  function Note3(notes: Notes, cooldowns: Cooldowns, k: NoteKey): TargetNote {
    if !Moved(notes, cooldowns, k.target) then GetOrCreate(notes, k)
    else if k == CurrentKey(cooldowns, k.target) then
      GetOrCreate(notes, k).(comments := RelocatedComments(notes, cooldowns, k.target))
    else if k.scope == GLOBAL then Trimmed3(GetOrCreate(notes, k), k.target.kind)
    else GetOrCreate(notes, k)
  }

  function Migrate(s: Store, cooldowns: Cooldowns): Store {
    Store(Phase3(Phase2(s, Phase1(s.notes), cooldowns), cooldowns), ClearNotes(s.qubits), ClearNotes(s.couplings))
  }

  // ---------------------------------------------------------------------
  // A second run
  // ---------------------------------------------------------------------

  ghost predicate AllBlank(notes: Notes) {
    forall k :: k in notes ==> Blank(notes[k].note)
  }

  lemma {:induction false} DocsKeepBlank(notes: Notes, docs: seq<LegacyDoc>, n: nat, kind: string, cooldowns: Cooldowns)
    requires n <= |docs| && AllBlank(notes)
    ensures AllBlank(MigrateDocs(notes, docs, n, kind, cooldowns))
  {
    if n == 0 {
    } else {
      DocsKeepBlank(notes, docs, n - 1, kind, cooldowns);
      assert Blank(EMPTY_NOTE);
    }
  }

  lemma {:induction false} BlankDocsDoNothing(notes: Notes, docs: seq<LegacyDoc>, n: nat, kind: string,
                                              cooldowns: Cooldowns)
    requires n <= |docs| && forall i :: 0 <= i < |docs| ==> Blank(docs[i].note)
    ensures MigrateDocs(notes, docs, n, kind, cooldowns) == notes
  {
    if n == 0 {
    } else {
      BlankDocsDoNothing(notes, docs, n - 1, kind, cooldowns);
    }
  }

  lemma AllBlankAfterPhase1(notes: Notes)
    ensures AllBlank(Phase1(notes))
    ensures AllBlank(notes) ==> Phase1(notes) == notes
  {
    assert Blank(EMPTY_NOTE);
  }

  /** Where something moves there is a global note to move it from, under another key. */
  lemma MovedHasSource(notes: Notes, cooldowns: Cooldowns, t: Target)
    requires Moved(notes, cooldowns, t)
    ensures NoteKey(t, GLOBAL) in notes && CurrentKey(cooldowns, t) != NoteKey(t, GLOBAL)
    ensures Moving(notes, cooldowns, t) == Migrated(notes[NoteKey(t, GLOBAL)].comments, t.kind)
  {
  }

  /** What phase 3 leaves under a key, as far as notes and comments go. */
  lemma Phase3At(notes: Notes, cooldowns: Cooldowns, k: NoteKey)
    ensures
      var after := Phase3(notes, cooldowns);
      && (k in after ==> after[k] == Note3(notes, cooldowns, k))
      && (k !in after ==> k !in notes || (k.scope == GLOBAL && Remaining(notes[k].comments, k.target.kind) == []))
      && (k in notes && !Moved(notes, cooldowns, k.target) ==> k in after)
      && (k !in notes && !Moved(notes, cooldowns, k.target) ==> k !in after)
      && (Moved(notes, cooldowns, k.target) && k == CurrentKey(cooldowns, k.target) ==> k in after)
  {
    if Moved(notes, cooldowns, k.target) {
      MovedHasSource(notes, cooldowns, k.target);
      var g := NoteKey(k.target, GLOBAL);
      assert g in notes && g.scope == GLOBAL && g.target == k.target;
    }
    CurrentKeyNotGlobal(notes, cooldowns, k);
  }

  lemma CurrentKeyNotGlobal(notes: Notes, cooldowns: Cooldowns, k: NoteKey)
    ensures Moved(notes, cooldowns, k.target) && k == CurrentKey(cooldowns, k.target) ==> k.scope != GLOBAL
  {
    if Moved(notes, cooldowns, k.target) {
      MovedHasSource(notes, cooldowns, k.target);
    }
  }

  lemma NothingMigratedRemains(comments: seq<Comment>, kind: string)
    ensures Migrated(Remaining(comments, kind), kind) == []
  {
    FilterNone(c => IsMigrated(c, kind), Remaining(comments, kind));
  }

  /** After phase 3 nothing moves any more. */
  lemma NotMovedAgain(notes: Notes, cooldowns: Cooldowns, t: Target)
    ensures !Moved(Phase3(notes, cooldowns), cooldowns, t)
  {
    var after := Phase3(notes, cooldowns);
    var g, k := NoteKey(t, GLOBAL), CurrentKey(cooldowns, t);
    Phase3At(notes, cooldowns, g);
    Phase3At(notes, cooldowns, k);
    if Moved(notes, cooldowns, t) {
      MovedHasSource(notes, cooldowns, t);
      NothingMigratedRemains(notes[g].comments, t.kind);
      assert Moving(after, cooldowns, t) == [];
    } else {
      assert Moving(after, cooldowns, t) == Moving(notes, cooldowns, t);
    }
  }

  lemma NothingToMove(notes: Notes, cooldowns: Cooldowns)
    requires forall t :: !Moved(notes, cooldowns, t)
    ensures Phase3(notes, cooldowns) == notes
  {
    forall k ensures k in Phase3(notes, cooldowns) <==> k in notes {
      Phase3At(notes, cooldowns, k);
    }
    forall k | k in notes ensures Phase3(notes, cooldowns)[k] == notes[k] {
      Phase3At(notes, cooldowns, k);
    }
  }

  lemma Phase3KeepsBlank(notes: Notes, cooldowns: Cooldowns)
    requires AllBlank(notes)
    ensures AllBlank(Phase3(notes, cooldowns))
  {
    assert Blank(EMPTY_NOTE);
    forall k | k in Phase3(notes, cooldowns) ensures Blank(Phase3(notes, cooldowns)[k].note) {
      Phase3At(notes, cooldowns, k);
    }
  }

  /** With unchanged cool-downs a second run leaves the whole store as it is. */
  lemma MigrateIsFixedPoint(s: Store, cooldowns: Cooldowns)
    ensures Migrate(Migrate(s, cooldowns), cooldowns) == Migrate(s, cooldowns)
  {
    var once := Migrate(s, cooldowns);
    var phase2 := Phase2(s, Phase1(s.notes), cooldowns);
    AllBlankAfterPhase1(s.notes);
    DocsKeepBlank(Phase1(s.notes), s.qubits, |s.qubits|, "qubit", cooldowns);
    DocsKeepBlank(MigrateDocs(Phase1(s.notes), s.qubits, |s.qubits|, "qubit", cooldowns), s.couplings, |s.couplings|,
                  "coupling", cooldowns);
    Phase3KeepsBlank(phase2, cooldowns);
    AllBlankAfterPhase1(once.notes);
    assert Blank(EMPTY_NOTE);
    BlankDocsDoNothing(once.notes, once.qubits, |once.qubits|, "qubit", cooldowns);
    BlankDocsDoNothing(once.notes, once.couplings, |once.couplings|, "coupling", cooldowns);
    forall t ensures !Moved(once.notes, cooldowns, t) {
      NotMovedAgain(phase2, cooldowns, t);
    }
    NothingToMove(once.notes, cooldowns);
    assert ClearNotes(once.qubits) == once.qubits && ClearNotes(once.couplings) == once.couplings;
  }

  // ---------------------------------------------------------------------
  // What survives
  // ---------------------------------------------------------------------

  function CommentsAt(notes: Notes, k: NoteKey): seq<Comment> {
    if k in notes then notes[k].comments else []
  }

  /** Some comment of the target, in whatever scope, records the entry. */
  ghost predicate Recorded(notes: Notes, t: Target, e: Entry) {
    exists scope :: e in Entries(CommentsAt(notes, NoteKey(t, scope)))
  }

  /** The entry of a target note's own summary. */
  predicate OwnEntry(notes: Notes, k: NoteKey, e: Entry) {
    k in notes && !Blank(notes[k].note) && e == EntryOf(notes[k].note)
  }

  /** What is recorded under a key once phase 1 is through: the comments, and the
      note unless its comment id was taken. */
  predicate RecordedAtKey(notes: Notes, k: NoteKey, e: Entry) {
    e in Entries(CommentsAt(notes, k)) || (OwnEntry(notes, k, e) && !HasId(notes[k].comments, OwnId(k)))
  }

  function DocsOf(s: Store, kind: string): seq<LegacyDoc> {
    if kind == "qubit" then s.qubits else if kind == "coupling" then s.couplings else []
  }

  predicate DocEntry(doc: LegacyDoc, t: Target, e: Entry) {
    TargetOf(doc, t.kind) == t && !Blank(doc.note) && e == EntryOf(doc.note)
  }

  /** A document of the target whose text phase 1 has not recorded in its place. */
  predicate IsNews(notes: Notes, k: NoteKey, doc: LegacyDoc) {
    TargetOf(doc, k.target.kind) == k.target && !Blank(doc.note) && !RecordedAtKey(notes, k, EntryOf(doc.note))
  }

  /** The first piece of news among the first n documents. */
  function FirstNews(notes: Notes, k: NoteKey, docs: seq<LegacyDoc>, n: nat): Option<Entry>
    requires n <= |docs|
  {
    if n == 0 then None
    else
      var earlier := FirstNews(notes, k, docs, n - 1);
      if earlier.Some? then earlier
      else if IsNews(notes, k, docs[n - 1]) then Some(EntryOf(docs[n - 1].note)) else None
  }

  /** The store records the entry about the target as it stands: in a comment, or in a target note whose comment id
      is free. */
  ghost predicate OnRecord(notes: Notes, t: Target, e: Entry) {
    exists scope :: RecordedAtKey(notes, NoteKey(t, scope), e)
  }

  /** The entry that the documents of a target bring in: the first news, if the comment id of documents is free. */
  function NewsOf(s: Store, cooldowns: Cooldowns, t: Target): Option<Entry> {
    var k, docs := CurrentKey(cooldowns, t), DocsOf(s, t.kind);
    if HasId(CommentsAt(s.notes, k), DocId(k)) then None else FirstNews(s.notes, k, docs, |docs|)
  }

  /** What the store records about a target in the end: what is on record, and the news of the documents. */
  ghost predicate Kept(s: Store, cooldowns: Cooldowns, t: Target, e: Entry) {
    OnRecord(s.notes, t, e) || NewsOf(s, cooldowns, t) == Some(e)
  }

  lemma Phase1Records(notes: Notes, k: NoteKey)
    ensures forall e :: e in Entries(CommentsAt(Phase1(notes), k)) <==> RecordedAtKey(notes, k, e)
  {
    if k in notes {
      AddCommentEntries(notes[k].comments, OwnId(k), notes[k].note);
    }
  }

  /** The comment id of a document is never that of a target note. */
  lemma DocIdIsNotOwnId(k: NoteKey)
    requires k.target.kind == "qubit" || k.target.kind == "coupling"
    ensures DocId(k) != OwnId(k)
    ensures forall notes :: HasId(CommentsAt(Phase1(notes), k), DocId(k)) <==> HasId(CommentsAt(notes, k), DocId(k))
  {
    assert OwnId(k)[7] == 't';
    assert DocId(k)[7] == k.target.kind[0];
  }

  function NewsComment(k: NoteKey, news: Option<Entry>): seq<Comment> {
    if news.Some? then [Comment(DocId(k), news.value.content, news.value.author)] else []
  }

  /** What one document does to the comments under a key. */
  lemma OneDocAt(notes: Notes, doc: LegacyDoc, kind: string, cooldowns: Cooldowns, k: NoteKey)
    ensures CommentsAt(MigrateDoc(notes, doc, kind, cooldowns), k) ==
      if !Blank(doc.note) && CurrentKey(cooldowns, TargetOf(doc, kind)) == k
      then AddComment(CommentsAt(notes, k), DocId(k), doc.note) else CommentsAt(notes, k)
  {
    hide Blank, AddComment;
  }

  /** A document adds its comment only where no news was added before and its text is news. */
  lemma AddNews(notes: Notes, k: NoteKey, before: seq<Comment>, news: Option<Entry>, doc: LegacyDoc)
    requires forall e :: e in Entries(before) <==> RecordedAtKey(notes, k, e)
    requires TargetOf(doc, k.target.kind) == k.target && !Blank(doc.note) && !HasId(before, DocId(k))
    ensures AddComment(before + NewsComment(k, news), DocId(k), doc.note) ==
      var own := if IsNews(notes, k, doc) then Some(EntryOf(doc.note)) else None;
      before + NewsComment(k, if news.Some? then news else own)
  {
    hide RecordedAtKey, EntryOf, LegacyId, Blank;
    if news.Some? {
      var now := before + NewsComment(k, news);
      assert now[|before|].id == DocId(k);
      assert HasId(now, DocId(k));
    } else {
      assert before + NewsComment(k, news) == before;
    }
  }

  /** Of all documents of a target only the first one with news leaves a comment. */
  lemma {:induction false} DocsAt(notes: Notes, start: Notes, docs: seq<LegacyDoc>, n: nat, kind: string,
                                  cooldowns: Cooldowns, k: NoteKey)
    requires n <= |docs|
    requires forall e :: e in Entries(CommentsAt(start, k)) <==> RecordedAtKey(notes, k, e)
    ensures
      var before, after := CommentsAt(start, k), CommentsAt(MigrateDocs(start, docs, n, kind, cooldowns), k);
      if k == CurrentKey(cooldowns, k.target) && k.target.kind == kind && !HasId(before, DocId(k))
      then after == before + NewsComment(k, FirstNews(notes, k, docs, n))
      else after == before
  {
    hide RecordedAtKey, EntryOf, Blank, LegacyId, MigrateDoc, Entries, DocId;
    var before := CommentsAt(start, k);
    if n == 0 {
      assert before + NewsComment(k, FirstNews(notes, k, docs, 0)) == before;
    } else {
      var doc := docs[n - 1];
      DocsAt(notes, start, docs, n - 1, kind, cooldowns, k);
      OneDocAt(MigrateDocs(start, docs, n - 1, kind, cooldowns), doc, kind, cooldowns, k);
      if !Blank(doc.note) && CurrentKey(cooldowns, TargetOf(doc, kind)) == k && !HasId(before, DocId(k)) {
        AddNews(notes, k, before, FirstNews(notes, k, docs, n - 1), doc);
      }
    }
  }

  lemma Phase2At(s: Store, cooldowns: Cooldowns, k: NoteKey)
    ensures
      var before, after := CommentsAt(Phase1(s.notes), k), CommentsAt(Phase2(s, Phase1(s.notes), cooldowns), k);
      var docs := DocsOf(s, k.target.kind);
      if k == CurrentKey(cooldowns, k.target) && !HasId(CommentsAt(s.notes, k), DocId(k))
      then after == before + NewsComment(k, FirstNews(s.notes, k, docs, |docs|))
      else after == before
  {
    var phase1 := Phase1(s.notes);
    Phase1Records(s.notes, k);
    DocsAt(s.notes, phase1, s.qubits, |s.qubits|, "qubit", cooldowns, k);
    if k.target.kind == "qubit" || k.target.kind == "coupling" {
      DocIdIsNotOwnId(k);
    }
    var qubitsDone := MigrateDocs(phase1, s.qubits, |s.qubits|, "qubit", cooldowns);
    if k.target.kind == "qubit" {
      OtherKind(qubitsDone, s.couplings, |s.couplings|, "coupling", cooldowns, k);
    } else {
      DocsAt(s.notes, qubitsDone, s.couplings, |s.couplings|, "coupling", cooldowns, k);
    }
  }

  lemma {:induction false} OtherKind(notes: Notes, docs: seq<LegacyDoc>, n: nat, kind: string, cooldowns: Cooldowns,
                                     k: NoteKey)
    requires n <= |docs| && k.target.kind != kind
    ensures CommentsAt(MigrateDocs(notes, docs, n, kind, cooldowns), k) == CommentsAt(notes, k)
  {
    if n == 0 {
    } else {
      OtherKind(notes, docs, n - 1, kind, cooldowns, k);
    }
  }

  lemma NewsEntry(k: NoteKey, notes: Notes, docs: seq<LegacyDoc>, n: nat)
    requires n <= |docs|
    ensures Entries(NewsComment(k, FirstNews(notes, k, docs, n))) ==
      if FirstNews(notes, k, docs, n).Some? then {FirstNews(notes, k, docs, n).value} else {}
  {
    if n > 0 {
      NewsEntry(k, notes, docs, n - 1);
      StripTrims(docs[n - 1].note.content);
      var news := FirstNews(notes, k, docs, n);
      if news.Some? && FirstNews(notes, k, docs, n - 1).None? {
        assert NewsComment(k, news)[0] in NewsComment(k, news);
        assert CommentEntry(NewsComment(k, news)[0]) == news.value;
      }
    }
  }

  lemma EntriesConcat(a: seq<Comment>, b: seq<Comment>)
    ensures Entries(a + b) == Entries(a) + Entries(b)
  {
    assert forall c :: c in a + b <==> c in a || c in b;
  }

  lemma Phase2Records(s: Store, cooldowns: Cooldowns, t: Target, e: Entry)
    ensures Recorded(Phase2(s, Phase1(s.notes), cooldowns), t, e) <==> Kept(s, cooldowns, t, e)
  {
    var phase2, current := Phase2(s, Phase1(s.notes), cooldowns), CurrentKey(cooldowns, t);
    var docs := DocsOf(s, t.kind);
    forall scope
      ensures e in Entries(CommentsAt(phase2, NoteKey(t, scope))) <==>
        || RecordedAtKey(s.notes, NoteKey(t, scope), e)
        || (NoteKey(t, scope) == current && NewsOf(s, cooldowns, t) == Some(e))
    {
      var k := NoteKey(t, scope);
      Phase2At(s, cooldowns, k);
      Phase1Records(s.notes, k);
      NewsEntry(k, s.notes, docs, |docs|);
      EntriesConcat(CommentsAt(Phase1(s.notes), k), NewsComment(k, FirstNews(s.notes, k, docs, |docs|)));
    }
    assert NoteKey(t, current.scope) == current;
  }

  // Phase 3 moves comments of a target between its scopes.

  lemma {:induction false} RelocateEntries(comments: seq<Comment>, moving: seq<Comment>, id: string)
    ensures Entries(Relocate(comments, moving, id)) == Entries(comments) + Entries(moving)
  {
    if moving == [] {
    } else {
      var front, c := moving[..|moving| - 1], moving[|moving| - 1];
      RelocateEntries(comments, front, id);
      assert moving == front + [c];
      EntriesAppend(front, c);
      EntriesAppend(Relocate(comments, front, id), c.(id := id));
    }
  }

  /** Relocation appends: the old comments stay, and each new one says what no comment before it says. */
  lemma {:induction false} RelocateAppendsOnce(comments: seq<Comment>, moving: seq<Comment>, id: string)
    ensures comments <= Relocate(comments, moving, id)
    ensures forall i :: |comments| <= i < |Relocate(comments, moving, id)| ==>
      && Relocate(comments, moving, id)[i].id == id
      && CommentEntry(Relocate(comments, moving, id)[i]) !in Entries(Relocate(comments, moving, id)[..i])
  {
    hide CommentEntry, Entries;
    if moving == [] {
    } else {
      var front, c := moving[..|moving| - 1], moving[|moving| - 1];
      RelocateAppendsOnce(comments, front, id);
      var before, after := Relocate(comments, front, id), Relocate(comments, moving, id);
      SameEntry(c, id);
      forall i | |comments| <= i < |after| ensures after[i].id == id && CommentEntry(after[i]) !in Entries(after[..i]) {
        if i < |before| {
          assert after[..i] == before[..i];
        } else {
          assert after[..i] == before;
        }
      }
    }
  }

  lemma SameEntry(c: Comment, id: string)
    ensures CommentEntry(c.(id := id)) == CommentEntry(c)
  {
  }

  lemma SplitEntries(comments: seq<Comment>, kind: string)
    ensures Entries(comments) == Entries(Migrated(comments, kind)) + Entries(Remaining(comments, kind))
  {
    assert forall c :: c in comments <==> c in Migrated(comments, kind) || c in Remaining(comments, kind);
  }

  lemma Phase3Comments(notes: Notes, cooldowns: Cooldowns, k: NoteKey)
    ensures
      CommentsAt(Phase3(notes, cooldowns), k) ==
      if !Moved(notes, cooldowns, k.target) then CommentsAt(notes, k)
      else if k == CurrentKey(cooldowns, k.target) then RelocatedComments(notes, cooldowns, k.target)
      else if k.scope == GLOBAL then Remaining(CommentsAt(notes, k), k.target.kind)
      else CommentsAt(notes, k)
  {
    Phase3At(notes, cooldowns, k);
    if Moved(notes, cooldowns, k.target) {
      MovedHasSource(notes, cooldowns, k.target);
    }
  }

  /** A target's comments after a move: the current key gains what the global key loses. */
  lemma MovedEntries(notes: Notes, cooldowns: Cooldowns, t: Target, scope: string)
    requires Moved(notes, cooldowns, t)
    ensures
      var current, moving := CurrentKey(cooldowns, t), Entries(Moving(notes, cooldowns, t));
      var before := Entries(CommentsAt(notes, NoteKey(t, scope)));
      var after := Entries(CommentsAt(Phase3(notes, cooldowns), NoteKey(t, scope)));
      && current.scope != GLOBAL
      && (scope == current.scope ==> after == before + moving)
      && (scope == GLOBAL ==> before == after + moving)
      && (scope != GLOBAL && scope != current.scope ==> after == before)
  {
    MovedHasSource(notes, cooldowns, t);
    Phase3Comments(notes, cooldowns, NoteKey(t, scope));
    var current := CurrentKey(cooldowns, t);
    SplitEntries(notes[NoteKey(t, GLOBAL)].comments, t.kind);
    RelocateEntries(CommentsAt(notes, current), Moving(notes, cooldowns, t), DocId(current));
  }

  lemma Phase3Records(notes: Notes, cooldowns: Cooldowns, t: Target, e: Entry)
    ensures Recorded(Phase3(notes, cooldowns), t, e) <==> Recorded(notes, t, e)
  {
    var after, current := Phase3(notes, cooldowns), CurrentKey(cooldowns, t).scope;
    if Moved(notes, cooldowns, t) {
      MovedEntries(notes, cooldowns, t, GLOBAL);
      MovedEntries(notes, cooldowns, t, current);
      forall scope | e in Entries(CommentsAt(notes, NoteKey(t, scope)))
        || e in Entries(CommentsAt(after, NoteKey(t, scope)))
        ensures Recorded(after, t, e) && Recorded(notes, t, e)
      {
        MovedEntries(notes, cooldowns, t, scope);
        assert e in Entries(CommentsAt(after, NoteKey(t, scope)))
          || e in Entries(CommentsAt(after, NoteKey(t, current)));
        assert e in Entries(CommentsAt(notes, NoteKey(t, scope)))
          || e in Entries(CommentsAt(notes, NoteKey(t, GLOBAL)));
      }
    } else {
      forall scope ensures CommentsAt(after, NoteKey(t, scope)) == CommentsAt(notes, NoteKey(t, scope)) {
        Phase3Comments(notes, cooldowns, NoteKey(t, scope));
      }
    }
  }

  /** Exactly what survives, for every store: through all three phases a target's
      comments record what `Kept` says, no less and no more. */
  lemma SurvivorsAreExactlyKept(s: Store, cooldowns: Cooldowns, t: Target, e: Entry)
    ensures Recorded(Migrate(s, cooldowns).notes, t, e) <==> Kept(s, cooldowns, t, e)
  {
    Phase2Records(s, cooldowns, t, e);
    Phase3Records(Phase2(s, Phase1(s.notes), cooldowns), cooldowns, t, e);
  }

  // ---------------------------------------------------------------------
  // When nothing gets lost
  // ---------------------------------------------------------------------

  /** Everything the store says about a target before the run. */
  ghost predicate Said(s: Store, t: Target, e: Entry) {
    || Recorded(s.notes, t, e)
    || (exists scope :: OwnEntry(s.notes, NoteKey(t, scope), e))
    || (exists doc :: doc in DocsOf(s, t.kind) && DocEntry(doc, t, e))
  }

  /** A target note whose summary cannot become a comment, as its comment id is in use. */
  predicate OwnIdTaken(notes: Notes, k: NoteKey) {
    k in notes && !Blank(notes[k].note) && HasId(notes[k].comments, OwnId(k))
  }

  lemma {:induction false} FirstNewsIsNews(notes: Notes, k: NoteKey, docs: seq<LegacyDoc>, n: nat)
    requires n <= |docs|
    ensures FirstNews(notes, k, docs, n).Some? ==>
      exists doc :: doc in docs && IsNews(notes, k, doc) && FirstNews(notes, k, docs, n) == Some(EntryOf(doc.note))
    ensures FirstNews(notes, k, docs, n).None? ==> forall i :: 0 <= i < n ==> !IsNews(notes, k, docs[i])
  {
    hide IsNews, EntryOf;
    if n == 0 {
    } else {
      FirstNewsIsNews(notes, k, docs, n - 1);
      assert docs[n - 1] in docs;
    }
  }

  /** No comment says anything that was not said before. */
  lemma NothingInvented(s: Store, cooldowns: Cooldowns, t: Target, e: Entry)
    ensures Recorded(Migrate(s, cooldowns).notes, t, e) ==> Said(s, t, e)
  {
    SurvivorsAreExactlyKept(s, cooldowns, t, e);
    FirstNewsIsNews(s.notes, CurrentKey(cooldowns, t), DocsOf(s, t.kind), |DocsOf(s, t.kind)|);
  }

  /** What is said about a target is on record, or said by a target note whose id is taken or a document with news. */
  lemma HowItIsSaid(s: Store, cooldowns: Cooldowns, t: Target, e: Entry)
    ensures Said(s, t, e) <==>
      || OnRecord(s.notes, t, e)
      || (exists scope :: OwnIdTaken(s.notes, NoteKey(t, scope)) && e == EntryOf(s.notes[NoteKey(t, scope)].note))
      || (exists doc ::
            doc in DocsOf(s, t.kind) && IsNews(s.notes, CurrentKey(cooldowns, t), doc) && e == EntryOf(doc.note))
  {
    hide EntryOf, Blank, HasId, OwnId;
    var k := CurrentKey(cooldowns, t);
    assert NoteKey(t, k.scope) == k;
    forall scope
      ensures e in Entries(CommentsAt(s.notes, NoteKey(t, scope))) || OwnEntry(s.notes, NoteKey(t, scope), e) <==>
        || RecordedAtKey(s.notes, NoteKey(t, scope), e)
        || (OwnIdTaken(s.notes, NoteKey(t, scope)) && e == EntryOf(s.notes[NoteKey(t, scope)].note))
    {
    }
    forall doc | doc in DocsOf(s, t.kind) && DocEntry(doc, t, e)
      ensures IsNews(s.notes, k, doc) || RecordedAtKey(s.notes, NoteKey(t, k.scope), e)
    {
    }
  }

  /** No document with news and no target note with a taken id says anything that stays unrecorded. */
  ghost predicate NothingDisplaced(s: Store, cooldowns: Cooldowns, t: Target) {
    && (forall scope :: OwnIdTaken(s.notes, NoteKey(t, scope)) ==>
          var e := EntryOf(s.notes[NoteKey(t, scope)].note);
          OnRecord(s.notes, t, e) || NewsOf(s, cooldowns, t) == Some(e))
    && (forall doc :: doc in DocsOf(s, t.kind) && IsNews(s.notes, CurrentKey(cooldowns, t), doc) ==>
          OnRecord(s.notes, t, EntryOf(doc.note)) || NewsOf(s, cooldowns, t) == Some(EntryOf(doc.note)))
  }

  /** Every text of a target survives as a comment of that target, with its author, if and only if, in the store before
      the run, every target note whose comment id is in use and every document with news says something that is on
      record already or is the one piece of news that gets recorded. */
  lemma LosesNothingIff(s: Store, cooldowns: Cooldowns, t: Target)
    ensures (forall e :: Said(s, t, e) ==> Recorded(Migrate(s, cooldowns).notes, t, e)) <==>
      NothingDisplaced(s, cooldowns, t)
  {
    hide Recorded, Migrate, Said, OnRecord, NewsOf, EntryOf, IsNews, OwnId, HasId, Blank;
    forall e
      ensures Recorded(Migrate(s, cooldowns).notes, t, e) <==>
        OnRecord(s.notes, t, e) || NewsOf(s, cooldowns, t) == Some(e)
      ensures Said(s, t, e) <==>
        || OnRecord(s.notes, t, e)
        || (exists scope :: OwnIdTaken(s.notes, NoteKey(t, scope)) && e == EntryOf(s.notes[NoteKey(t, scope)].note))
        || (exists doc ::
              doc in DocsOf(s, t.kind) && IsNews(s.notes, CurrentKey(cooldowns, t), doc) && e == EntryOf(doc.note))
    {
      SurvivorsAreExactlyKept(s, cooldowns, t, e);
      HowItIsSaid(s, cooldowns, t, e);
    }
  }

  predicate Speaks(s: Store, t: Target, doc: LegacyDoc) {
    doc in DocsOf(s, t.kind) && TargetOf(doc, t.kind) == t && !Blank(doc.note)
  }

  /** In particular nothing is lost where all documents of a target say the same and no
      legacy comment id of the target carries another text. */
  lemma LosesNothing(s: Store, cooldowns: Cooldowns, t: Target, e: Entry)
    requires forall a, b :: Speaks(s, t, a) && Speaks(s, t, b) ==> EntryOf(a.note) == EntryOf(b.note)
    requires !HasId(CommentsAt(s.notes, CurrentKey(cooldowns, t)), DocId(CurrentKey(cooldowns, t)))
    requires forall scope :: NoteKey(t, scope) in s.notes ==>
      !HasId(s.notes[NoteKey(t, scope)].comments, OwnId(NoteKey(t, scope)))
    requires Said(s, t, e)
    ensures Recorded(Migrate(s, cooldowns).notes, t, e)
  {
    hide Recorded, Migrate, Said, OnRecord, EntryOf, HasId, OwnId, DocId;
    var k, docs := CurrentKey(cooldowns, t), DocsOf(s, t.kind);
    FirstNewsIsNews(s.notes, k, docs, |docs|);
    LosesNothingIff(s, cooldowns, t);
  }

  lemma {:induction false} FirstNewsStays(notes: Notes, k: NoteKey, docs: seq<LegacyDoc>, m: nat, n: nat)
    requires m <= n <= |docs| && FirstNews(notes, k, docs, m).Some?
    ensures FirstNews(notes, k, docs, n) == FirstNews(notes, k, docs, m)
  {
    if n == m {
    } else {
      FirstNewsStays(notes, k, docs, m, n - 1);
    }
  }

  /** Every visible note of a document is cleared, and its text is on record afterwards if and only if it was on record
      before or is the news of the target: a text that comes later is lost, in every store. */
  lemma ClearedNoteSurvivesIff(s: Store, cooldowns: Cooldowns, t: Target, i: nat)
    requires i < |DocsOf(s, t.kind)| && Speaks(s, t, DocsOf(s, t.kind)[i])
    ensures
      var doc, after := DocsOf(s, t.kind)[i], Migrate(s, cooldowns);
      && |DocsOf(after, t.kind)| == |DocsOf(s, t.kind)|
      && DocsOf(after, t.kind)[i] == doc.(note := EMPTY_NOTE)
      && (Recorded(after.notes, t, EntryOf(doc.note)) <==>
            OnRecord(s.notes, t, EntryOf(doc.note)) || NewsOf(s, cooldowns, t) == Some(EntryOf(doc.note)))
  {
    hide Recorded, OnRecord, NewsOf, Phase2, Phase3, EntryOf;
    SurvivorsAreExactlyKept(s, cooldowns, t, EntryOf(DocsOf(s, t.kind)[i].note));
  }

  /** Two users have different notes on one qubit or coupling. If the first one is news, the second text is on record
      nowhere and no earlier document says it, then the second note is cleared and its text is in no comment. */
  lemma SecondUsersNoteIsLost(s: Store, cooldowns: Cooldowns, t: Target, i: nat, j: nat)
    requires i < j < |DocsOf(s, t.kind)| && Speaks(s, t, DocsOf(s, t.kind)[j])
    requires IsNews(s.notes, CurrentKey(cooldowns, t), DocsOf(s, t.kind)[i])
    requires !OnRecord(s.notes, t, EntryOf(DocsOf(s, t.kind)[j].note))
    requires forall h :: 0 <= h <= i ==> EntryOf(DocsOf(s, t.kind)[h].note) != EntryOf(DocsOf(s, t.kind)[j].note)
    ensures
      var doc, after := DocsOf(s, t.kind)[j], Migrate(s, cooldowns);
      && |DocsOf(after, t.kind)| == |DocsOf(s, t.kind)| && DocsOf(after, t.kind)[j] == doc.(note := EMPTY_NOTE)
      && !Recorded(after.notes, t, EntryOf(doc.note))
  {
    hide Recorded, OnRecord, Migrate, EntryOf, Blank, HasId, DocId;
    var k, docs := CurrentKey(cooldowns, t), DocsOf(s, t.kind);
    ClearedNoteSurvivesIff(s, cooldowns, t, j);
    FirstNewsAmong(s.notes, k, docs, i + 1);
    FirstNewsStays(s.notes, k, docs, i + 1, |docs|);
  }

  lemma {:induction false} FirstNewsAmong(notes: Notes, k: NoteKey, docs: seq<LegacyDoc>, n: nat)
    requires n <= |docs|
    ensures FirstNews(notes, k, docs, n).Some? <==> exists h :: 0 <= h < n && IsNews(notes, k, docs[h])
    ensures FirstNews(notes, k, docs, n).Some? ==>
      exists h :: 0 <= h < n && FirstNews(notes, k, docs, n) == Some(EntryOf(docs[h].note))
  {
    hide EntryOf, IsNews;
    if n == 0 {
    } else {
      FirstNewsAmong(notes, k, docs, n - 1);
    }
  }

  /** The smallest such store: two documents of one qubit and nothing else. */
  lemma TwoUsersOneComment(first: LegacyDoc, second: LegacyDoc, cooldowns: Cooldowns)
    requires TargetOf(first, "qubit") == TargetOf(second, "qubit")
    requires !Blank(first.note) && !Blank(second.note) && EntryOf(first.note) != EntryOf(second.note)
    ensures
      var t, after := TargetOf(first, "qubit"), Migrate(Store(map[], [first, second], []), cooldowns);
      && after.qubits == [first.(note := EMPTY_NOTE), second.(note := EMPTY_NOTE)]
      && Recorded(after.notes, t, EntryOf(first.note))
      && !Recorded(after.notes, t, EntryOf(second.note))
  {
    hide Recorded, EntryOf, Blank, Phase2, Phase3, DocId;
    var s, t := Store(map[], [first, second], []), TargetOf(first, "qubit");
    var k := CurrentKey(cooldowns, t);
    assert FirstNews(map[], k, s.qubits, 0) == None;
    assert FirstNews(map[], k, s.qubits, 1) == Some(EntryOf(first.note));
    ClearedNoteSurvivesIff(s, cooldowns, t, 0);
    FirstNewsStays(map[], k, s.qubits, 1, 2);
    SecondUsersNoteIsLost(s, cooldowns, t, 0, 1);
  }

  // ---------------------------------------------------------------------
  // The migration on mutable documents
  // ---------------------------------------------------------------------

  lemma NothingRelocated(comments: seq<Comment>, id: string)
    ensures Relocate(comments, [], id) == comments
  {
  }

  /** Append the comments whose text is not there yet, and say whether there were any. */
  method AppendMissing(comments0: seq<Comment>, moving: seq<Comment>, id: string)
    returns (comments: seq<Comment>, moved: bool)
    ensures comments == Relocate(comments0, moving, id)
    ensures moved <==> comments != comments0
  {
    comments, moved := comments0, false;
    for i := 0 to |moving|
      invariant comments == Relocate(comments0, moving[..i], id)
      invariant |comments| >= |comments0|
      invariant moved <==> |comments| > |comments0|
      invariant !moved ==> comments == comments0
    {
      assert moving[..i + 1][..i] == moving[..i];
      var c := moving[i];
      if CommentEntry(c) !in Entries(comments) {
        comments := comments + [c.(id := id)];
        moved := true;
      }
    }
    assert moving[..|moving|] == moving;
  }

  class NoteStore {
    var notes: Notes
    var qubits: seq<LegacyDoc>
    var couplings: seq<LegacyDoc>

    constructor (s: Store)
      ensures Contents() == s
    {
      notes, qubits, couplings := s.notes, s.qubits, s.couplings;
    }

    function Contents(): Store
      reads this
    {
      Store(notes, qubits, couplings)
    }

    method MigrateTargetNotes()
      modifies this`notes
      ensures notes == Phase1(old(notes))
    {
      var todo := set k | k in notes && !Blank(notes[k].note);
      while todo != {}
        invariant todo <= notes.Keys == old(notes).Keys
        invariant forall k :: k in notes ==>
          notes[k] == if k in todo || Blank(old(notes)[k].note) then old(notes)[k] else MigrateOwn(k, old(notes)[k])
        invariant forall k :: k in todo ==> !Blank(old(notes)[k].note)
      {
        var k := Next(todo);
        todo := todo - {k};
        var t := notes[k];
        notes := notes[k := TargetNote(EMPTY_NOTE, AddComment(t.comments, OwnId(k), t.note), t.source)];
      }
    }

    /** One pass over the documents of one kind. */
    method MigrateDocuments(docs: seq<LegacyDoc>, kind: string, cooldowns: Cooldowns) returns (cleared: seq<LegacyDoc>)
      modifies this`notes
      ensures notes == MigrateDocs(old(notes), docs, |docs|, kind, cooldowns)
      ensures cleared == ClearNotes(docs)
    {
      cleared := docs;
      for i := 0 to |docs|
        invariant notes == MigrateDocs(old(notes), docs, i, kind, cooldowns)
        invariant |cleared| == |docs|
        invariant forall j :: 0 <= j < |docs| ==> cleared[j] == if j < i then ClearNote(docs[j]) else docs[j]
      {
        var doc := docs[i];
        if !Blank(doc.note) {
          var k := CurrentKey(cooldowns, TargetOf(doc, kind));
          var t := GetOrCreate(notes, k);
          notes := notes[k := t.(comments := AddComment(t.comments, DocId(k), doc.note))];
          cleared := cleared[i := doc.(note := EMPTY_NOTE)];
        }
      }
    }

    /** Move the earlier migrated comments of one target. */
    method RelocateTarget(cooldowns: Cooldowns, t: Target)
      requires NoteKey(t, GLOBAL) in notes && notes[NoteKey(t, GLOBAL)].source == "legacy_global"
      modifies this`notes
      ensures notes == RelocateOne(old(notes), cooldowns, t)
    {
      hide Relocate, Blank, Remaining, DocId, ScopeSource, IsMigrated;
      var g, k := NoteKey(t, GLOBAL), CurrentKey(cooldowns, t);
      NothingRelocated(GetOrCreate(notes, k).comments, DocId(k));
      if k == g {
        return;
      }
      var migrated := Migrated(notes[g].comments, t.kind);
      if migrated == [] {
        return;
      }
      var target := GetOrCreate(notes, k);
      var comments, moved := AppendMissing(target.comments, migrated, DocId(k));
      if moved {
        notes := notes[k := target.(comments := comments)];
        var rest := Trimmed3(notes[g], t.kind);
        if rest.comments != [] || !Blank(rest.note) {
          notes := notes[g := rest];
        } else {
          notes := notes - {g};
        }
      }
    }

    method MigrateLegacyNotes(cooldowns: Cooldowns, dryRun: bool)
      modifies this
      ensures Contents() == if dryRun then old(Contents()) else Migrate(old(Contents()), cooldowns)
    {
      if dryRun {
        return;
      }
      MigrateTargetNotes();
      qubits := MigrateDocuments(qubits, "qubit", cooldowns);
      couplings := MigrateDocuments(couplings, "coupling", cooldowns);
      RelocateAll(cooldowns);
    }

    method RelocateAll(cooldowns: Cooldowns)
      modifies this`notes
      ensures notes == Phase3(old(notes), cooldowns)
    {
      hide Phase3;
      ghost var notes0 := notes;
      var todo := set k | k in notes && k.scope == GLOBAL && notes[k].source == "legacy_global" :: k.target;
      ghost var all := todo;
      while todo != {}
        invariant todo <= all
        invariant forall k: NoteKey :: k.target in all - todo ==> SameAt(notes, Phase3(notes0, cooldowns), k)
        invariant forall k: NoteKey :: k.target !in all - todo ==> SameAt(notes, notes0, k)
      {
        var t := Next(todo);
        assert SameAt(notes, notes0, NoteKey(t, GLOBAL));
        RelocateStep(notes, notes0, cooldowns, t);
        RelocateTarget(cooldowns, t);
        todo := todo - {t};
      }
      UntouchedTargets(notes0, cooldowns, all);
      SameEverywhere(notes, Phase3(notes0, cooldowns));
    }
  }

  lemma RelocateStep(before: Notes, notes0: Notes, cooldowns: Cooldowns, t: Target)
    requires forall k: NoteKey :: k.target == t ==> SameAt(before, notes0, k)
    ensures forall k: NoteKey :: k.target == t ==>
      SameAt(RelocateOne(before, cooldowns, t), Phase3(notes0, cooldowns), k)
    ensures forall k: NoteKey :: k.target != t ==> SameAt(RelocateOne(before, cooldowns, t), before, k)
  {
    RelocateOneIsPhase3(before, cooldowns, NoteKey(t, GLOBAL));
    forall k: NoteKey | k.target == t
      ensures SameAt(RelocateOne(before, cooldowns, t), Phase3(notes0, cooldowns), k)
    {
      RelocateOneIsPhase3(before, cooldowns, k);
      Phase3IsLocal(before, notes0, cooldowns, k);
    }
  }

  lemma UntouchedTargets(notes: Notes, cooldowns: Cooldowns, sources: set<Target>)
    requires forall t :: NoteKey(t, GLOBAL) in notes && notes[NoteKey(t, GLOBAL)].source == "legacy_global" ==>
      t in sources
    ensures forall k: NoteKey :: k.target !in sources ==> SameAt(notes, Phase3(notes, cooldowns), k)
  {
    forall k: NoteKey | k.target !in sources ensures SameAt(notes, Phase3(notes, cooldowns), k) {
      Phase3At(notes, cooldowns, k);
    }
  }

  ghost predicate SameAt(a: Notes, b: Notes, k: NoteKey) {
    (k in a <==> k in b) && (k in a && k in b ==> a[k] == b[k])
  }

  lemma SameEverywhere(a: Notes, b: Notes)
    requires forall k :: SameAt(a, b, k)
    ensures a == b
  {
    forall k ensures (k in a <==> k in b) && (k in a ==> a[k] == b[k]) {
      assert SameAt(a, b, k);
    }
  }

  /** Phase 3 for one target. */
  function RelocateOne(notes: Notes, cooldowns: Cooldowns, t: Target): Notes {
    if !Moved(notes, cooldowns, t) then notes
    else
      MovedHasSource(notes, cooldowns, t);
      var g, k := NoteKey(t, GLOBAL), CurrentKey(cooldowns, t);
      var grown := notes[k := GetOrCreate(notes, k).(comments := RelocatedComments(notes, cooldowns, t))];
      if KeptGlobal(notes[g], t.kind) then grown[g := Trimmed3(notes[g], t.kind)] else grown - {g}
  }

  lemma RelocateOneIsPhase3(notes: Notes, cooldowns: Cooldowns, k: NoteKey)
    ensures SameAt(RelocateOne(notes, cooldowns, k.target), Phase3(notes, cooldowns), k)
    ensures forall l: NoteKey :: l.target != k.target ==> SameAt(RelocateOne(notes, cooldowns, k.target), notes, l)
  {
    hide Blank, Relocate, Remaining, RelocatedComments, Phase3, DocId;
    Phase3At(notes, cooldowns, k);
    if Moved(notes, cooldowns, k.target) {
      MovedHasSource(notes, cooldowns, k.target);
      MovedKeys(notes, cooldowns, k.target);
    }
  }

  lemma MovedKeys(notes: Notes, cooldowns: Cooldowns, t: Target)
    requires Moved(notes, cooldowns, t)
    ensures forall k: NoteKey :: k.target == t ==> (k in Phase3(notes, cooldowns) <==>
      k == CurrentKey(cooldowns, t) || (k in notes && (k.scope == GLOBAL ==> KeptGlobal(notes[k], t.kind))))
  {
    MovedHasSource(notes, cooldowns, t);
    var g := NoteKey(t, GLOBAL);
    assert g in notes && g.scope == GLOBAL && g.target == t;
  }

  /** What phase 3 does to a target depends on that target's notes only. */
  lemma Phase3IsLocal(a: Notes, b: Notes, cooldowns: Cooldowns, k: NoteKey)
    requires forall l: NoteKey :: l.target == k.target ==> SameAt(a, b, l)
    ensures SameAt(Phase3(a, cooldowns), Phase3(b, cooldowns), k)
  {
    assert SameAt(a, b, NoteKey(k.target, GLOBAL)) && SameAt(a, b, CurrentKey(cooldowns, k.target)) && SameAt(a, b, k);
    assert Moved(a, cooldowns, k.target) <==> Moved(b, cooldowns, k.target);
    Phase3At(a, cooldowns, k);
    Phase3At(b, cooldowns, k);
    if Moved(a, cooldowns, k.target) {
      MovedKeys(a, cooldowns, k.target);
      MovedKeys(b, cooldowns, k.target);
    }
  }
}

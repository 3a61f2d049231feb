/** What the migration of legacy notes does, read in the texts, authors and ids themselves. */
module NoteComments {
  import opened Common
  import opened Text
  import opened LegacyNotes

  // ---------------------------------------------------------------------
  // Texts and authors
  // ---------------------------------------------------------------------

  /** Some comment of the target carries the text, up to surrounding whitespace, and the author. */
  ghost predicate Told(notes: Notes, t: Target, text: string, author: string) {
    exists scope, c :: ToldAt(notes, NoteKey(t, scope), c, text, author)
  }

  ghost predicate ToldAt(notes: Notes, k: NoteKey, c: Comment, text: string, author: string) {
    k in notes && c in notes[k].comments && Strip(c.content) == text && c.createdBy == author
  }

  /** A note that is not blank says its text in the name of its last editor, or of "migration". */
  predicate Says(note: Note, text: string, author: string) {
    && Strip(note.content) == text && text != ""
    && author == if note.updatedBy == "" then "migration" else note.updatedBy
  }

  /** Documents of the target's kind. */
  function Documents(s: Store, t: Target): seq<LegacyDoc> {
    if t.kind == "qubit" then s.qubits else if t.kind == "coupling" then s.couplings else []
  }

  predicate About(doc: LegacyDoc, t: Target) {
    doc.project == t.project && doc.chip == t.chip && doc.qid == t.id
  }

  /** The text is in a comment, in a target note or in a document of the target. */
  ghost predicate KnownBefore(s: Store, t: Target, text: string, author: string) {
    || Told(s.notes, t, text, author)
    || (exists scope :: NoteKey(t, scope) in s.notes && Says(s.notes[NoteKey(t, scope)].note, text, author))
    || (exists doc :: DocumentSays(s, t, doc, text, author))
  }

  lemma ToldIsRecorded(notes: Notes, t: Target, text: string, author: string)
    ensures Told(notes, t, text, author) <==> Recorded(notes, t, Entry(text, author))
  {
    forall scope
      ensures Entry(text, author) in Entries(CommentsAt(notes, NoteKey(t, scope))) <==>
        exists c :: ToldAt(notes, NoteKey(t, scope), c, text, author)
    {
      if Entry(text, author) in Entries(CommentsAt(notes, NoteKey(t, scope))) {
        var c :| c in CommentsAt(notes, NoteKey(t, scope)) && CommentEntry(c) == Entry(text, author);
        assert ToldAt(notes, NoteKey(t, scope), c, text, author);
      }
    }
  }

  lemma SaysIsEntry(note: Note, text: string, author: string)
    ensures Says(note, text, author) <==> !Blank(note) && EntryOf(note) == Entry(text, author)
  {
  }

  lemma KnownIsSaid(s: Store, t: Target, text: string, author: string)
    ensures KnownBefore(s, t, text, author) <==> Said(s, t, Entry(text, author))
  {
    hide Told, Recorded, Says, Blank, EntryOf;
    ToldIsRecorded(s.notes, t, text, author);
    assert Documents(s, t) == DocsOf(s, t.kind);
    forall doc ensures DocumentSays(s, t, doc, text, author) <==>
                         doc in DocsOf(s, t.kind) && DocEntry(doc, t, Entry(text, author))
    {
      SaysIsEntry(doc.note, text, author);
    }
    forall note ensures Says(note, text, author) <==> !Blank(note) && EntryOf(note) == Entry(text, author) {
      SaysIsEntry(note, text, author);
    }
  }

  /** Every text in a comment after the run was known before, with the same author. */
  lemma TextsComeFromNotes(s: Store, cooldowns: Cooldowns, t: Target, text: string, author: string)
    ensures Told(Migrate(s, cooldowns).notes, t, text, author) ==> KnownBefore(s, t, text, author)
  {
    hide Told, KnownBefore, Recorded, Said, Migrate;
    ToldIsRecorded(Migrate(s, cooldowns).notes, t, text, author);
    KnownIsSaid(s, t, text, author);
    NothingInvented(s, cooldowns, t, Entry(text, author));
  }

  /** Nothing that is in a comment is ever lost. */
  lemma CommentsAreKept(s: Store, cooldowns: Cooldowns, t: Target, text: string, author: string)
    ensures Told(s.notes, t, text, author) ==> Told(Migrate(s, cooldowns).notes, t, text, author)
  {
    hide Told, Migrate, RecordedAtKey, Entries;
    ToldIsRecorded(s.notes, t, text, author);
    ToldIsRecorded(Migrate(s, cooldowns).notes, t, text, author);
    SurvivorsAreExactlyKept(s, cooldowns, t, Entry(text, author));
    forall scope ensures Entry(text, author) in Entries(CommentsAt(s.notes, NoteKey(t, scope))) ==>
                           RecordedAtKey(s.notes, NoteKey(t, scope), Entry(text, author))
    {
      CommentIsRecord(s.notes, NoteKey(t, scope), Entry(text, author));
    }
  }

  lemma CommentIsRecord(notes: Notes, k: NoteKey, e: Entry)
    ensures e in Entries(CommentsAt(notes, k)) ==> RecordedAtKey(notes, k, e)
  {
  }

  /** The summary of a target note becomes a comment unless its comment id is in use. */
  lemma TargetNoteIsKept(s: Store, cooldowns: Cooldowns, t: Target, scope: string, text: string, author: string)
    requires NoteKey(t, scope) in s.notes && Says(s.notes[NoteKey(t, scope)].note, text, author)
    requires forall c :: c in s.notes[NoteKey(t, scope)].comments ==>
      c.id != "legacy-target-note-" + t.kind + "-" + scope
    ensures Told(Migrate(s, cooldowns).notes, t, text, author)
  {
    hide Told, Migrate, Entries, EntryOf;
    var k := NoteKey(t, scope);
    SaysIsEntry(s.notes[k].note, text, author);
    OwnIdText(k);
    assert !HasId(s.notes[k].comments, OwnId(k));
    assert RecordedAtKey(s.notes, k, Entry(text, author));
    SurvivorsAreExactlyKept(s, cooldowns, t, Entry(text, author));
    ToldIsRecorded(Migrate(s, cooldowns).notes, t, text, author);
  }

  lemma OwnIdText(k: NoteKey)
    ensures OwnId(k) == "legacy-target-note-" + k.target.kind + "-" + k.scope
  {
    assert "legacy-" + "target-note" + "-" == "legacy-target-note-";
  }

  lemma DocIdText(k: NoteKey)
    ensures DocId(k) == "legacy-" + k.target.kind + "-" + k.target.kind + "-" + k.scope
  {
  }

  /** The scope that legacy notes of a target go to: its cool-down, if there is one. */
  function ScopeOf(cooldowns: Cooldowns, t: Target): string {
    if (t.project, t.chip) in cooldowns then "cooldown:" + cooldowns[(t.project, t.chip)] else "global"
  }

  /** The first document of a target with a visible note is told afterwards, unless the comment id of documents is in
      use in the scope it goes to. */
  lemma FirstDocumentIsKept(s: Store, cooldowns: Cooldowns, t: Target, i: nat, text: string, author: string)
    requires i < |Documents(s, t)| && About(Documents(s, t)[i], t) && Says(Documents(s, t)[i].note, text, author)
    requires forall j :: 0 <= j < i && About(Documents(s, t)[j], t) ==> Strip(Documents(s, t)[j].note.content) == ""
    requires
      var k := NoteKey(t, ScopeOf(cooldowns, t));
      k in s.notes ==> forall c :: c in s.notes[k].comments ==>
        c.id != "legacy-" + t.kind + "-" + t.kind + "-" + k.scope
    ensures Told(Migrate(s, cooldowns).notes, t, text, author)
  {
    hide Told, Migrate, Entries, EntryOf, RecordedAtKey;
    var k, docs := CurrentKey(cooldowns, t), DocsOf(s, t.kind);
    assert k == NoteKey(t, ScopeOf(cooldowns, t));
    DocIdText(k);
    assert !HasId(CommentsAt(s.notes, k), DocId(k));
    SaysIsEntry(docs[i].note, text, author);
    NoNewsBefore(s.notes, k, docs, i);
    var e := Entry(text, author);
    if !RecordedAtKey(s.notes, k, e) {
      assert IsNews(s.notes, k, docs[i]);
      assert FirstNews(s.notes, k, docs, i + 1) == Some(e);
      FirstNewsStays(s.notes, k, docs, i + 1, |docs|);
    }
    SurvivorsAreExactlyKept(s, cooldowns, t, e);
    ToldIsRecorded(Migrate(s, cooldowns).notes, t, text, author);
  }

  lemma {:induction false} NoNewsBefore(notes: Notes, k: NoteKey, docs: seq<LegacyDoc>, n: nat)
    requires n <= |docs|
    requires forall j :: 0 <= j < n && About(docs[j], k.target) ==> Strip(docs[j].note.content) == ""
    ensures FirstNews(notes, k, docs, n) == None
  {
    hide RecordedAtKey, EntryOf;
    if n == 0 {
    } else {
      NoNewsBefore(notes, k, docs, n - 1);
    }
  }

  predicate DocumentSays(s: Store, t: Target, doc: LegacyDoc, text: string, author: string) {
    doc in Documents(s, t) && About(doc, t) && Says(doc.note, text, author)
  }

  /** Nothing about a target is lost where its documents agree in text and author and no comment has one of the ids that
      the migration hands out. */
  lemma NoTextIsLost(s: Store, cooldowns: Cooldowns, t: Target, text: string, author: string)
    requires forall a, b, x, y, u, v :: DocumentSays(s, t, a, x, u) && DocumentSays(s, t, b, y, v) ==> x == y && u == v
    requires forall scope, c :: NoteKey(t, scope) in s.notes && c in s.notes[NoteKey(t, scope)].comments ==>
      c.id != "legacy-target-note-" + t.kind + "-" + scope && c.id != "legacy-" + t.kind + "-" + t.kind + "-" + scope
    requires KnownBefore(s, t, text, author)
    ensures Told(Migrate(s, cooldowns).notes, t, text, author)
  {
    hide Told, Migrate, Says;
    if Told(s.notes, t, text, author) {
      CommentsAreKept(s, cooldowns, t, text, author);
    } else if scope :| NoteKey(t, scope) in s.notes && Says(s.notes[NoteKey(t, scope)].note, text, author) {
      TargetNoteIsKept(s, cooldowns, t, scope, text, author);
    } else {
      var doc :| DocumentSays(s, t, doc, text, author);
      forall a, x, u | a in Documents(s, t) && About(a, t) && Says(a.note, x, u) ensures x == text && u == author {
        assert DocumentSays(s, t, a, x, u);
      }
      var i := FirstVisible(Documents(s, t), t, doc, text, author);
      FirstDocumentIsKept(s, cooldowns, t, i, text, author);
    }
  }

  /** Where all visible documents of a target say the same, the first of them says it. */
  lemma FirstVisible(docs: seq<LegacyDoc>, t: Target, doc: LegacyDoc, text: string, author: string) returns (i: nat)
    requires doc in docs && About(doc, t) && Says(doc.note, text, author)
    requires forall a, x, u :: a in docs && About(a, t) && Says(a.note, x, u) ==> x == text && u == author
    ensures i < |docs| && About(docs[i], t) && Says(docs[i].note, text, author)
    ensures forall j :: 0 <= j < i && About(docs[j], t) ==> Strip(docs[j].note.content) == ""
  {
    i := 0;
    while !(About(docs[i], t) && Strip(docs[i].note.content) != "")
      invariant i < |docs| && exists j :: i <= j < |docs| && docs[j] == doc
      invariant forall j :: 0 <= j < i && About(docs[j], t) ==> Strip(docs[j].note.content) == ""
      decreases |docs| - i
    {
      i := i + 1;
    }
    assert Says(docs[i].note, Strip(docs[i].note.content),
                if docs[i].note.updatedBy == "" then "migration" else docs[i].note.updatedBy);
  }

  /** A comment stays where it is, unless it is in a global note of an earlier run and its id marks it as migrated. */
  lemma OtherCommentsStay(s: Store, cooldowns: Cooldowns, k: NoteKey, c: Comment)
    requires k in s.notes && c in s.notes[k].comments
    requires || k.scope != "global" || s.notes[k].source != "legacy_global"
             || !("legacy-" + k.target.kind + "-" + k.target.kind + "-global" <= c.id)
    ensures var after := Migrate(s, cooldowns).notes; k in after && c in after[k].comments
  {
    hide AddComment, MigrateDocs, Phase3, Relocate, Remaining, Moved;
    var phase1 := Phase1(s.notes);
    var qubitsDone := MigrateDocs(phase1, s.qubits, |s.qubits|, "qubit", cooldowns);
    var phase2 := Phase2(s, phase1, cooldowns);
    OwnNoteKeepsComments(s.notes, k, c);
    DocsKeepComments(phase1, s.qubits, |s.qubits|, "qubit", cooldowns, k, c);
    DocsKeepComments(qubitsDone, s.couplings, |s.couplings|, "coupling", cooldowns, k, c);
    Phase3Comments(phase2, cooldowns, k);
    RelocateAppendsOnce(CommentsAt(phase2, k), Moving(phase2, cooldowns, k.target), DocId(k));
    if k.scope == GLOBAL && s.notes[k].source != "legacy_global" {
      DocsKeepSource(phase1, s.qubits, |s.qubits|, "qubit", cooldowns, k);
      DocsKeepSource(qubitsDone, s.couplings, |s.couplings|, "coupling", cooldowns, k);
      OtherSourceNotMoved(phase2, cooldowns, k);
    } else if k.scope == GLOBAL {
      DocIdText(NoteKey(Target("", "", k.target.kind, ""), GLOBAL));
      UnmarkedRemains(CommentsAt(phase2, k), k.target.kind, c);
    }
    CurrentKeyNotGlobal(phase2, cooldowns, k);
  }

  lemma {:induction false} DocsKeepSource(notes: Notes, docs: seq<LegacyDoc>, n: nat, kind: string,
                                          cooldowns: Cooldowns, k: NoteKey)
    requires n <= |docs| && k in notes
    ensures k in MigrateDocs(notes, docs, n, kind, cooldowns)
    ensures MigrateDocs(notes, docs, n, kind, cooldowns)[k].source == notes[k].source
  {
    hide AddComment, CurrentKey, DocId, Blank;
    if n == 0 {
    } else {
      DocsKeepSource(notes, docs, n - 1, kind, cooldowns, k);
    }
  }

  lemma OtherSourceNotMoved(notes: Notes, cooldowns: Cooldowns, k: NoteKey)
    requires k in notes && k.scope == GLOBAL && notes[k].source != "legacy_global"
    ensures !Moved(notes, cooldowns, k.target)
  {
    hide CurrentKey;
    var current := CurrentKey(cooldowns, k.target);
    NothingRelocated(GetOrCreate(notes, current).comments, DocId(current));
  }

  lemma OwnNoteKeepsComments(notes: Notes, k: NoteKey, c: Comment)
    requires c in CommentsAt(notes, k)
    ensures c in CommentsAt(Phase1(notes), k)
  {
    hide EntryOf, HasId, Entries;
  }

  lemma UnmarkedRemains(comments: seq<Comment>, kind: string, c: Comment)
    requires c in comments && !(DocId(NoteKey(Target("", "", kind, ""), GLOBAL)) <= c.id)
    ensures c in Remaining(comments, kind)
  {
    hide LegacyId;
  }

  lemma {:induction false} DocsKeepComments(notes: Notes, docs: seq<LegacyDoc>, n: nat, kind: string,
                                            cooldowns: Cooldowns, k: NoteKey, c: Comment)
    requires n <= |docs| && c in CommentsAt(notes, k)
    ensures c in CommentsAt(MigrateDocs(notes, docs, n, kind, cooldowns), k)
  {
    hide CommentsAt, MigrateDoc, EntryOf, HasId, Entries;
    if n == 0 {
    } else {
      DocsKeepComments(notes, docs, n - 1, kind, cooldowns, k, c);
      OneDocAt(MigrateDocs(notes, docs, n - 1, kind, cooldowns), docs[n - 1], kind, cooldowns, k);
    }
  }

  // ---------------------------------------------------------------------
  // Single notes, with every field and id
  // ---------------------------------------------------------------------

  /** The store that holds one document and nothing else. */
  function Alone(doc: LegacyDoc, kind: string): Store {
    if kind == "qubit" then Store(map[], [doc], []) else Store(map[], [], [doc])
  }

  /** A document alone: its note becomes one comment in the scope of its cool-down and is cleared. */
  lemma OneDocument(doc: LegacyDoc, kind: string, cooldowns: Cooldowns)
    requires Strip(doc.note.content) != "" && (kind == "qubit" || kind == "coupling")
    ensures
      var t := Target(doc.project, doc.chip, kind, doc.qid);
      var scope := ScopeOf(cooldowns, t);
      var author := if doc.note.updatedBy == "" then "migration" else doc.note.updatedBy;
      var comment := Comment("legacy-" + kind + "-" + kind + "-" + scope, Strip(doc.note.content), author);
      var source := if (doc.project, doc.chip) in cooldowns then "current_cooldown" else "legacy_global";
      Migrate(Alone(doc, kind), cooldowns) ==
        Alone(doc.(note := Note("", "")), kind).(notes := map[NoteKey(t, scope) :=
          TargetNote(Note("", ""), [comment], source)])
  {
    hide AddComment, Phase2, Phase3, Entries;
    var t := TargetOf(doc, kind);
    var k := CurrentKey(cooldowns, t);
    DocIdText(k);
    OneDocumentPhase2(doc, kind, cooldowns);
    var comment := Comment(DocId(k), EntryOf(doc.note).content, EntryOf(doc.note).author);
    StayingPut(k, TargetNote(EMPTY_NOTE, [comment], ScopeSource(k.scope)), cooldowns);
    assert Phase1(map[]) == map[];
    assert ClearNotes([doc]) == [ClearNote(doc)] && ClearNotes([]) == [];
    CooldownScope(cooldowns, t);
  }

  lemma CooldownScope(cooldowns: Cooldowns, t: Target)
    ensures CurrentKey(cooldowns, t) == NoteKey(t, ScopeOf(cooldowns, t))
    ensures ScopeSource(CurrentKey(cooldowns, t).scope) ==
      if (t.project, t.chip) in cooldowns then "current_cooldown" else "legacy_global"
  {
    assert forall d: string :: ("cooldown:" + d)[0] == 'c';
    assert "global"[0] == 'g';
  }

  /** A single target note under the key for legacy notes is left where it is. */
  lemma StayingPut(k: NoteKey, note: TargetNote, cooldowns: Cooldowns)
    requires k == CurrentKey(cooldowns, k.target)
    ensures Phase3(map[k := note], cooldowns) == map[k := note]
  {
    hide Phase3;
    var notes := map[k := note];
    forall t ensures !Moved(notes, cooldowns, t) {
      NothingMoving(notes, k, cooldowns, t);
      NothingRelocated(GetOrCreate(notes, CurrentKey(cooldowns, t)).comments, DocId(CurrentKey(cooldowns, t)));
    }
    NothingToMove(notes, cooldowns);
  }

  lemma NothingMoving(notes: Notes, k: NoteKey, cooldowns: Cooldowns, t: Target)
    requires notes.Keys == {k} && k == CurrentKey(cooldowns, k.target)
    ensures Moving(notes, cooldowns, t) == []
  {
  }

  lemma OneDocumentPhase2(doc: LegacyDoc, kind: string, cooldowns: Cooldowns)
    requires !Blank(doc.note) && (kind == "qubit" || kind == "coupling")
    ensures
      var k := CurrentKey(cooldowns, TargetOf(doc, kind));
      var comment := Comment(DocId(k), EntryOf(doc.note).content, EntryOf(doc.note).author);
      Phase2(Alone(doc, kind), map[], cooldowns) == map[k := TargetNote(EMPTY_NOTE, [comment], ScopeSource(k.scope))]
  {
    hide EntryOf, DocId, Blank, CurrentKey, ScopeSource;
    assert MigrateDocs(map[], [doc], 0, kind, cooldowns) == map[];
    assert MigrateDocs(map[], [], 0, "qubit", cooldowns) == map[];
    FirstComment(DocId(CurrentKey(cooldowns, TargetOf(doc, kind))), doc.note);
    hide AddComment;
    assert MigrateDocs(map[], [doc], 1, kind, cooldowns) == MigrateDoc(map[], doc, kind, cooldowns);
  }

  lemma FirstComment(id: string, note: Note)
    requires !Blank(note)
    ensures AddComment([], id, note) == [Comment(id, EntryOf(note).content, EntryOf(note).author)]
  {
  }

  /** A target note alone, without a cool-down of its chip: its summary becomes its first comment and is cleared. */
  lemma OneTargetNote(k: NoteKey, note: Note, source: string, cooldowns: Cooldowns)
    requires Strip(note.content) != "" && k == NoteKey(k.target, ScopeOf(cooldowns, k.target))
    ensures
      var author := if note.updatedBy == "" then "migration" else note.updatedBy;
      var comment := Comment("legacy-target-note-" + k.target.kind + "-" + k.scope, Strip(note.content), author);
      Migrate(Store(map[k := TargetNote(note, [], source)], [], []), cooldowns) ==
        Store(map[k := TargetNote(Note("", ""), [comment], source)], [], [])
  {
    hide AddComment, Phase2, Phase3, Entries;
    OwnIdText(k);
    FirstComment(OwnId(k), note);
    CooldownScope(cooldowns, k.target);
    var comment := Comment(OwnId(k), EntryOf(note).content, EntryOf(note).author);
    assert Phase1(map[k := TargetNote(note, [], source)]) == map[k := TargetNote(EMPTY_NOTE, [comment], source)];
    NoDocuments(map[k := TargetNote(EMPTY_NOTE, [comment], source)], cooldowns);
    StayingPut(k, TargetNote(EMPTY_NOTE, [comment], source), cooldowns);
    assert ClearNotes([]) == [];
  }

  lemma NoDocuments(notes: Notes, cooldowns: Cooldowns)
    ensures forall s: Store :: s.qubits == [] && s.couplings == [] ==> Phase2(s, notes, cooldowns) == notes
  {
    assert MigrateDocs(notes, [], 0, "qubit", cooldowns) == notes;
    assert MigrateDocs(notes, [], 0, "coupling", cooldowns) == notes;
  }

  /** A comment that an earlier run left in the global scope moves to the cool-down of its chip and gets the id for that
      scope; the global note, with nothing left in it, is deleted. */
  lemma OneGlobalComment(t: Target, old_: Comment, cooldowns: Cooldowns)
    requires (t.project, t.chip) in cooldowns && "legacy-" + t.kind + "-" + t.kind + "-global" <= old_.id
    ensures
      var scope := ScopeOf(cooldowns, t);
      Migrate(Store(map[NoteKey(t, "global") := TargetNote(Note("", ""), [old_], "legacy_global")], [], []),
        cooldowns) ==
        Store(map[NoteKey(t, scope) :=
          TargetNote(Note("", ""), [old_.(id := "legacy-" + t.kind + "-" + t.kind + "-" + scope)], "current_cooldown")],
          [], [])
  {
    hide Phase2, Phase3, Entries, LegacyId;
    var g, k := NoteKey(t, "global"), CurrentKey(cooldowns, t);
    var notes := map[g := TargetNote(EMPTY_NOTE, [old_], "legacy_global")];
    CooldownScope(cooldowns, t);
    DocIdText(g);
    DocIdText(k);
    assert Blank(EMPTY_NOTE);
    assert AllBlank(notes);
    AllBlankAfterPhase1(notes);
    NoDocuments(notes, cooldowns);
    OneCommentMoves(notes, t, old_, cooldowns);
    assert ClearNotes([]) == [];
  }

  lemma OneCommentMoves(notes: Notes, t: Target, comment: Comment, cooldowns: Cooldowns)
    requires (t.project, t.chip) in cooldowns && DocId(NoteKey(t, GLOBAL)) <= comment.id
    requires notes == map[NoteKey(t, GLOBAL) := TargetNote(EMPTY_NOTE, [comment], "legacy_global")]
    ensures
      var k := CurrentKey(cooldowns, t);
      Phase3(notes, cooldowns) == map[k := TargetNote(EMPTY_NOTE, [comment.(id := DocId(k))], ScopeSource(k.scope))]
  {
    hide Blank;
    var g, k := NoteKey(t, GLOBAL), CurrentKey(cooldowns, t);
    CooldownScope(cooldowns, t);
    OneMigrated(comment, t.kind);
    assert Moving(notes, cooldowns, t) == [comment];
    OneRelocated(comment, DocId(k));
    assert Moved(notes, cooldowns, t);
    EmptyNoteIsBlank();
    assert Keys3(notes, cooldowns) == {k};
  }

  lemma EmptyNoteIsBlank()
    ensures Blank(EMPTY_NOTE)
  {
  }

  lemma FilterOne<T(!new)>(keep: T -> bool, x: T)
    ensures Filter(keep, [x]) == if keep(x) then [x] else []
  {
    assert [x][..0] == [] && Filter(keep, []) == [];
  }

  lemma OneMigrated(c: Comment, kind: string)
    requires IsMigrated(c, kind)
    ensures Migrated([c], kind) == [c] && Remaining([c], kind) == []
  {
    hide IsMigrated, Filter;
    FilterOne(c => IsMigrated(c, kind), c);
    FilterOne(c => !IsMigrated(c, kind), c);
  }

  lemma OneRelocated(c: Comment, id: string)
    ensures Relocate([], [c], id) == [c.(id := id)]
  {
    NothingRelocated([], id);
    assert [c][..0] == [];
  }
}

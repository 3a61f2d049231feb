/** Exporting a case and parsing it again. */
module CaseRoundTrip {
  import opened Common
  import opened Text
  import opened CaseFormat
  import opened CaseItems

  // ---------------------------------------------------------------------
  // Sections
  // ---------------------------------------------------------------------

  lemma {:induction false} JoinSnoc(lines: seq<string>, l: string)
    requires lines != []
    ensures Join(lines + [l]) == Join(lines) + "\n" + l
  {
    if |lines| == 1 {
      assert (lines + [l])[1..] == [l];
    } else {
      JoinSnoc(lines[1..], l);
      assert (lines + [l])[1..] == lines[1..] + [l];
    }
  }

  /** The blank lines around a section body disappear when it is stripped. */
  lemma StripJoinPadded(lines: seq<string>)
    requires lines != []
    ensures Strip(Join([""] + lines + [""])) == Strip(Join(lines))
  {
    JoinSnoc([""] + lines, "");
    assert ([""] + lines)[1..] == lines;
    assert Join([""] + lines) == "" + "\n" + Join(lines);
    assert Join([""] + lines + [""]) == "\n" + Join(lines) + "\n";
    StripIgnoresPadding("\n", Join(lines), "\n");
  }

  predicate StartsAtHeading(lines: seq<string>) {
    lines == [] || IsH2(lines[0])
  }

  predicate NoHeadingLine(lines: seq<string>) {
    forall l :: l in lines ==> !IsH2(l)
  }

  lemma SectionsStep(head: string, body: seq<string>, rest: seq<string>)
    requires IsH2(head) && NoHeadingLine(body) && StartsAtHeading(rest)
    ensures Sections([head] + body + rest) == map[Heading(head) := Strip(Join(body))] + Sections(rest)
  {
    var lines := [head] + body + rest;
    assert lines[1..] == body + rest;
    assert forall i :: 0 <= i < |body| ==> (body + rest)[i] == body[i];
    FindIs(IsH2, lines[1..], |body|);
    assert lines[1..1 + |body|] == body;
    assert lines[1 + |body|..] == rest;
  }

  predicate PlainHeading(heading: string) {
    OneLine(heading) && Trimmed(heading)
  }

  function SectionMap(heading: string, body: seq<string>): map<string, string> {
    if body == [] then map[] else map[Lower(heading) := Strip(Join(Expand(body)))]
  }

  lemma {:induction false} ExpandNonempty(lines: seq<string>)
    ensures Expand(lines) == [] <==> lines == []
  {
  }

  lemma ExpandBlock(heading: string, body: seq<string>)
    requires PlainHeading(heading) && body != []
    ensures Expand(Block(heading, body)) == ["## " + heading] + ([""] + Expand(body) + [""])
  {
    ExpandConcat(["## " + heading, ""] + body, [""]);
    ExpandConcat(["## " + heading, ""], body);
    ExpandOneLines(["## " + heading, ""]);
    ExpandOneLines([""]);
  }

  /** A printed section is read back as one entry, whatever sections follow it. */
  lemma SectionsOfBlock(heading: string, body: seq<string>, rest: seq<string>)
    requires PlainHeading(heading) && NoHeadingLine(Expand(body)) && StartsAtHeading(rest)
    ensures StartsAtHeading(Expand(Block(heading, body)) + rest)
    ensures Sections(Expand(Block(heading, body)) + rest) == SectionMap(heading, body) + Sections(rest)
  {
    if body == [] {
      assert Expand(Block(heading, body)) + rest == rest;
    } else {
      ExpandBlock(heading, body);
      var head := "## " + heading;
      SectionsStep(head, [""] + Expand(body) + [""], rest);
      ExpandNonempty(body);
      StripJoinPadded(Expand(body));
      HeadingOf(heading);
      assert Expand(Block(heading, body)) + rest == [head] + ([""] + Expand(body) + [""]) + rest;
    }
  }

  lemma HeadingOf(heading: string)
    requires Trimmed(heading)
    ensures Heading("## " + heading) == Lower(heading)
  {
    assert ("## " + heading)[3..] == heading;
    StripPadded("", heading, "");
    assert "" + heading + "" == heading;
  }

  lemma {:induction false} LessonBodyLines(lessons: seq<string>)
    requires AllOneLine(lessons)
    ensures AllOneLine(LessonBody(lessons)) && NoHeadingLine(LessonBody(lessons))
  {
    if lessons == [] {
    } else {
      assert lessons[0] in lessons;
      assert ("- " + lessons[0])[0] == '-';
      LessonBodyLines(lessons[1..]);
    }
  }

  lemma {:induction false} ImageLinesPlain(alt: string, urls: seq<string>)
    requires OneLine(alt) && AllOneLine(urls)
    ensures AllOneLine(ImageLines(alt, urls)) && NoHeadingLine(ImageLines(alt, urls))
  {
    if urls == [] {
    } else {
      assert urls[0] in urls;
      assert ("![" + alt + "](" + urls[0] + ")")[0] == '!';
      ImageLinesPlain(alt, urls[1..]);
    }
  }

  lemma LessonSection(lessons: seq<string>)
    requires AllOneLine(lessons) && lessons != []
    ensures ParseListItems(Strip(Join(Expand(LessonBody(lessons))))) == NormalLessons(lessons)
  {
    var body := LessonBody(lessons);
    LessonBodyLines(lessons);
    ExpandOneLines(body);
    ListItemsOfStripped(Join(body));
    SplitJoin(body);
    LessonItems(lessons);
  }

  predicate PlainParts(parts: seq<(string, seq<string>)>) {
    forall i :: 0 <= i < |parts| ==> PlainHeading(parts[i].0) && NoHeadingLine(Expand(parts[i].1))
  }

  predicate DifferentHeadings(parts: seq<(string, seq<string>)>) {
    forall i, j :: 0 <= i < j < |parts| ==> Lower(parts[i].0) != Lower(parts[j].0)
  }

  function PartsMap(parts: seq<(string, seq<string>)>): map<string, string> {
    if parts == [] then map[] else SectionMap(parts[0].0, parts[0].1) + PartsMap(parts[1..])
  }

  /** Printed sections are read back as the map of their headings to their stripped bodies. */
  lemma {:induction false} SectionsOfBlocks(parts: seq<(string, seq<string>)>)
    requires PlainParts(parts)
    ensures StartsAtHeading(Expand(Blocks(parts)))
    ensures Sections(Expand(Blocks(parts))) == PartsMap(parts)
  {
    if parts == [] {
    } else {
      var (heading, body) := parts[0];
      SectionsOfBlocks(parts[1..]);
      ExpandConcat(Block(heading, body), Blocks(parts[1..]));
      SectionsOfBlock(heading, body, Expand(Blocks(parts[1..])));
    }
  }

  lemma {:induction false} PartsMapKeys(parts: seq<(string, seq<string>)>, key: string)
    ensures key in PartsMap(parts) ==> exists i :: 0 <= i < |parts| && Lower(parts[i].0) == key
  {
    if parts == [] {
    } else {
      PartsMapKeys(parts[1..], key);
      if key in PartsMap(parts[1..]) {
        var i :| 0 <= i < |parts| - 1 && Lower(parts[1..][i].0) == key;
        assert Lower(parts[i + 1].0) == key;
      } else if key in PartsMap(parts) {
        assert Lower(parts[0].0) == key;
      }
    }
  }

  /** Each heading finds its own body. */
  lemma {:induction false} PartFound(parts: seq<(string, seq<string>)>, k: nat)
    requires DifferentHeadings(parts) && k < |parts|
    ensures var (heading, body) := parts[k];
            && (Lower(heading) in PartsMap(parts) <==> body != [])
            && (body != [] ==> PartsMap(parts)[Lower(heading)] == Strip(Join(Expand(body))))
  {
    if k == 0 {
      PartsMapKeys(parts[1..], Lower(parts[0].0));
    } else {
      assert parts[1..][k - 1] == parts[k];
      PartFound(parts[1..], k - 1);
    }
  }

  // ---------------------------------------------------------------------
  // The round trip
  // ---------------------------------------------------------------------

  predicate PlainPairs(pairs: seq<(string, string)>) {
    && (forall i :: 0 <= i < |pairs| ==> PlainKey(pairs[i].0))
    && (forall i, j :: 0 <= i < j < |pairs| ==> pairs[i].0 != pairs[j].0)
  }

  /** What reading the printed metadata adds to what was known before. */
  lemma {:induction false} MetaFound(pairs: seq<(string, string)>, m: map<string, string>, key: string)
    requires PlainPairs(pairs)
    ensures var r := AddAllMeta(m, MetaLines(pairs));
            && ((forall i :: 0 <= i < |pairs| ==> pairs[i].0 != key || pairs[i].1 == "" || key !in META_KEYS) ==>
                 (key in r <==> key in m) && (key in m ==> r[key] == m[key]))
            && (forall i :: 0 <= i < |pairs| && pairs[i].0 == key && pairs[i].1 != "" && key in META_KEYS ==>
                 key in r && r[key] == Strip(pairs[i].1))
  {
    if pairs == [] {
    } else {
      hide AddAllMeta, MetaLine, Strip, PlainKey;
      var (k, value) := pairs[0];
      MetaLineAdds(m, k, value);
      AddAllMetaConcat(m, MetaLine(k, value), MetaLines(pairs[1..]));
      MetaFound(pairs[1..], AddAllMeta(m, MetaLine(k, value)), key);
    }
  }

  /** A printed value is read back stripped; an empty one gives the default. */
  lemma PairRead(pairs: seq<(string, string)>, k: nat, default: string)
    requires PlainPairs(pairs) && k < |pairs| && pairs[k].0 in META_KEYS
    ensures Get(AddAllMeta(map[], [""] + (MetaLines(pairs) + [""])), pairs[k].0, default)
         == if pairs[k].1 == "" then default else Strip(pairs[k].1)
  {
    var key := pairs[k].0;
    var lines := MetaLines(pairs);
    AddAllMetaConcat(map[], [""], lines + [""]);
    BlankAddsNothing(map[]);
    AddAllMetaConcat(map[], lines, [""]);
    BlankAddsNothing(AddAllMeta(map[], lines));
    MetaFound(pairs, map[], key);
  }

  lemma {:induction false} MetaLinesPlain(pairs: seq<(string, string)>)
    requires forall i :: 0 <= i < |pairs| ==> OneLine(pairs[i].0) && OneLine(pairs[i].1)
    ensures AllOneLine(MetaLines(pairs)) && NoHeadingLine(MetaLines(pairs))
  {
    if pairs == [] {
    } else {
      MetaLinesPlain(pairs[1..]);
      assert ("- " + pairs[0].0 + ": " + pairs[0].1)[0] == '-';
    }
  }

  lemma HeadPlain(c: Case)
    requires OneLineCase(c)
    ensures Expand(Head(c)) == Head(c) && NoHeadingLine(Head(c))
  {
    var values := [c.title, c.date, c.severity, c.chipId, c.qid, c.status, c.issueId];
    assert forall i :: 0 <= i < |values| ==> values[i] in values;
    assert values[0] == c.title;
    forall i | 0 <= i < |Pairs(c)| ensures OneLine(Pairs(c)[i].1) {
      assert Pairs(c)[i].1 == values[i + 1];
    }
    MetaLinesPlain(Pairs(c));
    assert ("# " + c.title)[1] == ' ';
    ExpandOneLines(Head(c));
  }

  /** The first section of a list of lines and what follows it. */
  lemma FirstSection(lines: seq<string>) returns (body: seq<string>, rest: seq<string>)
    requires lines != []
    ensures lines == [lines[0]] + body + rest
    ensures NoHeadingLine(body) && StartsAtHeading(rest)
  {
    var k := Find(IsH2, lines[1..]);
    body, rest := lines[1..1 + k], lines[1 + k..];
    forall l | l in body ensures !IsH2(l) {
      var i :| 0 <= i < k && body[i] == l;
      assert lines[1..][i] == l;
    }
    assert rest != [] ==> rest[0] == lines[1..][k];
  }

  lemma TrailingAfterLast(head: string, body: seq<string>)
    requires IsH2(head) && NoHeadingLine(body)
    ensures Sections([head] + body + [""]) == Sections([head] + body)
  {
    hide Heading;
    SectionsStep(head, body, []);
    SectionsStep(head, body + [""], []);
    StripBlankEnd(body);
    assert [head] + body + [""] == [head] + (body + [""]) + [];
    assert [head] + body == [head] + body + [];
  }

  lemma TrailingAfterMore(head: string, body: seq<string>, rest: seq<string>)
    requires IsH2(head) && NoHeadingLine(body) && rest != [] && StartsAtHeading(rest)
    requires Sections(rest + [""]) == Sections(rest)
    ensures Sections([head] + body + rest + [""]) == Sections([head] + body + rest)
  {
    hide Join, Heading;
    SectionsStep(head, body, rest);
    SectionsStep(head, body, rest + [""]);
    assert [head] + body + rest + [""] == [head] + body + (rest + [""]);
  }

  lemma {:induction false} SectionsTrailing(lines: seq<string>)
    requires StartsAtHeading(lines) && lines != []
    ensures StartsAtHeading(lines + [""])
    ensures Sections(lines + [""]) == Sections(lines)
    decreases |lines|
  {
    var body, rest := FirstSection(lines);
    if rest == [] {
      TrailingAfterLast(lines[0], body);
      assert lines == [lines[0]] + body;
    } else {
      SectionsTrailing(rest);
      TrailingAfterMore(lines[0], body, rest);
    }
  }

  lemma StripBlankEnd(lines: seq<string>)
    ensures Strip(Join(lines + [""])) == Strip(Join(lines))
  {
    if lines == [] {
      assert lines + [""] == [""];
    } else {
      JoinSnoc(lines, "");
      StripIgnoresPadding("", Join(lines), "\n");
      assert "" + Join(lines) + "\n" == Join(lines) + "\n" + "";
    }
  }

  lemma FindTrailing(p: string -> bool, lines: seq<string>)
    requires !p("")
    ensures Find(p, lines + [""]) == if Find(p, lines) < |lines| then Find(p, lines) else |lines| + 1
  {
    var k := Find(p, lines);
    assert forall i :: 0 <= i < |lines| ==> (lines + [""])[i] == lines[i];
    FindIs(p, lines + [""], if k < |lines| then k else |lines| + 1);
  }

  lemma MetaBlankEnd(m: map<string, string>, lines: seq<string>, longer: seq<string>)
    requires longer == lines || longer == lines + [""]
    ensures AddAllMeta(m, longer) == AddAllMeta(m, lines)
  {
    if longer != lines {
      AddAllMetaConcat(m, lines, [""]);
      BlankAddsNothing(AddAllMeta(m, lines));
    }
  }

  lemma MetaTrailing(lines: seq<string>, from: nat)
    requires from <= |lines|
    ensures MetaSlice(lines + [""], from) in {MetaSlice(lines, from), MetaSlice(lines, from) + [""]}
  {
    FindTrailing(IsH2, lines);
    var first := Find(IsH2, lines);
    if first < |lines| {
      assert Slice(lines + [""], from, first) == Slice(lines, from, first);
    } else {
      assert Slice(lines + [""], from, |lines| + 1) == Slice(lines, from, |lines|) + [""];
    }
  }

  lemma TailTrailing(lines: seq<string>)
    ensures Sections((lines + [""])[Find(IsH2, lines + [""])..]) == Sections(lines[Find(IsH2, lines)..])
  {
    FindTrailing(IsH2, lines);
    var first := Find(IsH2, lines);
    if first < |lines| {
      SectionsTrailing(lines[first..]);
      assert (lines + [""])[first..] == lines[first..] + [""];
    }
  }

  lemma TrailingBlankOutline(lines: seq<string>)
    ensures Outline(lines + [""]) == Outline(lines)
  {
    hide AddAllMeta, Sections, Find, Slice, StripLeft, StripRight;
    FindTrailing(IsH1, lines);
    var title := Find(IsH1, lines);
    if title < |lines| {
      MetaTrailing(lines, title + 1);
      MetaBlankEnd(map[], MetaSlice(lines, title + 1), MetaSlice(lines + [""], title + 1));
      TailTrailing(lines);
    }
  }

  /** A blank line at the end of a file changes nothing that is read from it. */
  lemma TrailingBlankLine(lines: seq<string>)
    ensures ParseLines(lines + [""]) == ParseLines(lines)
  {
    TrailingBlankOutline(lines);
  }

  lemma ParseOfSplit(text: string)
    ensures Parse(text) == ParseLines(Split(text))
  {
    var all := Split(text);
    var front := all[..|all| - 1];
    if all[|all| - 1] == "" {
      TrailingBlankLine(front);
      assert all == front + [""];
    }
  }

  /** The lines the parser sees are the printed ones. */
  lemma PrintedLines(c: Case)
    requires OneLineCase(c)
    ensures Parse(Render(c)) == ParseLines(Head(c) + Expand(Blocks(Parts(c))))
  {
    var head, tail := Head(c), Blocks(Parts(c));
    SplitJoin(head + tail);
    ExpandConcat(head, tail);
    HeadPlain(c);
    ParseOfSplit(Render(c));
  }

  lemma HeadMetadata(c: Case)
    ensures AddAllMeta(map[], Head(c)[1..]) == AddAllMeta(map[], [""] + (MetaLines(Pairs(c)) + [""]))
  {
    var meta, head := MetaLines(Pairs(c)), Head(c);
    if meta == [] {
      assert head[1..] == [""];
      assert [""] + (meta + [""]) == [""] + [""];
      AddAllMetaConcat(map[], [""], [""]);
      BlankAddsNothing(map[]);
    } else {
      assert head[1..] == [""] + (meta + [""]);
    }
  }

  lemma HeadLookups(head: seq<string>, title: string, tail: seq<string>)
    requires head != [] && head[0] == "# " + title && NoHeadingLine(head) && StartsAtHeading(tail)
    ensures Find(IsH1, head + tail) == 0
    ensures Find(IsH2, head + tail) == |head|
    ensures (head + tail)[0][2..] == title
  {
    var lines := head + tail;
    assert forall i :: 0 <= i < |head| ==> lines[i] == head[i];
    assert lines[0][1] == ' ';
    FindIs(IsH1, lines, 0);
    FindIs(IsH2, lines, |head|);
  }

  lemma ParseHeadAndTail(c: Case, tail: seq<string>)
    requires OneLineCase(c) && StartsAtHeading(tail)
    ensures ParseLines(Head(c) + tail)
         == Some(Assemble(Strip(c.title), AddAllMeta(map[], [""] + (MetaLines(Pairs(c)) + [""])), Sections(tail)))
  {
    HeadPlain(c);
    HeadLookups(Head(c), c.title, tail);
    HeadMetadata(c);
    assert (Head(c) + tail)[|Head(c)|..] == tail;
    assert MetaSlice(Head(c) + tail, 1) == Head(c)[1..];
  }

  lemma DateKeysPlain()
    ensures PlainKey("date") && PlainKey("severity") && PlainKey("status")
  {
  }

  lemma IdKeysPlain()
    ensures PlainKey("chip_id") && PlainKey("qid") && PlainKey("issue_id")
  {
  }

  lemma KeysArePlain(c: Case)
    ensures PlainPairs(Pairs(c))
  {
    DateKeysPlain();
    IdKeysPlain();
    assert |"date"| == 4 && |"qid"| == 3 && |"status"| == 6 && |"chip_id"| == 7;
    assert |"severity"| == |"issue_id"| == 8 && "severity"[0] == 's' && "issue_id"[0] == 'i';
  }

  lemma MetaRead(c: Case)
    ensures var m := AddAllMeta(map[], [""] + (MetaLines(Pairs(c)) + [""]));
            && Get(m, "date", "") == Strip(c.date)
            && Get(m, "severity", "warning") == (if c.severity == "" then "warning" else Strip(c.severity))
            && Get(m, "chip_id", "") == Strip(c.chipId)
            && Get(m, "qid", "") == Strip(c.qid)
            && Get(m, "status", "resolved") == (if c.status == "" then "resolved" else Strip(c.status))
  {
    KeysArePlain(c);
    PairRead(Pairs(c), 0, "");
    PairRead(Pairs(c), 1, "warning");
    PairRead(Pairs(c), 2, "");
    PairRead(Pairs(c), 3, "");
    PairRead(Pairs(c), 4, "resolved");
  }

  lemma LoweredHeadings()
    ensures Lower("Symptom") == "symptom" && Lower("Root cause") == "root cause"
    ensures Lower("Resolution") == "resolution" && Lower("Lesson learned") == "lesson learned"
    ensures Lower("Images") == "images"
  {
    assert Lower("Symptom") == "symptom";
    assert Lower("Root cause") == "root cause";
    assert Lower("Resolution") == "resolution";
    assert Lower("Lesson learned") == "lesson learned";
    assert Lower("Images") == "images";
  }

  lemma PartsDiffer(parts: seq<(string, seq<string>)>)
    requires |parts| == 5
    requires parts[0].0 == "Symptom" && parts[1].0 == "Root cause" && parts[2].0 == "Resolution"
    requires parts[3].0 == "Lesson learned" && parts[4].0 == "Images"
    ensures DifferentHeadings(parts)
  {
    LoweredHeadings();
    assert "symptom"[0] == 's' && "root cause"[1] == 'o' && "resolution"[1] == 'e';
    assert "lesson learned"[0] == 'l' && "images"[0] == 'i' && |"root cause"| == |"resolution"|;
  }

  lemma ListBodiesPlain(c: Case)
    requires OneLineCase(c)
    ensures NoHeadingLine(Expand(LessonBody(c.lessons))) && NoHeadingLine(Expand(ImageBody(c)))
  {
    LessonBodyLines(c.lessons);
    ExpandOneLines(LessonBody(c.lessons));
    ImageLinesPlain("Task figure", c.figurePaths);
    ImageLinesPlain("Thread image", c.imageUrls);
    ExpandOneLines(ImageBody(c));
  }

  lemma TextPlain(text: string)
    requires NoHeading(text)
    ensures NoHeadingLine(Expand(TextBody(text)))
  {
    if text != "" {
      assert [text][1..] == [];
      assert Expand([text]) == Split(text);
    }
  }

  lemma PlainHeadings()
    ensures PlainHeading("Symptom") && PlainHeading("Root cause") && PlainHeading("Resolution")
    ensures PlainHeading("Lesson learned") && PlainHeading("Images")
  {
  }

  lemma PartsPlain(c: Case)
    requires Printable(c)
    ensures PlainParts(Parts(c)) && DifferentHeadings(Parts(c))
  {
    hide PlainHeading, DifferentHeadings, NoHeadingLine, NoHeading, OneLineCase, Expand, TextBody, LessonBody,
      ImageBody;
    PlainHeadings();
    TextPlain(c.symptom);
    TextPlain(c.rootCause);
    TextPlain(c.resolution);
    ListBodiesPlain(c);
    PartsDiffer(Parts(c));
  }

  lemma TextRead(parts: seq<(string, seq<string>)>, k: nat, heading: string, text: string)
    requires DifferentHeadings(parts) && k < |parts| && parts[k].0 == heading && parts[k].1 == TextBody(text)
    ensures Get(PartsMap(parts), Lower(heading), "") == Strip(text)
  {
    PartFound(parts, k);
    if text != "" {
      assert [text][1..] == [];
      assert Expand([text]) == Split(text);
      JoinSplit(text);
    }
  }

  lemma LessonsRead(c: Case)
    requires DifferentHeadings(Parts(c)) && AllOneLine(c.lessons)
    ensures LessonsOf(PartsMap(Parts(c))) == NormalLessons(c.lessons)
  {
    PartFound(Parts(c), 3);
    LoweredHeadings();
    if c.lessons != [] {
      LessonSection(c.lessons);
    }
  }

  lemma SectionsRead(c: Case)
    requires Printable(c)
    ensures StartsAtHeading(Expand(Blocks(Parts(c))))
    ensures var m := Sections(Expand(Blocks(Parts(c))));
            && Get(m, "symptom", "") == Strip(c.symptom)
            && Get(m, "root cause", "") == Strip(c.rootCause)
            && Get(m, "resolution", "") == Strip(c.resolution)
            && LessonsOf(m) == NormalLessons(c.lessons)
  {
    PartsPlain(c);
    SectionsOfBlocks(Parts(c));
    TextRead(Parts(c), 0, "Symptom", c.symptom);
    TextRead(Parts(c), 1, "Root cause", c.rootCause);
    TextRead(Parts(c), 2, "Resolution", c.resolution);
    LessonsRead(c);
    LoweredHeadings();
  }

  /** Export then parse gives every printable case back in normal form: values stripped, blank lessons dropped,
      and a missing severity or status replaced by its default. */
  lemma ParseRender(c: Case)
    requires Printable(c)
    ensures Parse(Render(c)) == Some(Normalised(c))
  {
    PrintedLines(c);
    SectionsRead(c);
    ParseHeadAndTail(c, Expand(Blocks(Parts(c))));
    MetaRead(c);
  }

  lemma {:induction false} NormalLessonsSame(lessons: seq<string>)
    ensures |NormalLessons(lessons)| <= |lessons|
    ensures NormalLessons(lessons) == lessons <==> forall l :: l in lessons ==> PlainLesson(l)
  {
    if lessons == [] {
    } else {
      var l := lessons[0];
      NormalLessonsSame(lessons[1..]);
      StripRightTrims(l);
      assert lessons == [l] + lessons[1..];
      if AllSpace(l) {
        assert !PlainLesson(l) && l in lessons;
      } else if PlainLesson(l) {
        assert StripRight(l) == l;
      } else {
        StripRightBlank(l);
        assert NormalLessons(lessons)[0] != l;
      }
    }
  }

  lemma PrintableRoundTrip(c: Case)
    requires Printable(c)
    ensures Parse(Render(c)) == Some(Fields(c)) <==> Faithful(c)
  {
    ParseRender(c);
    StripSame(c.title);
    StripSame(c.date);
    StripSame(c.severity);
    StripSame(c.chipId);
    StripSame(c.qid);
    StripSame(c.status);
    StripSame(c.symptom);
    StripSame(c.rootCause);
    StripSame(c.resolution);
    NormalLessonsSame(c.lessons);
  }
}

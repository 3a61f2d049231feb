/** What a heading inside a body, or a second export, does to a case. */
module CaseHeadings {
  import opened Common
  import opened Text
  import opened CaseFormat
  import opened CaseRoundTrip

  // ---------------------------------------------------------------------
  // A heading inside a body always loses text
  // ---------------------------------------------------------------------

  /** The visible characters outside headings. */
  function VisibleBody(lines: seq<string>): nat {
    if lines == [] then 0 else (if IsH2(lines[0]) then 0 else Visible(lines[0])) + VisibleBody(lines[1..])
  }

  lemma {:induction false} VisibleStripLeft(s: string)
    ensures Visible(StripLeft(s)) == Visible(s)
  {
    if s == "" || !IsSpace(s[0]) {
    } else {
      VisibleStripLeft(s[1..]);
    }
  }

  lemma VisibleStrip(s: string)
    ensures Visible(Strip(s)) == Visible(s)
  {
    VisibleStripLeft(s);
    var w := StripRightSplit(StripLeft(s));
    VisibleConcat(Strip(s), w);
    VisibleBlank(w);
  }

  lemma {:induction false} VisibleJoin(lines: seq<string>)
    ensures Visible(Join(lines)) == VisibleLines(lines)
  {
    if |lines| == 1 {
      assert VisibleLines(lines[1..]) == 0;
    } else if lines != [] {
      VisibleJoin(lines[1..]);
      VisibleConcat(lines[0] + "\n", Join(lines[1..]));
      VisibleConcat(lines[0], "\n");
      VisibleBlank("\n");
    }
  }

  /** Leaving out the headings keeps everything visible exactly when there are none. */
  lemma {:induction false} VisibleBodyIff(lines: seq<string>)
    ensures VisibleBody(lines) <= VisibleLines(lines)
    ensures VisibleBody(lines) == VisibleLines(lines) <==> NoHeadingLine(lines)
  {
    if lines == [] {
    } else {
      VisibleBodyIff(lines[1..]);
      assert lines == [lines[0]] + lines[1..];
      if IsH2(lines[0]) {
        assert lines[0][0] == '#';
        assert Visible(lines[0]) >= 1;
        assert lines[0] in lines;
      }
    }
  }

  lemma {:induction false} VisibleBodyConcat(a: seq<string>, b: seq<string>)
    ensures VisibleBody(a + b) == VisibleBody(a) + VisibleBody(b)
  {
    if a == [] {
      assert a + b == b;
    } else {
      VisibleBodyConcat(a[1..], b);
      assert (a + b)[1..] == a[1..] + b;
    }
  }

  lemma OneValueMore(r: map<string, string>, h: string, v: string, key: string)
    ensures Visible(Get(map[h := v] + r, key, "")) <= Visible(Get(r, key, "")) + if key == h then Visible(v) else 0
  {
  }

  lemma SectionVisible(body: seq<string>)
    requires NoHeadingLine(body)
    ensures Visible(Strip(Join(body))) == VisibleBody(body)
  {
    VisibleStrip(Join(body));
    VisibleJoin(body);
    VisibleBodyIff(body);
  }

  /** Any three sections together show no more text than the document has outside its headings. */
  lemma {:induction false} SectionsConserve(lines: seq<string>, k1: string, k2: string, k3: string)
    requires StartsAtHeading(lines) && k1 != k2 && k1 != k3 && k2 != k3
    ensures Visible(Get(Sections(lines), k1, "")) + Visible(Get(Sections(lines), k2, ""))
          + Visible(Get(Sections(lines), k3, "")) <= VisibleBody(lines)
    decreases |lines|
  {
    if lines == [] {
    } else {
      var body, rest := FirstSection(lines);
      SectionsStep(lines[0], body, rest);
      SectionsConserve(rest, k1, k2, k3);
      var v := Strip(Join(body));
      SectionVisible(body);
      VisibleBodySplit(lines[0], body, rest);
      OneValueMore(Sections(rest), Heading(lines[0]), v, k1);
      OneValueMore(Sections(rest), Heading(lines[0]), v, k2);
      OneValueMore(Sections(rest), Heading(lines[0]), v, k3);
    }
  }

  lemma VisibleBodySplit(head: string, body: seq<string>, rest: seq<string>)
    requires IsH2(head)
    ensures VisibleBody([head] + body + rest) == VisibleBody(body) + VisibleBody(rest)
  {
    VisibleBodyConcat([head] + body, rest);
    assert ([head] + body)[1..] == body;
  }

  lemma SectionsStepMore(front: seq<string>, body: seq<string>, rest: seq<string>, b: seq<string>)
    requires front != [] && IsH2(front[0]) && front == [front[0]] + body + rest
    requires NoHeadingLine(body) && StartsAtHeading(rest + b)
    ensures Sections(front + b) == map[Heading(front[0]) := Strip(Join(body))] + Sections(rest + b)
  {
    assert front + b == [front[0]] + body + (rest + b);
    SectionsStep(front[0], body, rest + b);
  }

  lemma AddMapsAssociative(a: map<string, string>, b: map<string, string>, c: map<string, string>)
    ensures a + (b + c) == (a + b) + c
  {
  }

  lemma {:induction false} SectionsConcat(a: seq<string>, b: seq<string>)
    requires StartsAtHeading(a) && StartsAtHeading(b)
    ensures StartsAtHeading(a + b) && Sections(a + b) == Sections(a) + Sections(b)
    decreases |a|
  {
    if a == [] {
      assert a + b == b;
    } else {
      var body, rest := FirstSection(a);
      SectionsConcat(rest, b);
      SectionsStep(a[0], body, rest);
      SectionsStepMore(a, body, rest, b);
      AddMapsAssociative(map[Heading(a[0]) := Strip(Join(body))], Sections(rest), Sections(b));
    }
  }

  lemma {:induction false} BlocksConcat(a: seq<(string, seq<string>)>, b: seq<(string, seq<string>)>,
                                        ab: seq<(string, seq<string>)>)
    requires ab == a + b
    ensures Blocks(ab) == Blocks(a) + Blocks(b)
  {
    if a == [] {
      assert ab == b;
    } else {
      BlocksConcat(a[1..], b, ab[1..]);
      var x, y, z := Block(a[0].0, a[0].1), Blocks(a[1..]), Blocks(b);
      assert x + (y + z) == (x + y) + z;
    }
  }

  lemma {:induction false} BlocksStart(parts: seq<(string, seq<string>)>)
    requires forall i :: 0 <= i < |parts| ==> PlainHeading(parts[i].0)
    ensures StartsAtHeading(Expand(Blocks(parts)))
  {
    if parts == [] {
    } else {
      BlocksStart(parts[1..]);
      var (heading, body) := parts[0];
      ExpandConcat(Block(heading, body), Blocks(parts[1..]));
      if body != [] {
        ExpandBlock(heading, body);
      }
    }
  }

  lemma VisibleTextBlock(heading: string, text: string)
    requires PlainHeading(heading)
    ensures VisibleBody(Expand(Block(heading, TextBody(text)))) == VisibleBody(Split(text))
  {
    BlankInvisible();
    if text == "" {
      assert Split(text) == [""];
    } else {
      hide Expand, Split, Visible, VisibleBody;
      ExpandBlock(heading, [text]);
      ExpandSingle(text);
      var lines := Split(text);
      assert ["## " + heading] + ([""] + lines + [""]) == ["## " + heading] + [""] + lines + [""];
      VisibleBodyConcat(["## " + heading] + [""] + lines, [""]);
      VisibleBodyConcat(["## " + heading] + [""], lines);
      VisibleBodySplit("## " + heading, [""], []);
      NothingInvisible();
      assert ["## " + heading] + [""] + [] == ["## " + heading] + [""];
    }
  }

  lemma BlankInvisible()
    ensures VisibleBody([""]) == 0
  {
    assert [""][1..] == [];
  }

  lemma NothingInvisible()
    ensures VisibleBody([]) == 0
  {
  }

  predicate ListKey(key: string) {
    key == "lesson learned" || key == "images"
  }

  lemma SectionsOfTwo(front: seq<(string, seq<string>)>, back: seq<(string, seq<string>)>)
    requires forall i :: 0 <= i < |front| ==> PlainHeading(front[i].0)
    requires StartsAtHeading(Expand(Blocks(back)))
    ensures StartsAtHeading(Expand(Blocks(front))) && StartsAtHeading(Expand(Blocks(front + back)))
    ensures Sections(Expand(Blocks(front + back))) == Sections(Expand(Blocks(front))) + Sections(Expand(Blocks(back)))
  {
    BlocksConcat(front, back, front + back);
    ExpandConcat(Blocks(front), Blocks(back));
    BlocksStart(front);
    SectionsConcat(Expand(Blocks(front)), Expand(Blocks(back)));
  }

  /** The list sections of a case do not touch what its text sections say. */
  lemma TextAndLists(c: Case) returns (texts: seq<string>, lists: map<string, string>)
    requires OneLineCase(c)
    ensures texts == Expand(Blocks(Parts(c)[..3]))
    ensures StartsAtHeading(texts) && StartsAtHeading(Expand(Blocks(Parts(c))))
    ensures Sections(Expand(Blocks(Parts(c)))) == Sections(texts) + lists
    ensures forall key :: key in lists ==> ListKey(key)
  {
    hide Sections, Expand, Blocks, TextBody, LessonBody, ImageBody;
    ListSections(c);
    SectionsOfTwo(Parts(c)[..3], Parts(c)[3..]);
    assert Parts(c)[..3] + Parts(c)[3..] == Parts(c);
    texts, lists := Expand(Blocks(Parts(c)[..3])), Sections(Expand(Blocks(Parts(c)[3..])));
  }

  lemma ListSections(c: Case)
    requires OneLineCase(c)
    ensures StartsAtHeading(Expand(Blocks(Parts(c)[3..])))
    ensures forall key :: key in Sections(Expand(Blocks(Parts(c)[3..]))) ==> ListKey(key)
  {
    ListBodiesPlain(c);
    LoweredHeadings();
    var lists := Parts(c)[3..];
    assert ListKey(Lower(lists[0].0)) && ListKey(Lower(lists[1].0));
    ListSectionsOf(lists);
  }

  lemma ListSectionsOf(lists: seq<(string, seq<string>)>)
    requires PlainParts(lists)
    requires forall i :: 0 <= i < |lists| ==> ListKey(Lower(lists[i].0))
    ensures StartsAtHeading(Expand(Blocks(lists)))
    ensures forall key :: key in Sections(Expand(Blocks(lists))) ==> ListKey(key)
  {
    SectionsOfBlocks(lists);
    forall key | key in PartsMap(lists) ensures ListKey(key) {
      PartsMapKeys(lists, key);
    }
  }

  lemma VisibleBlocks(parts: seq<(string, seq<string>)>)
    requires parts != []
    ensures VisibleBody(Expand(Blocks(parts)))
         == VisibleBody(Expand(Block(parts[0].0, parts[0].1))) + VisibleBody(Expand(Blocks(parts[1..])))
  {
    ExpandConcat(Block(parts[0].0, parts[0].1), Blocks(parts[1..]));
    VisibleBodyConcat(Expand(Block(parts[0].0, parts[0].1)), Expand(Blocks(parts[1..])));
  }

  lemma {:induction false} VisibleTexts(parts: seq<(string, seq<string>)>, texts: seq<string>)
    requires |parts| == |texts|
    requires forall i :: 0 <= i < |parts| ==> PlainHeading(parts[i].0) && parts[i].1 == TextBody(texts[i])
    ensures VisibleBody(Expand(Blocks(parts))) == VisibleBodies(texts)
  {
    if parts == [] {
    } else {
      VisibleBlocks(parts);
      VisibleTextBlock(parts[0].0, texts[0]);
      VisibleTexts(parts[1..], texts[1..]);
    }
  }

  function VisibleBodies(texts: seq<string>): nat {
    if texts == [] then 0 else VisibleBody(Split(texts[0])) + VisibleBodies(texts[1..])
  }

  /** Every text is shown in full outside headings exactly when none holds a heading. */
  lemma {:induction false} VisibleBodiesIff(texts: seq<string>)
    ensures VisibleBodies(texts) <= VisibleLines(texts)
    ensures VisibleBodies(texts) == VisibleLines(texts) <==> forall i :: 0 <= i < |texts| ==> NoHeading(texts[i])
  {
    if texts == [] {
    } else {
      VisibleText(texts[0]);
      VisibleBodiesIff(texts[1..]);
      assert forall i :: 0 < i < |texts| ==> texts[i] == texts[1..][i - 1];
    }
  }

  lemma VisibleText(text: string)
    ensures VisibleBody(Split(text)) <= Visible(text)
    ensures VisibleBody(Split(text)) == Visible(text) <==> NoHeading(text)
  {
    JoinSplit(text);
    VisibleJoin(Split(text));
    VisibleBodyIff(Split(text));
  }

  /** The three texts of a case are what these sections say. */
  predicate SaysTexts(c: Case, m: map<string, string>) {
    Get(m, "symptom", "") == c.symptom && Get(m, "root cause", "") == c.rootCause
    && Get(m, "resolution", "") == c.resolution
  }

  predicate RoundTrips(c: Case) {
    Parse(Render(c)) == Some(Fields(c))
  }

  lemma ParsedSections(c: Case)
    requires OneLineCase(c) && StartsAtHeading(Expand(Blocks(Parts(c))))
    ensures RoundTrips(c) ==> SaysTexts(c, Sections(Expand(Blocks(Parts(c)))))
  {
    PrintedLines(c);
    ParseHeadAndTail(c, Expand(Blocks(Parts(c))));
  }

  lemma TextSectionsAlone(c: Case) returns (texts: seq<string>)
    requires OneLineCase(c)
    ensures texts == Expand(Blocks(Parts(c)[..3])) && StartsAtHeading(texts)
    ensures RoundTrips(c) ==> SaysTexts(c, Sections(texts))
  {
    hide RoundTrips;
    var lists;
    texts, lists := TextAndLists(c);
    ParsedSections(c);
    ReadFromTexts(Sections(Expand(Blocks(Parts(c)))), Sections(texts), lists);
  }

  lemma ReadFromTexts(all: map<string, string>, texts: map<string, string>, lists: map<string, string>)
    requires all == texts + lists
    requires forall key :: key in lists ==> ListKey(key)
    ensures Get(all, "symptom", "") == Get(texts, "symptom", "")
    ensures Get(all, "root cause", "") == Get(texts, "root cause", "")
    ensures Get(all, "resolution", "") == Get(texts, "resolution", "")
  {
    assert "lesson learned"[0] == 'l' && "images"[0] == 'i';
  }

  /** Three texts that all come back from sections printing them cannot hold headings. */
  lemma ShownInFull(lines: seq<string>, texts: seq<string>)
    requires StartsAtHeading(lines) && |texts| == 3 && VisibleBody(lines) == VisibleBodies(texts)
    requires Get(Sections(lines), "symptom", "") == texts[0]
    requires Get(Sections(lines), "root cause", "") == texts[1]
    requires Get(Sections(lines), "resolution", "") == texts[2]
    ensures forall i :: 0 <= i < 3 ==> NoHeading(texts[i])
  {
    SectionsConserve(lines, "symptom", "root cause", "resolution");
    VisibleBodiesIff(texts);
    VisibleThree(texts);
  }

  lemma VisibleThree(texts: seq<string>)
    requires |texts| == 3
    ensures VisibleLines(texts) == Visible(texts[0]) + Visible(texts[1]) + Visible(texts[2])
  {
    assert texts[1..][1..] == texts[2..];
    assert VisibleLines(texts[1..]) == Visible(texts[1]) + VisibleLines(texts[2..]);
    assert VisibleLines(texts[2..]) == Visible(texts[2]) + VisibleLines([]);
  }

  lemma TextsVisible(c: Case, texts: seq<string>)
    requires texts == [c.symptom, c.rootCause, c.resolution]
    ensures VisibleBody(Expand(Blocks(Parts(c)[..3]))) == VisibleBodies(texts)
  {
    VisibleTexts(Parts(c)[..3], texts);
  }

  /** A heading inside a body is never read back: the sections would have to show more text than the file holds. */
  lemma InnerHeadingBreaksRoundTrip(c: Case)
    requires OneLineCase(c)
    ensures RoundTrips(c) ==> NoInnerHeading(c)
  {
    hide RoundTrips;
    if RoundTrips(c) {
      var lines := TextSectionsAlone(c);
      var texts := [c.symptom, c.rootCause, c.resolution];
      TextsVisible(c, texts);
      ShownInFull(lines, texts);
      assert NoHeading(texts[0]) && NoHeading(texts[1]) && NoHeading(texts[2]);
    }
  }

  /** Export then parse is the identity for exactly the cases whose values are trimmed, whose severity and status are
      present, whose lessons are visible and whose bodies hold no second-level heading. */
  lemma RoundTripIff(c: Case)
    requires OneLineCase(c)
    ensures RoundTrips(c) <==> Faithful(c) && NoInnerHeading(c)
  {
    hide Parse, Render, Fields;
    InnerHeadingBreaksRoundTrip(c);
    if NoInnerHeading(c) {
      PrintableRoundTrip(c);
    }
  }

  // ---------------------------------------------------------------------
  // Exporting what was parsed
  // ---------------------------------------------------------------------

  /** A parsed case as the exporter would hold it. */
  function CaseOf(p: Parsed): Case {
    Case(p.title, p.date, p.severity, p.chipId, p.qid, p.status, "", p.symptom, p.rootCause, p.resolution, p.lessons,
         [], [])
  }

  lemma {:induction false} StripLeftChars(s: string)
    ensures forall c :: c in StripLeft(s) ==> c in s
  {
    if s == "" || !IsSpace(s[0]) {
    } else {
      StripLeftChars(s[1..]);
    }
  }

  /** A stripped line is a trimmed line. */
  lemma StripLine(line: string)
    requires OneLine(line)
    ensures OneLine(Strip(line)) && Trimmed(Strip(line))
  {
    StripTrims(line);
    StripLeftChars(line);
    var w := StripRightSplit(StripLeft(line));
  }

  predicate PlainValue(v: string) {
    OneLine(v) && Trimmed(v)
  }

  lemma MetaOfPlain(line: string)
    requires OneLine(line)
    ensures MetaOf(line).Some? ==> PlainValue(MetaOf(line).value.1)
  {
    StripLine(line);
    var stripped := Strip(line);
    if "- " <= stripped {
      var content := stripped[2..];
      var colon := IndexOf(content, ':');
      if colon < |content| {
        assert forall i :: colon + 1 <= i < |content| ==> content[i] == stripped[i + 2];
        StripLine(content[colon + 1..]);
      }
    }
  }

  lemma {:induction false} MetadataPlain(m: map<string, string>, lines: seq<string>)
    requires AllOneLine(lines)
    requires forall key :: key in m ==> PlainValue(m[key])
    ensures forall key :: key in AddAllMeta(m, lines) ==> PlainValue(AddAllMeta(m, lines)[key])
    decreases |lines|
  {
    if lines == [] {
    } else {
      assert lines[0] in lines;
      MetaOfPlain(lines[0]);
      MetadataPlain(AddMeta(m, lines[0]), lines[1..]);
    }
  }

  lemma {:induction false} SectionsTrimmed(lines: seq<string>)
    requires StartsAtHeading(lines)
    ensures forall key :: key in Sections(lines) ==> Trimmed(Sections(lines)[key])
    decreases |lines|
  {
    if lines == [] {
    } else {
      var body, rest := FirstSection(lines);
      SectionsStep(lines[0], body, rest);
      SectionsTrimmed(rest);
      StripTrims(Join(body));
    }
  }

  lemma {:induction false} ItemsPlain(lines: seq<string>)
    requires AllOneLine(lines)
    ensures AllOneLine(Items(lines)) && forall l :: l in Items(lines) ==> PlainLesson(l)
  {
    if lines == [] {
    } else {
      assert lines[0] in lines;
      ItemsPlain(lines[1..]);
      StripLine(lines[0]);
    }
  }

  lemma ListItemsPlain(text: string)
    ensures AllOneLine(ParseListItems(text)) && forall l :: l in ParseListItems(text) ==> PlainLesson(l)
  {
    SplitOneLines(Strip(text));
    ItemsPlain(SplitLines(Strip(text)));
  }

  /** Whatever file was parsed, exporting and parsing again gives the same case unless the file left the severity or
      the status blank or an inner heading appeared at the front of a body. */
  lemma ReexportIff(text: string)
    requires Parse(text).Some?
    ensures var p := Parse(text).value;
            && OneLineCase(CaseOf(p))
            && (Parse(Render(CaseOf(p))) == Parse(text) <==>
                 p.severity != "" && p.status != "" && NoInnerHeading(CaseOf(p)))
  {
    var p := Parse(text).value;
    ParsedPlain(text);
    RoundTripIff(CaseOf(p));
  }

  lemma TitlePlain(line: string)
    requires OneLine(line) && IsH1(line)
    ensures PlainValue(Strip(line[2..]))
  {
    assert forall i :: 0 <= i < |line| - 2 ==> line[2..][i] == line[i + 2];
    StripLine(line[2..]);
  }

  lemma ParsedPlain(text: string)
    requires Parse(text).Some?
    ensures var p := Parse(text).value;
            && OneLineCase(CaseOf(p))
            && (Faithful(CaseOf(p)) <==> p.severity != "" && p.status != "")
  {
    var lines := SplitLines(text);
    SplitOneLines(text);
    assert AllOneLine(lines);
    ParsedLinesPlain(lines);
  }

  lemma ParsedLinesPlain(lines: seq<string>)
    requires AllOneLine(lines) && ParseLines(lines).Some?
    ensures var p := ParseLines(lines).value;
            && OneLineCase(CaseOf(p))
            && (Faithful(CaseOf(p)) <==> p.severity != "" && p.status != "")
  {
    hide AddAllMeta, Sections, Assemble, LessonsOf, Strip, Find, OneLineCase, Faithful;
    var title := Find(IsH1, lines);
    var first := Find(IsH2, lines);
    assert lines[title] in lines;
    TitlePlain(lines[title]);
    assert AllOneLine(MetaSlice(lines, title + 1));
    MetadataPlain(map[], MetaSlice(lines, title + 1));
    SectionsTrimmed(lines[first..]);
    ParsedLessonsPlain(Sections(lines[first..]));
    AssembledPlain(Strip(lines[title][2..]), AddAllMeta(map[], MetaSlice(lines, title + 1)), Sections(lines[first..]));
  }

  lemma AssembledPlain(title: string, metadata: map<string, string>, sections: map<string, string>)
    requires PlainValue(title)
    requires forall key :: key in metadata ==> PlainValue(metadata[key])
    requires forall key :: key in sections ==> Trimmed(sections[key])
    requires AllOneLine(LessonsOf(sections)) && forall l :: l in LessonsOf(sections) ==> PlainLesson(l)
    ensures var p := Assemble(title, metadata, sections);
            && OneLineCase(CaseOf(p))
            && (Faithful(CaseOf(p)) <==> p.severity != "" && p.status != "")
  {
    assert PlainValue("") && PlainValue("warning") && PlainValue("resolved");
    var p := Assemble(title, metadata, sections);
    var values := [p.title, p.date, p.severity, p.chipId, p.qid, p.status, ""];
    assert forall i :: 0 <= i < 7 ==> PlainValue(values[i]);
    assert AllOneLine(values);
  }

  lemma ParsedLessonsPlain(sections: map<string, string>)
    ensures AllOneLine(LessonsOf(sections)) && forall l :: l in LessonsOf(sections) ==> PlainLesson(l)
  {
    if "lesson learned" in sections {
      ListItemsPlain(sections["lesson learned"]);
    }
  }
}

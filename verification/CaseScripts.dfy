/** The two scripts on issue-knowledge cases, step by step. */
module CaseScripts {
  import opened Common
  import opened Text
  import opened CaseFormat
  import opened CaseRoundTrip

  /** The list `meta` after one more optional line. */
  method AddMetaLine(meta: seq<string>, key: string, value: string) returns (r: seq<string>)
    ensures r == meta + MetaLine(key, value)
  {
    r := meta;
    if value != "" {
      r := r + ["- " + key + ": " + value];
    }
  }

  lemma MetaLinesFirst(pairs: seq<(string, string)>, k: nat)
    requires k < |pairs|
    ensures MetaLines(pairs[k..]) == MetaLine(pairs[k].0, pairs[k].1) + MetaLines(pairs[k + 1..])
  {
    assert pairs[k..][1..] == pairs[k + 1..];
  }

  lemma AppendSix<T>(a: seq<T>, b: seq<T>, c: seq<T>, d: seq<T>, e: seq<T>, f: seq<T>)
    ensures a + (b + (c + (d + (e + f)))) == a + b + c + d + e + f
  {
  }

  lemma SixMetaLines(p: seq<(string, string)>)
    requires |p| == 6
    ensures MetaLines(p) == MetaLine(p[0].0, p[0].1) + MetaLine(p[1].0, p[1].1) + MetaLine(p[2].0, p[2].1)
            + MetaLine(p[3].0, p[3].1) + MetaLine(p[4].0, p[4].1) + MetaLine(p[5].0, p[5].1)
  {
    assert p[6..] == [];
    assert MetaLines(p[6..]) == [];
    hide MetaLines, MetaLine;
    MetaLinesFirst(p, 0);
    MetaLinesFirst(p, 1);
    MetaLinesFirst(p, 2);
    MetaLinesFirst(p, 3);
    MetaLinesFirst(p, 4);
    MetaLinesFirst(p, 5);
    assert p[0..] == p;
    AppendSix(MetaLine(p[0].0, p[0].1), MetaLine(p[1].0, p[1].1), MetaLine(p[2].0, p[2].1),
              MetaLine(p[3].0, p[3].1), MetaLine(p[4].0, p[4].1), MetaLine(p[5].0, p[5].1));
  }

  method HeadLines(c: Case) returns (lines: seq<string>)
    ensures lines == Head(c)
  {
    hide MetaLine, MetaLines;
    lines := ["# " + c.title, ""];
    var meta := AddMetaLine([], "date", c.date);
    meta := AddMetaLine(meta, "severity", c.severity);
    meta := AddMetaLine(meta, "chip_id", c.chipId);
    meta := AddMetaLine(meta, "qid", c.qid);
    meta := AddMetaLine(meta, "status", c.status);
    meta := AddMetaLine(meta, "issue_id", c.issueId);
    SixMetaLines(Pairs(c));
    if meta != [] {
      lines := lines + meta;
      lines := lines + [""];
    }
  }

  method AddTextSection(lines: seq<string>, heading: string, text: string) returns (r: seq<string>)
    ensures r == lines + Block(heading, TextBody(text))
  {
    r := lines;
    if text != "" {
      r := r + ["## " + heading, "", text, ""];
    }
  }

  lemma {:induction false} LessonBodySnoc(lessons: seq<string>, l: string)
    ensures LessonBody(lessons + [l]) == LessonBody(lessons) + ["- " + l]
  {
    if lessons == [] {
    } else {
      LessonBodySnoc(lessons[1..], l);
      assert (lessons + [l])[1..] == lessons[1..] + [l];
    }
  }

  method AddLessons(lines: seq<string>, lessons: seq<string>) returns (r: seq<string>)
    ensures r == lines + Block("Lesson learned", LessonBody(lessons))
  {
    r := lines;
    if lessons != [] {
      r := r + ["## Lesson learned"];
      r := r + [""];
      for i := 0 to |lessons|
        invariant r == lines + (["## Lesson learned", ""] + LessonBody(lessons[..i]))
      {
        LessonBodySnoc(lessons[..i], lessons[i]);
        assert lessons[..i + 1] == lessons[..i] + [lessons[i]];
        r := r + ["- " + lessons[i]];
      }
      assert lessons[..|lessons|] == lessons;
      r := r + [""];
      assert "## " + "Lesson learned" == "## Lesson learned";
      var body := LessonBody(lessons);
      assert ["## Lesson learned", ""] + body + [""] == Block("Lesson learned", body);
    }
  }

  lemma {:induction false} ImageLinesSnoc(alt: string, urls: seq<string>, u: string)
    ensures ImageLines(alt, urls + [u]) == ImageLines(alt, urls) + ["![" + alt + "](" + u + ")"]
  {
    if urls == [] {
    } else {
      ImageLinesSnoc(alt, urls[1..], u);
      assert (urls + [u])[1..] == urls[1..] + [u];
    }
  }

  method AddImageLines(lines: seq<string>, alt: string, urls: seq<string>) returns (r: seq<string>)
    ensures r == lines + ImageLines(alt, urls)
  {
    r := lines;
    for i := 0 to |urls|
      invariant r == lines + ImageLines(alt, urls[..i])
    {
      ImageLinesSnoc(alt, urls[..i], urls[i]);
      assert urls[..i + 1] == urls[..i] + [urls[i]];
      r := r + ["![" + alt + "](" + urls[i] + ")"];
    }
    assert urls[..|urls|] == urls;
  }

  method AddImages(lines: seq<string>, c: Case) returns (r: seq<string>)
    ensures r == lines + Block("Images", ImageBody(c))
  {
    r := lines;
    if c.figurePaths != [] || c.imageUrls != [] {
      r := r + ["## Images"];
      r := r + [""];
      r := AddImageLines(r, "Task figure", c.figurePaths);
      r := AddImageLines(r, "Thread image", c.imageUrls);
      r := r + [""];
      assert "## " + "Images" == "## Images";
      var body := ImageBody(c);
      assert ["## Images", ""] + body + [""] == Block("Images", body);
    }
  }

  lemma BlocksFirst(parts: seq<(string, seq<string>)>, k: nat)
    requires k < |parts|
    ensures Blocks(parts[k..]) == Block(parts[k].0, parts[k].1) + Blocks(parts[k + 1..])
  {
    assert parts[k..][1..] == parts[k + 1..];
  }

  /** Sections appended one after the other. */
  lemma BlocksAppended(head: seq<string>, parts: seq<(string, seq<string>)>)
    requires |parts| == 5
    ensures head + Blocks(parts)
         == head + Block(parts[0].0, parts[0].1) + Block(parts[1].0, parts[1].1) + Block(parts[2].0, parts[2].1)
            + Block(parts[3].0, parts[3].1) + Block(parts[4].0, parts[4].1)
  {
    assert parts[5..] == [];
    assert Blocks(parts[5..]) == [];
    hide Blocks, Block;
    BlocksFirst(parts, 0);
    BlocksFirst(parts, 1);
    BlocksFirst(parts, 2);
    BlocksFirst(parts, 3);
    BlocksFirst(parts, 4);
    assert parts[0..] == parts;
    AppendSix(head, Block(parts[0].0, parts[0].1), Block(parts[1].0, parts[1].1), Block(parts[2].0, parts[2].1),
              Block(parts[3].0, parts[3].1), Block(parts[4].0, parts[4].1));
  }

  method CaseLines(c: Case) returns (lines: seq<string>)
    ensures lines == Head(c) + Blocks(Parts(c))
  {
    lines := HeadLines(c);
    lines := AddTextSection(lines, "Symptom", c.symptom);
    lines := AddTextSection(lines, "Root cause", c.rootCause);
    lines := AddTextSection(lines, "Resolution", c.resolution);
    lines := AddLessons(lines, c.lessons);
    lines := AddImages(lines, c);
    BlocksAppended(Head(c), Parts(c));
  }

  /** `_case_to_markdown`: the text it prints parses back to the case in normal form. */
  method CaseToMarkdown(c: Case) returns (text: string)
    ensures text == Render(c)
    ensures Printable(c) ==> Parse(text) == Some(Normalised(c))
  {
    var lines := CaseLines(c);
    text := Join(lines);
    if Printable(c) {
      ParseRender(c);
    }
  }

  /** The positions of the section headings. */
  method HeadingIndices(lines: seq<string>) returns (indices: seq<nat>)
    ensures forall k :: 0 <= k < |indices| ==> indices[k] < |lines| && IsH2(lines[indices[k]])
    ensures forall j, k :: 0 <= j < k < |indices| ==> indices[j] < indices[k]
    ensures forall i :: 0 <= i < |lines| && IsH2(lines[i]) ==> i in indices
  {
    indices := [];
    for i := 0 to |lines|
      invariant forall k :: 0 <= k < |indices| ==> indices[k] < i && IsH2(lines[indices[k]])
      invariant forall j, k :: 0 <= j < k < |indices| ==> indices[j] < indices[k]
      invariant forall j :: 0 <= j < i && IsH2(lines[j]) ==> j in indices
    {
      if IsH2(lines[i]) {
        indices := indices + [i];
      }
    }
  }

  method ReadMetadata(lines: seq<string>, from: nat, to: nat) returns (metadata: map<string, string>)
    requires to <= |lines|
    ensures metadata == AddAllMeta(map[], Slice(lines, from, to))
  {
    metadata := map[];
    var slice := Slice(lines, from, to);
    for i := 0 to |slice|
      invariant AddAllMeta(metadata, slice[i..]) == AddAllMeta(map[], slice)
    {
      assert slice[i..][1..] == slice[i + 1..];
      metadata := AddMeta(metadata, slice[i]);
    }
  }

  /** The end of the section that starts at the idx-th heading. */
  function BodyEnd(lines: seq<string>, indices: seq<nat>, idx: nat): nat {
    if idx < |indices| then indices[idx] else |lines|
  }

  predicate AreHeadings(lines: seq<string>, indices: seq<nat>) {
    && (forall k :: 0 <= k < |indices| ==> indices[k] < |lines| && IsH2(lines[indices[k]]))
    && (forall j, k :: 0 <= j < k < |indices| ==> indices[j] < indices[k])
    && (forall i :: 0 <= i < |lines| && IsH2(lines[i]) ==> i in indices)
  }

  ghost function SectionsFrom(lines: seq<string>, indices: seq<nat>, idx: nat): map<string, string>
    requires AreHeadings(lines, indices)
  {
    if idx < |indices| then Sections(lines[indices[idx]..]) else map[]
  }

  lemma HeadingsAfter(lines: seq<string>, indices: seq<nat>, idx: nat, i: nat)
    requires AreHeadings(lines, indices) && idx < |indices| && indices[idx] < i < |lines| && IsH2(lines[i])
    ensures i >= BodyEnd(lines, indices, idx + 1)
  {
    var k :| 0 <= k < |indices| && indices[k] == i;
    assert k > idx;
  }

  lemma NextHeading(lines: seq<string>, indices: seq<nat>, idx: nat)
    requires AreHeadings(lines, indices) && idx < |indices|
    ensures indices[idx] < BodyEnd(lines, indices, idx + 1) <= |lines|
    ensures SectionsFrom(lines, indices, idx)
         == map[Heading(lines[indices[idx]])
                := Strip(Join(lines[indices[idx] + 1..BodyEnd(lines, indices, idx + 1)]))]
            + SectionsFrom(lines, indices, idx + 1)
  {
    var start, end := indices[idx], BodyEnd(lines, indices, idx + 1);
    var head, body, rest := lines[start], lines[start + 1..end], lines[end..];
    forall i: nat | start < i < end ensures !IsH2(lines[i]) {
      if IsH2(lines[i]) {
        HeadingsAfter(lines, indices, idx, i);
      }
    }
    assert NoHeadingLine(body);
    assert lines[start..] == [head] + body + rest;
    SectionsStep(head, body, rest);
  }

  lemma OneSectionMore(before: map<string, string>, heading: string, body: string, rest: map<string, string>)
    ensures before[heading := body] + rest == before + (map[heading := body] + rest)
  {
  }

  method ReadSections(lines: seq<string>, indices: seq<nat>) returns (sections: map<string, string>)
    requires AreHeadings(lines, indices)
    ensures sections == SectionsFrom(lines, indices, 0)
  {
    sections := map[];
    for idx := 0 to |indices|
      invariant sections + SectionsFrom(lines, indices, idx) == SectionsFrom(lines, indices, 0)
    {
      NextHeading(lines, indices, idx);
      var heading := Heading(lines[indices[idx]]);
      var bodyEnd := BodyEnd(lines, indices, idx + 1);
      var body := Strip(Join(lines[indices[idx] + 1..bodyEnd]));
      OneSectionMore(sections, heading, body, SectionsFrom(lines, indices, idx + 1));
      sections := sections[heading := body];
    }
    assert sections + map[] == sections;
  }

  lemma FirstHeading(lines: seq<string>, indices: seq<nat>)
    requires AreHeadings(lines, indices)
    ensures Find(IsH2, lines) == BodyEnd(lines, indices, 0)
  {
    FindIs(IsH2, lines, BodyEnd(lines, indices, 0));
  }

  method FindTitle(lines: seq<string>) returns (title: nat)
    ensures title == Find(IsH1, lines)
  {
    title := 0;
    while title < |lines| && !IsH1(lines[title])
      invariant title <= |lines|
      invariant forall i :: 0 <= i < title ==> !IsH1(lines[i])
    {
      title := title + 1;
    }
    FindIs(IsH1, lines, title);
  }

  /** `_parse_case_file`, on the text of the file. */
  method ParseCaseFile(raw: string) returns (parsed: Option<Parsed>)
    ensures parsed == Parse(raw)
  {
    var lines := SplitLines(raw);
    var title := FindTitle(lines);
    if title == |lines| {
      return None;
    }
    var indices := HeadingIndices(lines);
    FirstHeading(lines, indices);
    var metaEnd := BodyEnd(lines, indices, 0);
    var metadata := ReadMetadata(lines, title + 1, metaEnd);
    var sections := ReadSections(lines, indices);
    assert indices == [] ==> Sections(lines[metaEnd..]) == map[];
    parsed := Some(Assemble(Strip(lines[title][2..]), metadata, sections));
  }
}

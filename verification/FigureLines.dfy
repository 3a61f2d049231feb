/** Figure references in the task documentation: the line rewriting of scripts/fetch_task_figures.py. */
module FigureLines {
  import opened Common
  import opened Text

  // ---------------------------------------------------------------------
  // Removing image references
  // ---------------------------------------------------------------------

  /** The length of an image reference `![alt](./name.png)` at the start of a text, or 0. */
  function MatchLength(s: string): (n: nat)
    ensures n <= |s|
    ensures n > 0 ==> s[0] == '!'
  {
    if !("![" <= s) then 0
    else
      var close := 2 + IndexOf(s[2..], ']');
      if !("](./" <= s[close..]) then 0
      else
        var name := s[close + 4..];
        var end := IndexOf(name, ')');
        if end < |name| && end >= 5 && name[end - 4..end] == ".png" then close + 4 + end + 1 else 0
  }

  /** `_IMAGE_RE.sub("", line)`: the references found from left to right are dropped. */
  function StripImages(s: string): string
    decreases |s|
  {
    if s == "" then ""
    else
      var n := MatchLength(s);
      if n > 0 then StripImages(s[n..]) else [s[0]] + StripImages(s[1..])
  }

  function StripEach(lines: seq<string>): seq<string> {
    if lines == [] then [] else [StripImages(lines[0])] + StripEach(lines[1..])
  }

  function ImageLine(task: string, name: string): string {
    "![Example result for " + task + "](./" + name + ")"
  }

  function ImageLines(task: string, names: seq<string>): seq<string> {
    if names == [] then [] else [ImageLine(task, names[0])] + ImageLines(task, names[1..])
  }

  // ---------------------------------------------------------------------
  // Where the images go
  // ---------------------------------------------------------------------

  predicate Blank(line: string) {
    Strip(line) == ""
  }

  predicate IsExpected(line: string) {
    "## Expected result" <= line || "## Expected curve" <= line || "## Expected graph" <= line
  }

  predicate EndsSection(line: string) {
    IsH2(line) && !IsExpected(line)
  }

  /** The end of lines[..end] without its trailing blank lines. */
  function TrimmedEnd(lines: seq<string>, end: nat): (r: nat)
    requires end <= |lines|
    ensures r <= end
    ensures forall i :: r <= i < end ==> Blank(lines[i])
    ensures r > 0 ==> !Blank(lines[r - 1])
  {
    if end > 0 && Blank(lines[end - 1]) then TrimmedEnd(lines, end - 1) else end
  }

  /** Where the Expected section ends: at the next other section or at the end of the file. */
  function SectionEnd(lines: seq<string>): (r: Option<nat>)
    ensures r.Some? ==> r.value <= |lines|
  {
    var head := Find(IsExpected, lines);
    if head == |lines| then None else Some(head + 1 + Find(EndsSection, lines[head + 1..]))
  }

  /** The insertion point: the end of the Expected section, before its trailing blank lines. */
  function InsertIndex(lines: seq<string>): (r: Option<nat>)
    ensures r.Some? ==> r.value <= |lines|
  {
    match SectionEnd(lines)
    case Some(end) => Some(TrimmedEnd(lines, end))
    case None => None
  }

  /** Of consecutive blank lines only the first is kept. */
  function Collapse(lines: seq<string>, prevBlank: bool): seq<string>
    decreases |lines|
  {
    if lines == [] then []
    else if Blank(lines[0]) && prevBlank then Collapse(lines[1..], true)
    else [lines[0]] + Collapse(lines[1..], Blank(lines[0]))
  }

  function Insert(lines: seq<string>, images: seq<string>, index: nat): seq<string>
    requires index <= |lines|
  {
    Collapse(lines[..index] + ([""] + images + [""]) + lines[index..], false)
  }

  /** The lines of a file once its image references are removed. */
  function StrippedLines(content: string): seq<string> {
    SplitLines(Join(StripEach(Split(content))))
  }

  /** The content of a file after one update; without an Expected section it is left as it was. */
  function Update(content: string, images: seq<string>): string {
    var lines := StrippedLines(content);
    match InsertIndex(lines)
    case Some(index) => Join(Insert(lines, images, index))
    case None => content
  }

  // ---------------------------------------------------------------------
  // Collapsing
  // ---------------------------------------------------------------------

  predicate NoAdjacentBlanks(lines: seq<string>) {
    forall i :: 0 < i < |lines| ==> !Blank(lines[i - 1]) || !Blank(lines[i])
  }

  predicate AllBlank(lines: seq<string>) {
    forall l :: l in lines ==> Blank(l)
  }

  predicate NoneBlank(lines: seq<string>) {
    forall l :: l in lines ==> !Blank(l)
  }

  function LastBlank(lines: seq<string>, prevBlank: bool): bool {
    if lines == [] then prevBlank else Blank(lines[|lines| - 1])
  }

  lemma {:induction false} CollapseConcat(a: seq<string>, b: seq<string>, prev: bool)
    ensures Collapse(a + b, prev) == Collapse(a, prev) + Collapse(b, LastBlank(a, prev))
    decreases |a|
  {
    if a == [] {
      assert a + b == b;
    } else {
      assert (a + b)[1..] == a[1..] + b;
      CollapseConcat(a[1..], b, Blank(a[0]));
    }
  }

  lemma {:induction false} CollapseBlanks(gap: seq<string>)
    requires AllBlank(gap)
    ensures Collapse(gap, true) == []
  {
    if gap == [] {
    } else {
      assert gap[0] in gap;
      CollapseBlanks(gap[1..]);
    }
  }

  lemma {:induction false} CollapseVisible(lines: seq<string>, prev: bool)
    requires NoneBlank(lines)
    ensures Collapse(lines, prev) == lines
    decreases |lines|
  {
    if lines == [] {
    } else {
      assert lines[0] in lines;
      CollapseVisible(lines[1..], false);
    }
  }

  lemma {:induction false} CollapseMembers(lines: seq<string>, prev: bool, l: string)
    ensures l in Collapse(lines, prev) ==> l in lines
    ensures l in lines && !Blank(l) ==> l in Collapse(lines, prev)
    decreases |lines|
  {
    if lines == [] {
    } else {
      CollapseMembers(lines[1..], Blank(lines[0]), l);
      assert lines == [lines[0]] + lines[1..];
    }
  }

  lemma {:induction false} CollapsedHasNoPairs(lines: seq<string>, prev: bool)
    ensures NoAdjacentBlanks(Collapse(lines, prev))
    ensures prev && Collapse(lines, prev) != [] ==> !Blank(Collapse(lines, prev)[0])
    decreases |lines|
  {
    if lines == [] {
    } else {
      CollapsedHasNoPairs(lines[1..], Blank(lines[0]));
    }
  }

  lemma {:induction false} CollapseFixed(lines: seq<string>)
    requires NoAdjacentBlanks(lines)
    ensures Collapse(lines, false) == lines
    decreases |lines|
  {
    if lines == [] {
    } else {
      CollapseFixed(lines[1..]);
      CollapseStart(lines[1..]);
    }
  }

  /** What came before does not matter to lines that start with a visible one. */
  lemma CollapseStart(lines: seq<string>)
    ensures lines == [] || !Blank(lines[0]) ==> Collapse(lines, true) == Collapse(lines, false)
  {
  }

  function VisibleOnly(lines: seq<string>): seq<string> {
    if lines == [] then [] else (if Blank(lines[0]) then [] else [lines[0]]) + VisibleOnly(lines[1..])
  }

  lemma {:induction false} CollapseKeepsVisible(lines: seq<string>, prev: bool)
    ensures VisibleOnly(Collapse(lines, prev)) == VisibleOnly(lines)
    decreases |lines|
  {
    if lines == [] {
    } else {
      CollapseKeepsVisible(lines[1..], Blank(lines[0]));
      var rest := Collapse(lines[1..], Blank(lines[0]));
      assert ([lines[0]] + rest)[1..] == rest;
    }
  }

  lemma {:induction false} VisibleOnlyConcat(a: seq<string>, b: seq<string>)
    ensures VisibleOnly(a + b) == VisibleOnly(a) + VisibleOnly(b)
  {
    hide Blank;
    if a == [] {
      assert a + b == b;
    } else {
      VisibleOnlyConcat(a[1..], b);
      assert (a + b)[1..] == a[1..] + b;
      var x, y, z := if Blank(a[0]) then [] else [a[0]], VisibleOnly(a[1..]), VisibleOnly(b);
      assert x + (y + z) == (x + y) + z;
    }
  }

  // ---------------------------------------------------------------------
  // The Expected section
  // ---------------------------------------------------------------------

  /** A file split around its Expected section: what precedes it, its heading, its text up to the last visible line,
      the blank lines after that, and the rest from the next section. */
  datatype Parts = Parts(before: seq<string>, heading: string, body: seq<string>, gap: seq<string>, rest: seq<string>)

  function Whole(p: Parts): seq<string> {
    p.before + [p.heading] + p.body + p.gap + p.rest
  }

  function Front(p: Parts): seq<string> {
    p.before + [p.heading] + p.body
  }

  ghost predicate Sectioned(p: Parts) {
    && (forall l :: l in p.before ==> !IsExpected(l))
    && IsExpected(p.heading)
    && (forall l :: l in p.body ==> !EndsSection(l))
    && (p.body != [] ==> !Blank(p.body[|p.body| - 1]))
    && AllBlank(p.gap)
    && (p.rest != [] ==> EndsSection(p.rest[0]))
  }

  lemma HeadingVisible(line: string)
    requires IsH2(line)
    ensures !Blank(line)
  {
    StripBlank(line);
    assert line[0] == '#';
    assert !IsSpace(line[0]);
  }

  lemma ExpectedIsHeading(line: string)
    requires IsExpected(line)
    ensures IsH2(line)
  {
    assert "## " <= "## Expected result" && "## " <= "## Expected curve" && "## " <= "## Expected graph";
  }

  lemma BlankIsNoHeading(line: string)
    requires Blank(line)
    ensures !IsH2(line)
  {
    if IsH2(line) {
      HeadingVisible(line);
    }
  }

  lemma HeadOfSectioned(p: Parts)
    requires Sectioned(p)
    ensures Find(IsExpected, Whole(p)) == |p.before|
  {
    var lines, head := Whole(p), |p.before|;
    assert forall i :: 0 <= i < head ==> lines[i] == p.before[i];
    FindIs(IsExpected, lines, head);
  }

  lemma EndOfSectioned(p: Parts, after: seq<string>)
    requires Sectioned(p) && after == p.body + p.gap + p.rest
    ensures Find(EndsSection, after) == |p.body| + |p.gap|
  {
    var n := |p.body| + |p.gap|;
    forall i | 0 <= i < n ensures !EndsSection(after[i]) {
      if i < |p.body| {
        assert after[i] == p.body[i];
      } else {
        assert after[i] == p.gap[i - |p.body|];
        BlankIsNoHeading(after[i]);
      }
    }
    assert n < |after| ==> after[n] == p.rest[0];
    FindIs(EndsSection, after, n);
  }

  lemma SectionEndIs(lines: seq<string>, before: seq<string>, heading: string, after: seq<string>, n: nat)
    requires lines == before + [heading] + after
    requires Find(IsExpected, lines) == |before| && Find(EndsSection, after) == n
    ensures SectionEnd(lines) == Some(|before| + 1 + n)
  {
    assert lines[|before| + 1..] == after;
  }

  lemma EndOfSection(p: Parts, lines: seq<string>)
    requires Sectioned(p) && lines == Whole(p)
    ensures SectionEnd(lines) == Some(|Front(p)| + |p.gap|)
  {
    hide Find, SectionEnd, Sectioned;
    var after := p.body + p.gap + p.rest;
    var n := |p.body| + |p.gap|;
    assert Find(EndsSection, after) == n by {
      EndOfSectioned(p, after);
    }
    assert Find(IsExpected, lines) == |p.before| by {
      HeadOfSectioned(p);
    }
    assert lines == p.before + [p.heading] + after;
    SectionEndIs(lines, p.before, p.heading, after, n);
  }

  /** The insertion point of a file split this way. */
  lemma IndexOfSectioned(p: Parts, lines: seq<string>)
    requires Sectioned(p) && lines == Whole(p)
    ensures InsertIndex(lines) == Some(|Front(p)|)
  {
    hide Find, Sectioned, TrimmedEnd, SectionEnd;
    EndOfSection(p, lines);
    TrimmedFront(p);
  }

  lemma TrimmedFront(p: Parts)
    requires Sectioned(p)
    ensures TrimmedEnd(Whole(p), |Front(p)| + |p.gap|) == |Front(p)|
  {
    var lines, n := Whole(p), |Front(p)|;
    ExpectedIsHeading(p.heading);
    HeadingVisible(p.heading);
    assert lines[n - 1] == Front(p)[n - 1];
    assert !Blank(lines[n - 1]);
    forall i | n <= i < n + |p.gap| ensures Blank(lines[i]) {
      assert lines[i] == p.gap[i - n];
    }
  }

  lemma SliceNone(lines: seq<string>, from: nat, to: nat, bad: string -> bool)
    requires from <= to <= |lines| && forall i :: from <= i < to ==> !bad(lines[i])
    ensures forall l :: l in lines[from..to] ==> !bad(l)
  {
    forall l | l in lines[from..to] ensures !bad(l) {
      var i :| 0 <= i < to - from && lines[from..to][i] == l;
      assert l == lines[from + i];
    }
  }

  lemma SlicesWhole(lines: seq<string>, head: nat, index: nat, end: nat)
    requires head < index <= end <= |lines|
    ensures lines[..head] + [lines[head]] + lines[head + 1..index] + lines[index..end] + lines[end..] == lines
  {
  }

  lemma SectionBounds(lines: seq<string>) returns (head: nat, end: nat)
    requires InsertIndex(lines).Some?
    ensures head < end <= |lines| && IsExpected(lines[head])
    ensures forall i :: 0 <= i < head ==> !IsExpected(lines[i])
    ensures forall i :: head < i < end ==> !EndsSection(lines[i])
    ensures end < |lines| ==> EndsSection(lines[end])
    ensures InsertIndex(lines) == Some(TrimmedEnd(lines, end))
  {
    hide TrimmedEnd, Find, IsExpected, EndsSection;
    head := Find(IsExpected, lines);
    var after := lines[head + 1..];
    end := head + 1 + Find(EndsSection, after);
    assert end < |lines| ==> after[end - head - 1] == lines[end];
    forall i | head < i < end ensures !EndsSection(lines[i]) {
      assert lines[i] == after[i - head - 1];
    }
  }

  /** Every file with an insertion point can be split this way. */
  lemma Locate(lines: seq<string>) returns (p: Parts)
    requires InsertIndex(lines).Some?
    ensures Sectioned(p) && lines == Whole(p)
  {
    hide TrimmedEnd, Find, Blank, IsExpected, EndsSection, InsertIndex, Sectioned;
    var head, end := SectionBounds(lines);
    var index := TrimmedEnd(lines, end);
    ExpectedIsHeading(lines[head]);
    HeadingVisible(lines[head]);
    assert head < index;
    p := Parts(lines[..head], lines[head], lines[head + 1..index], lines[index..end], lines[end..]);
    SlicesWhole(lines, head, index, end);
    SectionParts(lines, head, index, end);
  }

  lemma SectionParts(lines: seq<string>, head: nat, index: nat, end: nat)
    requires head < index <= end <= |lines| && IsExpected(lines[head])
    requires forall i :: 0 <= i < head ==> !IsExpected(lines[i])
    requires forall i :: head < i < index ==> !EndsSection(lines[i])
    requires !Blank(lines[index - 1]) && forall i :: index <= i < end ==> Blank(lines[i])
    requires end < |lines| ==> EndsSection(lines[end])
    ensures Sectioned(Parts(lines[..head], lines[head], lines[head + 1..index], lines[index..end], lines[end..]))
  {
    hide Blank, IsExpected, EndsSection;
    SliceNone(lines, 0, head, IsExpected);
    assert lines[0..head] == lines[..head];
    SliceNone(lines, head + 1, index, EndsSection);
    SliceNone(lines, index, end, l => !Blank(l));
  }

  // ---------------------------------------------------------------------
  // The shape of the result
  // ---------------------------------------------------------------------

  function Mid(images: seq<string>): seq<string> {
    if images == [] then [] else [""] + images
  }

  lemma EmptyIsBlank()
    ensures Blank("")
  {
  }

  lemma CollapseGap(gap: seq<string>, rest: seq<string>)
    requires AllBlank(gap) && (rest != [] ==> !Blank(rest[0]))
    ensures Collapse(gap + rest, true) == Collapse(rest, false)
  {
    CollapseConcat(gap, rest, true);
    CollapseBlanks(gap);
    CollapseStart(rest);
  }

  lemma CollapseBlankFirst(lines: seq<string>)
    ensures Collapse([""] + lines, false) == [""] + Collapse(lines, true)
  {
    assert ([""] + lines)[1..] == lines;
  }

  lemma CollapseImagesFirst(images: seq<string>, lines: seq<string>)
    requires NoneBlank(images) && images != []
    ensures Collapse(images + lines, true) == images + Collapse(lines, false)
  {
    CollapseConcat(images, lines, true);
    CollapseVisible(images, true);
    assert images[|images| - 1] in images;
  }

  lemma CollapseInserted(images: seq<string>, gap: seq<string>, rest: seq<string>)
    requires NoneBlank(images) && AllBlank(gap) && (rest != [] ==> !Blank(rest[0]))
    ensures Collapse([""] + images + [""] + (gap + rest), false) == Mid(images) + [""] + Collapse(rest, false)
  {
    hide Collapse;
    var tail := [""] + (gap + rest);
    assert [""] + images + [""] + (gap + rest) == [""] + (images + tail);
    CollapseBlankFirst(images + tail);
    if images == [] {
      assert images + tail == ([""] + gap) + rest;
      CollapseGap([""] + gap, rest);
    } else {
      CollapseImagesFirst(images, tail);
      CollapseBlankFirst(gap + rest);
      CollapseGap(gap, rest);
    }
  }

  lemma FrontVisible(p: Parts)
    requires Sectioned(p)
    ensures !Blank(Front(p)[|Front(p)| - 1])
  {
    ExpectedIsHeading(p.heading);
    HeadingVisible(p.heading);
  }

  lemma RestVisible(p: Parts)
    requires Sectioned(p)
    ensures p.rest != [] ==> !Blank(p.rest[0])
  {
    if p.rest != [] {
      HeadingVisible(p.rest[0]);
    }
  }

  lemma CollapseFront(p: Parts, tail: seq<string>)
    requires Sectioned(p)
    ensures Collapse(Front(p) + tail, false) == Collapse(Front(p), false) + Collapse(tail, false)
  {
    CollapseConcat(Front(p), tail, false);
    FrontVisible(p);
  }

  lemma InsertAtFront(p: Parts, lines: seq<string>, images: seq<string>)
    requires lines == Whole(p)
    ensures lines[..|Front(p)|] + ([""] + images + [""]) + lines[|Front(p)|..]
         == Front(p) + ([""] + images + [""] + (p.gap + p.rest))
  {
  }

  /** The images end up at the end of the Expected section, set off by one blank line on either side. */
  lemma ImagesEndTheSection(p: Parts, lines: seq<string>, images: seq<string>)
    requires Sectioned(p) && lines == Whole(p) && NoneBlank(images)
    ensures InsertIndex(lines) == Some(|Front(p)|)
    ensures Insert(lines, images, |Front(p)|)
         == Collapse(Front(p), false) + (Mid(images) + [""] + Collapse(p.rest, false))
  {
    IndexOfSectioned(p, lines);
    InsertAtFront(p, lines, images);
    CollapseFront(p, [""] + images + [""] + (p.gap + p.rest));
    RestVisible(p);
    CollapseInserted(images, p.gap, p.rest);
  }

  lemma VisibleBlock(images: seq<string>)
    requires NoneBlank(images)
    ensures VisibleOnly([""] + images + [""]) == images
  {
    VisibleOnlyConcat([""] + images, [""]);
    VisibleOnlyConcat([""], images);
    VisibleOnlyOfVisible(images);
    assert [""][1..] == [];
    assert VisibleOnly([""]) == [];
  }

  /** After an update no two blank lines are adjacent, and the visible lines are the old
      ones with the images inserted. */
  lemma InsertKeepsText(lines: seq<string>, images: seq<string>, index: nat)
    requires index <= |lines| && NoneBlank(images)
    ensures NoAdjacentBlanks(Insert(lines, images, index))
    ensures VisibleOnly(Insert(lines, images, index))
         == VisibleOnly(lines[..index]) + images + VisibleOnly(lines[index..])
  {
    var front, block, tail := lines[..index], [""] + images + [""], lines[index..];
    CollapsedHasNoPairs(front + block + tail, false);
    CollapseKeepsVisible(front + block + tail, false);
    VisibleOnlyConcat(front + block, tail);
    VisibleOnlyConcat(front, block);
    VisibleBlock(images);
  }

  lemma {:induction false} VisibleOnlyOfVisible(lines: seq<string>)
    requires NoneBlank(lines)
    ensures VisibleOnly(lines) == lines
  {
    if lines == [] {
    } else {
      assert lines[0] in lines;
      VisibleOnlyOfVisible(lines[1..]);
    }
  }
}

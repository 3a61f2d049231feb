/** Updating the figure references of a file once and twice. */
module TaskFigures {
  import opened Common
  import opened Text
  import opened FigureLines
  import opened FigureRemoval

  // ---------------------------------------------------------------------
  // The second update, when removal leaves no reference behind
  // ---------------------------------------------------------------------

  /** The file after the first update, with the images removed again. */
  lemma SecondLines(front: seq<string>, mid: seq<string>, rest: seq<string>)
    requires front != [] && AllOneLine(front + mid + [""] + rest)
    requires StripEach(front) == front && StripEach(rest) == rest
    requires StripEach(mid + [""]) == EmptyLines(|mid| + 1)
    ensures StrippedLines(Join(front + (mid + [""] + rest)))
         == if rest == [] then front + EmptyLines(|mid|) else front + EmptyLines(|mid| + 1) + DropFinal(rest)
  {
    hide StripEach, Split, Join, Expand;
    var lines := front + (mid + [""] + rest);
    assert lines == front + mid + [""] + rest;
    SplitOfJoin(lines);
    StrippedLinesOf(Join(lines), lines);
    assert lines == (front + (mid + [""])) + rest;
    StripEachConcat(front + (mid + [""]), rest);
    StripEachConcat(front, mid + [""]);
    var empty := EmptyLines(|mid| + 1);
    assert StripEach(lines) == front + empty + rest;
    if rest == [] {
      assert front + empty + rest == front + EmptyLines(|mid|) + [""];
    } else {
      assert DropFinal(front + empty + rest) == front + empty + DropFinal(rest);
    }
  }

  /** The split of the file that the second update sees. */
  function SecondParts(p: Parts, n: nat): Parts {
    var rest := Collapse(p.rest, false);
    Parts(Collapse(p.before, false), p.heading, Collapse(p.body, false),
          if rest == [] then EmptyLines(n) else EmptyLines(n + 1), if rest == [] then [] else DropFinal(rest))
  }

  lemma CollapseParts(p: Parts)
    requires Sectioned(p)
    ensures Collapse(Front(p), false) == Front(SecondParts(p, 0))
  {
    hide Strip;
    ExpectedIsHeading(p.heading);
    HeadingVisible(p.heading);
    CollapseConcat(p.before + [p.heading], p.body, false);
    CollapseConcat(p.before, [p.heading], false);
    assert [p.heading][1..] == [];
  }

  lemma {:induction false} CollapseLast(lines: seq<string>)
    requires lines != []
    ensures Collapse(lines, false) != []
    ensures !Blank(lines[|lines| - 1]) ==> Collapse(lines, false)[|Collapse(lines, false)| - 1] == lines[|lines| - 1]
  {
    var front, last := lines[..|lines| - 1], lines[|lines| - 1];
    assert lines == front + [last];
    CollapseConcat(front, [last], false);
    assert [last][1..] == [];
    assert Collapse(lines, false)[0] == lines[0];
  }

  lemma SecondSectioned(p: Parts, n: nat)
    requires Sectioned(p)
    ensures Sectioned(SecondParts(p, n))
  {
    hide Collapse, Strip;
    var q := SecondParts(p, n);
    EmptyIsBlank();
    forall l | l in q.before ensures !IsExpected(l) {
      CollapseMembers(p.before, false, l);
    }
    forall l | l in q.body ensures !EndsSection(l) {
      CollapseMembers(p.body, false, l);
    }
    if q.body != [] {
      CollapseMembers(p.body, false, q.body[0]);
      CollapseLast(p.body);
    }
    SecondRest(p);
  }

  lemma SecondRest(p: Parts)
    requires Sectioned(p)
    ensures var rest := Collapse(p.rest, false);
            && (rest == [] <==> p.rest == [])
            && (rest != [] ==> DropFinal(rest) != [] && DropFinal(rest)[0] == p.rest[0])
  {
    RestVisible(p);
    if p.rest != [] {
      assert Collapse(p.rest, false)[0] == p.rest[0];
      assert !Blank(p.rest[0]);
    }
  }

  lemma NoPairsPrefix(lines: seq<string>)
    requires NoAdjacentBlanks(lines)
    ensures NoAdjacentBlanks(DropFinal(lines))
  {
  }

  /** The second insertion puts the images back where they were. */
  lemma SecondInsert(p: Parts, n: nat, lines: seq<string>, images: seq<string>)
    requires Sectioned(p) && NoneBlank(images) && lines == Whole(SecondParts(p, n))
    ensures InsertIndex(lines) == Some(|Collapse(Front(p), false)|)
    ensures Insert(lines, images, |Collapse(Front(p), false)|)
         == Collapse(Front(p), false)
            + (Mid(images) + [""] + if p.rest == [] then [] else DropFinal(Collapse(p.rest, false)))
  {
    hide Collapse, InsertIndex, Insert, Sectioned;
    var q := SecondParts(p, n);
    SecondSectioned(p, n);
    CollapseParts(p);
    assert Front(q) == Front(SecondParts(p, 0));
    ImagesEndTheSection(q, lines, images);
    CollapsedHasNoPairs(Front(p), false);
    CollapseFixed(Front(q));
    CollapsedHasNoPairs(p.rest, false);
    NoPairsPrefix(Collapse(p.rest, false));
    CollapseFixed(q.rest);
    SecondRest(p);
  }

  /** No empty line follows the last visible line directly. */
  predicate CleanEnd(lines: seq<string>) {
    var n := TrimmedEnd(lines, |lines|);
    n == |lines| || lines[n] != ""
  }

  predicate SectionIsLast(lines: seq<string>) {
    SectionEnd(lines) == Some(|lines|)
  }

  /** Of a file's end, collapsing keeps the last visible line and the blank line after it. */
  lemma CollapseEnd(u: seq<string>, w: seq<string>)
    requires u != [] && !Blank(u[|u| - 1]) && AllBlank(w)
    ensures Collapse(u + w, false) != []
    ensures Collapse(u + w, false)[|Collapse(u + w, false)| - 1] == if w == [] then u[|u| - 1] else w[0]
  {
    CollapseConcat(u, w, false);
    CollapseLast(u);
    if w != [] {
      CollapseBlanks(w[1..]);
      assert w[0] in w;
      assert Collapse(w, false) == [w[0]];
    }
  }

  lemma TrimmedEndIs(lines: seq<string>, n: nat)
    requires n <= |lines| && (forall i :: n <= i < |lines| ==> Blank(lines[i])) && (n > 0 ==> !Blank(lines[n - 1]))
    ensures TrimmedEnd(lines, |lines|) == n
  {
    hide TrimmedEnd, Blank;
  }

  /** Everything from position n on is blank, and nothing directly before it. */
  predicate BlankFrom(lines: seq<string>, n: nat) {
    n <= |lines| && (forall i :: n <= i < |lines| ==> Blank(lines[i])) && (n > 0 ==> !Blank(lines[n - 1]))
  }

  lemma BlankFromAfter(a: seq<string>, rest: seq<string>, n: nat)
    requires BlankFrom(rest, n) && n > 0
    ensures BlankFrom(a + rest, |a| + n)
  {
    hide Blank;
    var lines := a + rest;
    forall i | |a| + n <= i < |lines| ensures Blank(lines[i]) {
      assert lines[i] == rest[i - |a|];
    }
    assert lines[|a| + n - 1] == rest[n - 1];
  }

  lemma TrimmedEndBlank(lines: seq<string>)
    ensures BlankFrom(lines, TrimmedEnd(lines, |lines|))
    ensures forall n :: BlankFrom(lines, n) ==> TrimmedEnd(lines, |lines|) == n
  {
    hide TrimmedEnd, Blank;
  }

  lemma TrimmedEndAfter(a: seq<string>, rest: seq<string>, lines: seq<string>)
    requires lines == a + rest && rest != [] && !Blank(rest[0])
    ensures 0 < TrimmedEnd(rest, |rest|)
    ensures TrimmedEnd(lines, |lines|) == |a| + TrimmedEnd(rest, |rest|)
  {
    hide TrimmedEnd, Blank, BlankFrom;
    TrimmedEndBlank(rest);
    TrimmedEndBlank(lines);
    assert TrimmedEnd(rest, |rest|) > 0;
    BlankFromAfter(a, rest, TrimmedEnd(rest, |rest|));
  }

  lemma CleanEndAfter(a: seq<string>, rest: seq<string>, lines: seq<string>)
    requires lines == a + rest && rest != [] && !Blank(rest[0])
    ensures CleanEnd(lines) <==> CleanEnd(rest)
  {
    hide TrimmedEnd, Blank;
    TrimmedEndAfter(a, rest, lines);
  }

  /** The end of the file survives being written and read back exactly when it is clean. */
  lemma EndKept(rest: seq<string>)
    requires rest != [] && !Blank(rest[0])
    ensures DropFinal(Collapse(rest, false)) == Collapse(rest, false) <==> CleanEnd(rest)
  {
    hide Collapse, Strip, TrimmedEnd, DropFinal, Blank;
    TrimmedEndAfter([], rest, rest);
    var m := TrimmedEnd(rest, |rest|);
    SliceNone(rest, m, |rest|, l => !Blank(l));
    assert rest[m..|rest|] == rest[m..];
    assert rest == rest[..m] + rest[m..];
    CollapseEnd(rest[..m], rest[m..]);
    DropFinalSame(Collapse(rest, false));
    EmptyIsBlank();
  }

  lemma DropFinalSame(lines: seq<string>)
    requires lines != []
    ensures DropFinal(lines) == lines <==> lines[|lines| - 1] != ""
  {
  }

  lemma JoinInjective(a: seq<string>, b: seq<string>)
    requires a != [] && b != [] && AllOneLine(a) && AllOneLine(b)
    ensures Join(a) == Join(b) <==> a == b
  {
    SplitOfJoin(a);
    SplitOfJoin(b);
  }

  lemma CollapseOneLine(lines: seq<string>)
    requires AllOneLine(lines)
    ensures AllOneLine(Collapse(lines, false))
  {
    forall l | l in Collapse(lines, false) ensures OneLine(l) {
      CollapseMembers(lines, false, l);
    }
  }

  lemma UpdateOf(content: string, lines: seq<string>, images: seq<string>, p: Parts)
    requires lines == StrippedLines(content) && Sectioned(p) && lines == Whole(p) && NoneBlank(images)
    ensures Update(content, images)
         == Join(Collapse(Front(p), false) + (Mid(images) + [""] + Collapse(p.rest, false)))
  {
    hide Collapse, StrippedLines, InsertIndex, Insert, Join;
    ImagesEndTheSection(p, lines, images);
  }

  lemma SecondUpdateOf(content: string, lines: seq<string>, images: seq<string>, p: Parts, n: nat)
    requires lines == StrippedLines(content) && Sectioned(p) && lines == Whole(SecondParts(p, n)) && NoneBlank(images)
    ensures Update(content, images)
         == Join(Collapse(Front(p), false)
                 + (Mid(images) + [""] + if p.rest == [] then [] else DropFinal(Collapse(p.rest, false))))
  {
    hide Collapse, StrippedLines, InsertIndex, Insert, Join;
    SecondInsert(p, n, lines, images);
  }

  /** The lines the second update sees, when every line is stable. */
  lemma SecondRead(p: Parts, task: string, names: seq<string>)
    requires Sectioned(p) && WellNamedAll(task, names) && Stable(Whole(p)) && AllOneLine(Whole(p))
    ensures var images := ImageLines(task, names);
            StrippedLines(Join(Collapse(Front(p), false) + (Mid(images) + [""] + Collapse(p.rest, false))))
            == Whole(SecondParts(p, |Mid(images)|))
  {
    hide Collapse, StrippedLines, Join, StripEach, ImageLines, Sectioned;
    var images := ImageLines(task, names);
    CollapsedStable(Front(p), Whole(p));
    CollapsedStable(p.rest, Whole(p));
    MidRemoved(task, names);
    ImagesRemoved(task, names);
    CollapseOneLine(Front(p));
    CollapseOneLine(p.rest);
    CollapseParts(p);
    FrontNonempty(p);
    SecondLines(Collapse(Front(p), false), Mid(images), Collapse(p.rest, false));
    SecondRest(p);
  }

  lemma FrontNonempty(p: Parts)
    ensures Collapse(Front(p), false) != []
  {
    assert Front(p) != [];
  }

  /** When removal leaves no reference behind, a second update changes the file only by losing an empty last line. */
  lemma TwiceStable(content: string, task: string, names: seq<string>, p: Parts)
    requires WellNamedAll(task, names) && Sectioned(p)
    requires StrippedLines(content) == Whole(p) && Stable(Whole(p)) && AllOneLine(Whole(p))
    ensures var images := ImageLines(task, names);
            Update(Update(content, images), images) == Update(content, images)
            <==> SectionIsLast(Whole(p)) || CleanEnd(Whole(p))
  {
    hide Collapse, StrippedLines, Join, StripEach, ImageLines, Sectioned, Update, CleanEnd, SectionEnd;
    var images := ImageLines(task, names);
    ImagesRemoved(task, names);
    var front, rest := Collapse(Front(p), false), Collapse(p.rest, false);
    var kept := if p.rest == [] then [] else DropFinal(rest);
    var first, second := front + (Mid(images) + [""] + rest), front + (Mid(images) + [""] + kept);
    UpdateOf(content, Whole(p), images, p);
    SecondRead(p, task, names);
    SecondUpdateOf(Join(first), Whole(SecondParts(p, |Mid(images)|)), images, p, |Mid(images)|);
    CollapseOneLine(Front(p));
    CollapseOneLine(p.rest);
    JoinInjective(first, second);
    EndOfSection(p, Whole(p));
    SecondRest(p);
    if p.rest != [] {
      RestVisible(p);
      EndKept(p.rest);
      CleanEndAfter(p.before + [p.heading] + p.body + p.gap, p.rest, Whole(p));
    }
    SameEnds(front + (Mid(images) + [""]), rest, kept, first, second);
  }

  lemma SameEnds<T>(a: seq<T>, b: seq<T>, c: seq<T>, ab: seq<T>, ac: seq<T>)
    requires ab == a + b && ac == a + c
    ensures ab == ac <==> b == c
  {
    assert ab[|a|..] == b && ac[|a|..] == c;
  }

  // ---------------------------------------------------------------------
  // When removal forms a new reference, the second update removes text for good
  // ---------------------------------------------------------------------

  lemma {:induction false} VisibleLinesConcat(a: seq<string>, b: seq<string>)
    ensures VisibleLines(a + b) == VisibleLines(a) + VisibleLines(b)
  {
    hide Visible;
    if a == [] {
      assert a + b == b;
    } else {
      VisibleLinesConcat(a[1..], b);
      assert (a + b)[1..] == a[1..] + b;
    }
  }

  lemma BlankInvisible(line: string)
    requires Blank(line)
    ensures Visible(line) == 0
  {
    StripBlank(line);
    VisibleBlank(line);
  }

  lemma {:induction false} CollapseVisibleLines(lines: seq<string>, prev: bool)
    ensures VisibleLines(Collapse(lines, prev)) == VisibleLines(lines)
    ensures VisibleLines(StripEach(Collapse(lines, prev))) == VisibleLines(StripEach(lines))
    decreases |lines|
  {
    hide Visible, StripImages, Strip;
    if lines == [] {
    } else {
      var rest := Collapse(lines[1..], Blank(lines[0]));
      CollapseVisibleLines(lines[1..], Blank(lines[0]));
      assert ([lines[0]] + rest)[1..] == rest;
      if Blank(lines[0]) {
        BlankInvisible(lines[0]);
        StripImagesBlank(lines[0]);
      }
    }
  }

  lemma {:induction false} StripEachVisible(lines: seq<string>)
    ensures VisibleLines(StripEach(lines)) <= VisibleLines(lines)
    ensures VisibleLines(StripEach(lines)) == VisibleLines(lines) <==> Stable(lines)
  {
    hide Visible, StripImages;
    if lines == [] {
    } else {
      StripImagesVisible(lines[0]);
      StripEachVisible(lines[1..]);
      assert lines == [lines[0]] + lines[1..];
    }
  }

  lemma {:induction false} EmptyLinesVisible(n: nat)
    ensures VisibleLines(EmptyLines(n)) == 0
  {
    if n == 0 {
    } else {
      assert EmptyLines(n)[1..] == EmptyLines(n - 1);
      EmptyLinesVisible(n - 1);
    }
  }

  lemma DropFinalVisible(lines: seq<string>)
    ensures VisibleLines(DropFinal(lines)) == VisibleLines(lines)
  {
    if lines != [] && lines[|lines| - 1] == "" {
      var front := lines[..|lines| - 1];
      assert lines == front + [""];
      VisibleLinesConcat(front, [""]);
      assert [""][1..] == [] && VisibleLines([""]) == 0;
    }
  }

  /** An insertion adds the visible text of the images and nothing else. */
  lemma InsertVisible(lines: seq<string>, images: seq<string>, index: nat)
    requires index <= |lines|
    ensures VisibleLines(Insert(lines, images, index)) == VisibleLines(lines) + VisibleLines(images)
  {
    hide VisibleLines, Collapse;
    var front, block, tail := lines[..index], [""] + images + [""], lines[index..];
    CollapseVisibleLines(front + block + tail, false);
    VisibleLinesConcat(front + block, tail);
    VisibleLinesConcat(front, block);
    VisibleLinesConcat([""] + images, [""]);
    VisibleLinesConcat([""], images);
    EmptyLinesVisible(1);
    assert EmptyLines(1) == [""];
    VisibleLinesConcat(front, tail);
    assert front + tail == lines;
  }

  /** Removing the references again leaves the visible text of the lines that were there, stripped once more. */
  lemma RemovedVisible(lines: seq<string>, task: string, names: seq<string>, index: nat)
    requires index <= |lines| && WellNamedAll(task, names)
    ensures VisibleLines(StripEach(Insert(lines, ImageLines(task, names), index))) == VisibleLines(StripEach(lines))
  {
    hide VisibleLines, Collapse, StripEach, ImageLines;
    var images := ImageLines(task, names);
    var front, block, tail := lines[..index], [""] + images + [""], lines[index..];
    CollapseVisibleLines(front + block + tail, false);
    StripEachConcat(front + block, tail);
    StripEachConcat(front, block);
    VisibleLinesConcat(StripEach(front) + StripEach(block), StripEach(tail));
    VisibleLinesConcat(StripEach(front), StripEach(block));
    BlockRemoved(task, names);
    StripEachConcat(front, tail);
    VisibleLinesConcat(StripEach(front), StripEach(tail));
    assert front + tail == lines;
  }

  lemma BlockRemoved(task: string, names: seq<string>)
    requires WellNamedAll(task, names)
    ensures VisibleLines(StripEach([""] + ImageLines(task, names) + [""])) == 0
  {
    hide VisibleLines, StripEach, ImageLines;
    var images := ImageLines(task, names);
    ImagesRemoved(task, names);
    StripEachConcat([""] + images, [""]);
    StripEachConcat([""], images);
    StripBlankLine();
    VisibleLinesConcat([""] + EmptyLines(|names|), [""]);
    VisibleLinesConcat([""], EmptyLines(|names|));
    EmptyLinesVisible(|names|);
    EmptyLinesVisible(1);
    assert EmptyLines(1) == [""];
  }

  lemma PrefixStays(p: string, line: string)
    requires '!' !in p && p <= line
    ensures p <= StripImages(line)
  {
    hide StripImages;
    StripImagesPrefix(p, line[|p|..], line);
  }

  lemma ExpectedStaysExpected(line: string)
    requires IsExpected(line)
    ensures IsExpected(StripImages(line)) && StripImages(line) != ""
  {
    hide StripImages;
    if "## Expected result" <= line {
      PrefixStays("## Expected result", line);
    } else if "## Expected curve" <= line {
      PrefixStays("## Expected curve", line);
    } else {
      PrefixStays("## Expected graph", line);
    }
  }

  lemma {:induction false} StripEachAt(lines: seq<string>, i: nat)
    requires i < |lines|
    ensures i < |StripEach(lines)| && StripEach(lines)[i] == StripImages(lines[i])
  {
    hide StripImages;
    if i == 0 {
    } else {
      StripEachAt(lines[1..], i - 1);
    }
  }

  lemma FoundIfSome(lines: seq<string>, i: nat)
    requires i < |lines| && IsExpected(lines[i])
    ensures InsertIndex(lines).Some?
  {
    hide TrimmedEnd, IsExpected;
    assert Find(IsExpected, lines) <= i;
  }

  /** The Expected section is still there for the second update. */
  lemma SectionStays(lines: seq<string>, i: nat)
    requires i < |lines| && IsExpected(lines[i])
    ensures InsertIndex(DropFinal(StripEach(lines))).Some?
  {
    hide StripImages, InsertIndex, StripEach, IsExpected;
    StripEachAt(lines, i);
    ExpectedStaysExpected(lines[i]);
    FoundIfSome(DropFinal(StripEach(lines)), i);
  }

  lemma InsertOneLine(lines: seq<string>, images: seq<string>, index: nat)
    requires index <= |lines| && AllOneLine(lines) && AllOneLine(images)
    ensures Insert(lines, images, index) != [] && AllOneLine(Insert(lines, images, index))
  {
    CollapseOneLine(lines[..index] + ([""] + images + [""]) + lines[index..]);
  }

  lemma UpdateLines(content: string, lines: seq<string>, images: seq<string>)
    ensures lines == StrippedLines(content) && InsertIndex(lines).Some? ==>
              Update(content, images) == Join(Insert(lines, images, InsertIndex(lines).value))
  {
  }

  /** When some line gains a reference through the removal of others, the second update changes the file. */
  lemma UnstableChanges(content: string, task: string, names: seq<string>)
    requires WellNamedAll(task, names)
    ensures var images, lines := ImageLines(task, names), StrippedLines(content);
            InsertIndex(lines).Some? && !Stable(lines) ==>
              Update(Update(content, images), images) != Update(content, images)
  {
    hide StrippedLines, InsertIndex, Insert, Update, ImageLines, StripEach, Join, Split, VisibleLines, Stable;
    var images, lines := ImageLines(task, names), StrippedLines(content);
    if InsertIndex(lines).None? || Stable(lines) {
      return;
    }
    StrippedLinesOf(content, Split(content));
    var index := InsertIndex(lines).value;
    ImagesRemoved(task, names);
    var first := Insert(lines, images, index);
    UpdateLines(content, lines, images);
    InsertOneLine(lines, images, index);
    SplitOfJoin(first);
    StrippedLinesOf(Join(first), first);
    var again := DropFinal(StripEach(first));
    SectionInResult(lines, images);
    UpdateLines(Join(first), again, images);
    var second := Insert(again, images, InsertIndex(again).value);
    InsertVisible(lines, images, index);
    InsertVisible(again, images, InsertIndex(again).value);
    DropFinalVisible(StripEach(first));
    RemovedVisible(lines, task, names, index);
    StripEachVisible(lines);
    InsertOneLine(again, images, InsertIndex(again).value);
    JoinInjective(first, second);
  }

  lemma SectionInResult(lines: seq<string>, images: seq<string>)
    requires InsertIndex(lines).Some?
    ensures InsertIndex(DropFinal(StripEach(Insert(lines, images, InsertIndex(lines).value)))).Some?
  {
    hide Collapse, StripEach, IsExpected, Find;
    var p := Locate(lines);
    var index := InsertIndex(lines).value;
    ExpectedIsHeading(p.heading);
    HeadingVisible(p.heading);
    var inserted := lines[..index] + ([""] + images + [""]) + lines[index..];
    assert p.heading in lines;
    assert p.heading in inserted;
    CollapseMembers(inserted, false, p.heading);
    var i :| 0 <= i < |Collapse(inserted, false)| && Collapse(inserted, false)[i] == p.heading;
    SectionStays(Collapse(inserted, false), i);
  }

  /** Updating a file twice with the same figures equals updating it once exactly when removing its references leaves
      none behind and either the Expected section is the last one or no empty line directly follows the last visible
      line of the file. */
  lemma TwiceIff(content: string, task: string, names: seq<string>)
    requires WellNamedAll(task, names) && InsertIndex(StrippedLines(content)).Some?
    ensures var images, lines := ImageLines(task, names), StrippedLines(content);
            Update(Update(content, images), images) == Update(content, images)
            <==> Stable(lines) && (SectionIsLast(lines) || CleanEnd(lines))
  {
    hide StrippedLines, InsertIndex, Update, ImageLines, Stable, CleanEnd, SectionIsLast;
    var lines := StrippedLines(content);
    StrippedLinesOf(content, Split(content));
    if Stable(lines) {
      var p := Locate(lines);
      TwiceStable(content, task, names, p);
    } else {
      UnstableChanges(content, task, names);
    }
  }

  /** Without an Expected section the file stays as it is. */
  lemma NoSection(content: string, images: seq<string>)
    requires forall l :: l in StrippedLines(content) ==> !IsExpected(l)
    ensures Update(content, images) == content
  {
    var lines := StrippedLines(content);
    FindIs(IsExpected, lines, |lines|);
  }

  /** Removing a reference can form another one around it, so one pass is not always enough. */
  lemma RemovalFormsReference(alt: string, name: string, innerAlt: string, innerName: string)
    requires ']' !in innerAlt && PngName(innerName) && '!' !in alt && '!' !in name
    ensures StripImages("!" + Reference(innerAlt, innerName) + Reference(alt, name)[1..]) == Reference(alt, name)
  {
    hide MatchLength;
    var inner, tail := Reference(innerAlt, innerName), Reference(alt, name)[1..];
    var line := "!" + inner + tail;
    NoMatch(line);
    assert line[1..] == inner + tail;
    WholeMatch(innerAlt, innerName, tail);
    assert (inner + tail)[|inner|..] == tail;
    assert tail == "[" + alt + "](./" + name + ")";
    StripImagesPrefix(tail, "", tail);
    assert "!" + tail == Reference(alt, name);
  }

  lemma NoMatch(s: string)
    requires |s| >= 2 && s[1] == '!'
    ensures MatchLength(s) == 0
  {
  }

  /** Lines without an exclamation mark hold no reference. */
  lemma PlainLinesStay(lines: seq<string>)
    requires forall l :: l in lines ==> '!' !in l
    ensures Stable(lines) && StripEach(lines) == lines
  {
    forall l | l in lines ensures StripImages(l) == l {
      StripImagesPrefix(l, "", l);
    }
    StripEachStable(lines);
  }

  lemma LastLineDropped(content: string, split: seq<string>, lines: seq<string>)
    requires split != [] && AllOneLine(split) && content == Join(split)
    requires lines == DropFinal(StripEach(split))
    ensures StrippedLines(content) == lines
  {
    hide Join, StripEach, DropFinal;
    SplitOfJoin(split);
    StrippedLinesOf(content, split);
  }

  lemma SectionBefore(heading: string, next: string)
    requires IsExpected(heading) && EndsSection(next)
    ensures
      var lines := [heading, next, ""];
      InsertIndex(lines).Some? && !SectionIsLast(lines) && !CleanEnd(lines)
  {
    hide IsExpected, TrimmedEnd, Blank;
    var lines := [heading, next, ""];
    FoundIfSome(lines, 0);
    EndFound(lines, 0, 1);
    EmptyIsBlank();
    HeadingVisible(next);
    TrimmedEndIs(lines, 2);
  }

  /** A file in which a second update loses an empty line at the end: another section follows, then two empty lines. */
  lemma EmptyLastLineIsLost(heading: string, next: string, task: string, names: seq<string>)
    requires WellNamedAll(task, names)
    requires IsExpected(heading) && EndsSection(next)
    requires AllOneLine([heading, next]) && '!' !in heading && '!' !in next
    ensures
      var content, images := Join([heading, next, "", ""]), ImageLines(task, names);
      && InsertIndex(StrippedLines(content)).Some? && Stable(StrippedLines(content))
      && Update(Update(content, images), images) != Update(content, images)
  {
    hide Update, ImageLines, Stable, StrippedLines, InsertIndex, StripEach, Join, IsExpected, IsH2, CleanEnd,
      SectionIsLast;
    var split, lines := [heading, next, "", ""], [heading, next, ""];
    assert AllOneLine(split) by {
      assert heading in [heading, next] && next in [heading, next];
    }
    PlainLinesStay(split);
    PlainLinesStay(lines);
    assert split[..3] == lines;
    LastLineDropped(Join(split), split, lines);
    SectionBefore(heading, next);
    TwiceIff(Join(split), task, names);
  }

  lemma ReferenceLast(heading: string, line: string)
    requires IsExpected(heading) && !Blank(line)
    ensures
      var lines := [heading, line];
      InsertIndex(lines).Some? && CleanEnd(lines)
  {
    hide IsExpected, TrimmedEnd, Blank;
    var lines := [heading, line];
    FoundIfSome(lines, 0);
    TrimmedEndIs(lines, 2);
  }

  /** A file in which the removal of one reference forms another, which the second update removes. */
  lemma FormedReferenceIsLost(heading: string, alt: string, name: string, innerAlt: string, innerName: string,
                              task: string, names: seq<string>)
    requires WellNamedAll(task, names)
    requires IsExpected(heading) && '!' !in heading && OneLine(heading)
    requires ']' !in innerAlt && PngName(innerName) && OneLine(innerAlt) && OneLine(innerName)
    requires ']' !in alt && PngName(name) && OneLine(alt) && OneLine(name) && '!' !in alt && '!' !in name
    ensures
      var nested := "!" + Reference(innerAlt, innerName) + Reference(alt, name)[1..];
      var content, images := Join([heading, nested]), ImageLines(task, names);
      && InsertIndex(StrippedLines(content)).Some? && CleanEnd(StrippedLines(content))
      && Update(Update(content, images), images) != Update(content, images)
  {
    hide Update, ImageLines, StrippedLines, InsertIndex, StripImages, Join, IsExpected, CleanEnd, SectionIsLast, Blank,
      PngName;
    var formed := Reference(alt, name);
    var nested := "!" + Reference(innerAlt, innerName) + formed[1..];
    var split, lines := [heading, nested], [heading, formed];
    PlainLinesStay([heading]);
    RemovalFormsReference(alt, name, innerAlt, innerName);
    StripEachConcat([heading], [nested]);
    assert [nested][1..] == [] && StripEach([nested]) == [formed];
    assert split == [heading] + [nested] && lines == [heading] + [formed];
    assert OneLine(nested);
    LastLineDropped(Join(split), split, lines);
    ReferenceRemoved(alt, name);
    ReferenceVisible(alt, name);
    assert formed in lines && !Stable(lines);
    ReferenceLast(heading, formed);
    TwiceIff(Join(split), task, names);
  }

  lemma ReferenceVisible(alt: string, name: string)
    ensures Reference(alt, name) != "" && !Blank(Reference(alt, name))
  {
    var line := Reference(alt, name);
    assert line[0] == '!';
    StripBlank(line);
    assert !IsSpace(line[0]);
  }

  /** Both at contents in full. */
  lemma TwoFilesThatChangeTwice(task: string, names: seq<string>)
    requires WellNamedAll(task, names)
    ensures ChangesTwice("## Expected result\n## Next\n\n", ImageLines(task, names))
    ensures ChangesTwice("## Expected result\n!![a](./b.png)[c](./d.png)", ImageLines(task, names))
  {
    hide ChangesTwice, ImageLines;
    EmptyLineAtTheEnd(task, names);
    NestedReference(task, names);
  }

  predicate ChangesTwice(content: string, images: seq<string>) {
    Update(Update(content, images), images) != Update(content, images)
  }

  lemma EmptyLineAtTheEnd(task: string, names: seq<string>)
    requires WellNamedAll(task, names)
    ensures ChangesTwice("## Expected result\n## Next\n\n", ImageLines(task, names))
  {
    hide Update, ImageLines, StrippedLines, InsertIndex, Join, CleanEnd, Stable;
    var heading, next := "## Expected result", "## Next";
    EmptyLastLineIsLost(heading, next, task, names);
    FourLines(heading, next, "", "");
    TextOfFirst();
  }

  lemma TextOfFirst()
    ensures "## Expected result" + "\n" + ("## Next" + "\n" + ("" + "\n" + "")) == "## Expected result\n## Next\n\n"
  {
    assert "" + "\n" + "" == "\n";
    assert "## Next" + "\n" + "\n" == "## Next\n\n";
  }

  lemma TextOfSecond()
    ensures "## Expected result" + "\n" + "!![a](./b.png)[c](./d.png)"
         == "## Expected result\n!![a](./b.png)[c](./d.png)"
  {
    assert "## Expected result" + "\n" == "## Expected result\n";
  }

  lemma NestedReference(task: string, names: seq<string>)
    requires WellNamedAll(task, names)
    ensures ChangesTwice("## Expected result\n!![a](./b.png)[c](./d.png)", ImageLines(task, names))
  {
    hide Update, ImageLines, StrippedLines, InsertIndex, Join, CleanEnd, Stable, Reference;
    var heading, nested := "## Expected result", "!![a](./b.png)[c](./d.png)";
    FormedReferenceIsLost(heading, "c", "d.png", "a", "b.png", task, names);
    NestedText();
    TwoLines(heading, nested);
    TextOfSecond();
  }

  lemma NestedText()
    ensures "!" + Reference("a", "b.png") + Reference("c", "d.png")[1..] == "!![a](./b.png)[c](./d.png)"
  {
    hide Reference;
    InnerReference();
    OuterReference();
  }

  lemma InnerReference()
    ensures Reference("a", "b.png") == "![a](./b.png)"
  {
    assert "![" + "a" == "![a";
    assert "![a" + "](./" == "![a](./";
    assert "![a](./" + "b.png" == "![a](./b.png";
  }

  lemma OuterReference()
    ensures Reference("c", "d.png") == "![c](./d.png)"
  {
    assert "![" + "c" == "![c";
    assert "![c" + "](./" == "![c](./";
    assert "![c](./" + "d.png" == "![c](./d.png";
  }

  lemma TwoLines(a: string, b: string)
    ensures Join([a, b]) == a + "\n" + b
  {
    assert [a, b][1..] == [b];
  }

  lemma FourLines(a: string, b: string, c: string, d: string)
    ensures Join([a, b, c, d]) == a + "\n" + (b + "\n" + (c + "\n" + d))
  {
    assert [a, b, c, d][1..] == [b, c, d] && [b, c, d][1..] == [c, d];
    TwoLines(c, d);
    assert Join([b, c, d]) == b + "\n" + Join([c, d]);
  }

  // ---------------------------------------------------------------------
  // The script
  // ---------------------------------------------------------------------

  lemma EndFound(lines: seq<string>, head: nat, end: nat)
    requires head == Find(IsExpected, lines) && head < end <= |lines|
    requires forall k :: head < k < end ==> !EndsSection(lines[k])
    requires end < |lines| ==> EndsSection(lines[end])
    ensures SectionEnd(lines) == Some(end)
  {
    hide EndsSection, IsExpected, Find;
    var after := lines[head + 1..];
    assert forall k :: 0 <= k < end - head - 1 ==> after[k] == lines[head + 1 + k];
    FindIs(EndsSection, after, end - head - 1);
  }

  /** The search for the end of the Expected section. */
  method FindSectionEnd(lines: seq<string>) returns (end: Option<nat>)
    ensures end == SectionEnd(lines)
  {
    hide IsExpected, IsH2;
    var inExpected := false;
    ghost var head := Find(IsExpected, lines);
    for i := 0 to |lines|
      invariant inExpected <==> head < i
      invariant forall k :: head < k < i ==> !EndsSection(lines[k])
    {
      if IsExpected(lines[i]) {
        inExpected := true;
        continue;
      }
      if inExpected && IsH2(lines[i]) {
        EndFound(lines, head, i);
        return Some(i);
      }
    }
    if !inExpected {
      return None;
    }
    EndFound(lines, head, |lines|);
    return Some(|lines|);
  }

  /** The insertion point: back from the end of the section over its trailing blank lines. */
  method FindInsertIndex(lines: seq<string>) returns (index: Option<nat>)
    ensures index == InsertIndex(lines)
  {
    hide SectionEnd, Blank;
    var end := FindSectionEnd(lines);
    if end == None {
      return None;
    }
    var r := end.value;
    while r > 0 && Blank(lines[r - 1])
      invariant r <= end.value
      invariant TrimmedEnd(lines, end.value) == TrimmedEnd(lines, r)
    {
      r := r - 1;
    }
    return Some(r);
  }

  /** `cleaned`: a line is skipped when it and the one before it are blank. */
  method CollapseBlankLines(lines: seq<string>) returns (cleaned: seq<string>)
    ensures cleaned == Collapse(lines, false)
  {
    hide Blank;
    cleaned := [];
    var prevBlank := false;
    for i := 0 to |lines|
      invariant cleaned + Collapse(lines[i..], prevBlank) == Collapse(lines, false)
    {
      var isBlank := Blank(lines[i]);
      assert lines[i..][1..] == lines[i + 1..];
      if isBlank && prevBlank {
        continue;
      }
      cleaned := cleaned + [lines[i]];
      prevBlank := isBlank;
    }
  }

  method ImageReferences(task: string, names: seq<string>) returns (images: seq<string>)
    ensures images == ImageLines(task, names)
  {
    images := [];
    for i := 0 to |names|
      invariant images + ImageLines(task, names[i..]) == ImageLines(task, names)
    {
      assert names[i..][1..] == names[i + 1..];
      images := images + [ImageLine(task, names[i])];
    }
  }

  /** The body of the loop of `_update_md_files` for one file: the new content, and whether it was written. */
  method UpdateFile(content: string, task: string, names: seq<string>) returns (r: string, updated: bool)
    ensures r == Update(content, ImageLines(task, names))
    ensures updated <==> exists l :: l in StrippedLines(content) && IsExpected(l)
    ensures !updated ==> r == content
  {
    hide Insert, ImageLines, IsExpected, SplitLines, StripEach;
    var images := ImageReferences(task, names);
    var lines := SplitLines(Join(StripEach(Split(content))));
    var index := FindInsertIndex(lines);
    match index
    case Some(i) =>
      var cleaned := CollapseBlankLines(lines[..i] + ([""] + images + [""]) + lines[i..]);
      InsertIs(lines, images, i, cleaned);
      r, updated := Join(cleaned), true;
      assert lines[Find(IsExpected, lines)] in lines;
    case None =>
      r, updated := content, false;
  }

  lemma InsertIs(lines: seq<string>, images: seq<string>, i: nat, cleaned: seq<string>)
    requires i <= |lines| && cleaned == Collapse(lines[..i] + ([""] + images + [""]) + lines[i..], false)
    ensures cleaned == Insert(lines, images, i)
  {
  }
}

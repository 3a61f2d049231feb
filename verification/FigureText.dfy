/** What a figure update writes and removes, character by character. */
module FigureText {
  import opened Text
  import opened FigureLines
  import opened FigureRemoval
  import opened TaskFigures

  /** One reference per figure, in order. */
  lemma {:induction false} ReferencesWritten(task: string, names: seq<string>, i: nat)
    ensures |ImageLines(task, names)| == |names|
    ensures i < |names| ==> ImageLines(task, names)[i] == "![Example result for " + task + "](./" + names[i] + ")"
    decreases |names|
  {
    if names == [] {
    } else {
      ReferencesWritten(task, names[1..], if i == 0 then 0 else i - 1);
    }
  }

  /** A visible line that starts no second-level heading and holds no '!'. */
  predicate PlainLine(line: string) {
    '\n' !in line && '!' !in line && !("## " <= line) && !Blank(line)
  }

  /** One of the three headings of an expected result. */
  predicate ExpectedHeading(line: string) {
    && ("## Expected result" <= line || "## Expected curve" <= line || "## Expected graph" <= line)
    && '\n' !in line && '!' !in line
  }

  predicate OtherHeading(line: string) {
    && "## " <= line && '\n' !in line && '!' !in line
    && !("## Expected result" <= line) && !("## Expected curve" <= line) && !("## Expected graph" <= line)
  }

  /** A line that an earlier update may have written. */
  ghost predicate OldReference(line: string) {
    exists alt, name :: line == "![" + alt + "](./" + name + ".png)" && PlainParts(alt, name)
  }

  predicate PlainParts(alt: string, name: string) {
    ']' !in alt && '\n' !in alt && ')' !in name && '\n' !in name && name != ""
  }

  /** The references of earlier updates go, and the new ones come after the text of the expected result, between single
      blank lines. */
  lemma FigureReplaced(heading: string, text: string, old_: seq<string>, next: string, task: string, names: seq<string>)
    requires ExpectedHeading(heading) && (PlainLine(text) || ExpectedHeading(text)) && OtherHeading(next)
    requires WellNamedAll(task, names)
    requires forall l :: l in old_ ==> OldReference(l)
    ensures Update(Join([heading, text, ""] + old_ + ["", next]), ImageLines(task, names)) ==
      Join([heading, text, ""] + (if names == [] then [] else ImageLines(task, names) + [""]) + [next])
  {
    hide Update, Join, ImageLines, StripEach, Collapse, IsExpected, EndsSection, Blank, StrippedLines, OldReference;
    var images := ImageLines(task, names);
    var p := Parts([], heading, [text], [""] + EmptyLines(|old_|) + [""], [next]);
    LinesLeft(heading, text, old_, next, Whole(p));
    IsSplit(heading, text, |old_|, next, p);
    ImagesRemoved(task, names);
    UpdateOf(Join([heading, text, ""] + old_ + ["", next]), Whole(p), images, p);
    NoBlanksStay(heading, text, next);
    var end := if names == [] then [] else images + [""];
    assert Front(p) == [heading, text];
    assert Mid(images) + [""] == [""] + end;
    assert [heading, text] + ([""] + end + [next]) == [heading, text, ""] + end + [next];
  }

  /** What is left of the lines when the old references are gone. */
  lemma LinesLeft(heading: string, text: string, old_: seq<string>, next: string, left: seq<string>)
    requires ExpectedHeading(heading) && (PlainLine(text) || ExpectedHeading(text)) && OtherHeading(next)
    requires forall l :: l in old_ ==> OldReference(l)
    requires left == [heading, text, ""] + EmptyLines(|old_|) + ["", next]
    ensures StrippedLines(Join([heading, text, ""] + old_ + ["", next])) == left
  {
    hide Join, StripEach, Blank, OldReference, StrippedLines;
    var top, split := [heading, text, ""], [heading, text, ""] + old_ + ["", next];
    OldRemoved(old_);
    PlainLinesStay(top);
    PlainLinesStay(["", next]);
    StripEachConcat(top + old_, ["", next]);
    StripEachConcat(top, old_);
    assert AllOneLine(split) by {
      forall l | l in old_ ensures OneLine(l) {
        OldIsOneLine(l);
      }
    }
    assert next != "" && left[|left| - 1] == next;
    LastLineDropped(Join(split), split, left);
  }

  lemma OldIsOneLine(line: string)
    requires OldReference(line)
    ensures OneLine(line)
  {
  }

  lemma {:induction false} OldRemoved(old_: seq<string>)
    requires forall l :: l in old_ ==> OldReference(l)
    ensures StripEach(old_) == EmptyLines(|old_|)
  {
    hide StripImages, OldReference;
    if old_ == [] {
    } else {
      OldRemoved(old_[1..]);
      OldIsRemoved(old_[0]);
    }
  }

  lemma OldIsRemoved(line: string)
    requires OldReference(line)
    ensures StripImages(line) == ""
  {
    hide StripImages;
    var alt, name :| line == "![" + alt + "](./" + name + ".png)" && PlainParts(alt, name);
    var full := name + ".png";
    assert full[|full| - 4..] == ".png" && ')' !in full;
    assert line == Reference(alt, full);
    ReferenceRemoved(alt, full);
  }

  lemma HeadingKinds(heading: string, next: string)
    requires ExpectedHeading(heading) && OtherHeading(next)
    ensures IsExpected(heading) && EndsSection(next) && !Blank(heading) && !Blank(next)
  {
    hide Blank;
    ExpectedIsHeading(heading);
    HeadingVisible(heading);
    HeadingVisible(next);
  }

  lemma IsSplit(heading: string, text: string, n: nat, next: string, p: Parts)
    requires ExpectedHeading(heading) && (PlainLine(text) || ExpectedHeading(text)) && OtherHeading(next)
    requires p == Parts([], heading, [text], [""] + EmptyLines(n) + [""], [next])
    ensures Sectioned(p)
    ensures Whole(p) == [heading, text, ""] + EmptyLines(n) + ["", next]
  {
    hide Blank;
    HeadingKinds(heading, next);
    EmptyIsBlank();
    if ExpectedHeading(text) {
      HeadingKinds(text, next);
    }
    assert !EndsSection(text);
  }

  lemma NoBlanksStay(heading: string, text: string, next: string)
    requires ExpectedHeading(heading) && (PlainLine(text) || ExpectedHeading(text)) && OtherHeading(next)
    ensures Collapse([heading, text], false) == [heading, text] && Collapse([next], false) == [next]
  {
    hide Blank, IsExpected, EndsSection;
    HeadingKinds(heading, next);
    if ExpectedHeading(text) {
      HeadingKinds(text, next);
    }
    assert [heading, text][1..] == [text] && [text][1..] == [] && [next][1..] == [];
    assert Collapse([text], false) == [text] + Collapse([], false);
  }

  /** A reference that is not to a PNG file beside the text is left alone. */
  lemma OtherReferencesStay(alt: string, target: string)
    requires ']' !in alt && ')' !in target && '!' !in alt && '!' !in target
    requires !("./" <= target && |target| >= 7 && target[|target| - 4..] == ".png")
    ensures StripImages("![" + alt + "](" + target + ")") == "![" + alt + "](" + target + ")"
  {
    hide MatchLength, StripImages;
    var tail := "[" + alt + "](" + target + ")";
    OtherNotMatched(alt, target, "![" + alt + "](" + target + ")");
    NoMark(alt, target);
    MarkInFront(alt, target);
    MarkThenPlain("!" + tail, tail);
  }

  lemma NoMark(alt: string, target: string)
    requires '!' !in alt && '!' !in target
    ensures '!' !in "[" + alt + "](" + target + ")"
  {
  }

  lemma MarkInFront(alt: string, target: string)
    ensures "![" + alt + "](" + target + ")" == "!" + ("[" + alt + "](" + target + ")")
  {
    assert "![" == "!" + "[";
  }

  lemma MarkThenPlain(line: string, tail: string)
    requires line == "!" + tail && '!' !in tail && MatchLength(line) == 0
    ensures StripImages(line) == line
  {
    hide MatchLength, StripImages;
    assert line[1..] == tail;
    UnmatchedStep(line);
    NothingIsStripped();
    StripImagesPrefix(tail, "", tail);
  }

  lemma NothingIsStripped()
    ensures StripImages("") == ""
  {
  }

  lemma UnmatchedStep(s: string)
    requires s != "" && MatchLength(s) == 0
    ensures StripImages(s) == [s[0]] + StripImages(s[1..])
  {
    hide MatchLength;
  }

  lemma OtherNotMatched(alt: string, target: string, line: string)
    requires ']' !in alt && ')' !in target && line == "![" + alt + "](" + target + ")"
    requires !("./" <= target && |target| >= 7 && target[|target| - 4..] == ".png")
    ensures MatchLength(line) == 0
  {
    hide IndexOf;
    var rest := "(" + target + ")";
    assert line[2..] == alt + ("]" + rest);
    AltEnds(alt, rest);
    var tail := line[2 + |alt|..];
    assert tail == "](" + target + ")";
    if "](./" <= tail {
      assert tail[2..4] == "./" && |target| >= 2 && tail[2..4] == target[..2] by {
        TargetStarts(target, tail);
      }
      var name := line[2 + |alt| + 4..];
      assert name == target[2..] + (")" + "");
      NameEnds(target[2..], "");
      assert name[..|target| - 2] == target[2..];
    }
  }

  lemma TargetStarts(target: string, tail: string)
    requires tail == "](" + target + ")" && "](./" <= tail
    ensures |target| >= 2 && tail[2..4] == "./" && tail[2..4] == target[..2]
  {
    var rest := target + ")";
    assert tail[2..] == rest && "./" <= rest;
    assert rest[|target|] == ')' && rest[0] == '.' && rest[1] == '/';
  }
}

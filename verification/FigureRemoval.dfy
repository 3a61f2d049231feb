/** What removing image references does to the lines of a file. */
module FigureRemoval {
  import opened Text
  import opened FigureLines

  lemma {:induction false} StripImagesChars(s: string)
    ensures |StripImages(s)| <= |s|
    ensures forall c :: c in StripImages(s) ==> c in s
    decreases |s|
  {
    if s == "" {
    } else {
      var n := MatchLength(s);
      if n > 0 {
        StripImagesChars(s[n..]);
      } else {
        StripImagesChars(s[1..]);
      }
    }
  }

  lemma StripImagesStep(s: string)
    requires s != "" && s[0] != '!'
    ensures StripImages(s) == [s[0]] + StripImages(s[1..])
  {
  }

  /** Text without an exclamation mark stays in front. */
  lemma {:induction false} StripImagesPrefix(p: string, s: string, t: string)
    requires '!' !in p && t == p + s
    ensures StripImages(t) == p + StripImages(s)
    decreases |p|
  {
    hide MatchLength, IndexOf;
    if p == "" {
      assert t == s;
    } else {
      assert t[0] == p[0] && p[0] in p;
      StripImagesPrefix(p[1..], s, t[1..]);
      StripImagesStep(t);
      var r := StripImages(s);
      assert [p[0]] + (p[1..] + r) == p + r;
    }
  }

  lemma MatchVisible(s: string, n: nat)
    requires 0 < n <= |s| && s[0] == '!'
    ensures Visible(s[n..]) < Visible(s)
  {
    VisibleConcat(s[..n], s[n..]);
    assert s == s[..n] + s[n..];
    assert s[..n][0] == '!';
    assert Visible(s[..n]) >= 1;
  }

  /** Removal takes visible text away exactly when it changes the line. */
  lemma {:induction false} StripImagesVisible(s: string)
    ensures Visible(StripImages(s)) <= Visible(s)
    ensures Visible(StripImages(s)) == Visible(s) <==> StripImages(s) == s
    decreases |s|
  {
    hide MatchLength, IndexOf;
    if s == "" {
    } else {
      var n := MatchLength(s);
      if n > 0 {
        StripImagesVisible(s[n..]);
        StripImagesChars(s[n..]);
        MatchVisible(s, n);
      } else {
        StripImagesVisible(s[1..]);
        assert ([s[0]] + StripImages(s[1..]))[1..] == StripImages(s[1..]);
      }
    }
  }

  lemma StripImagesBlank(line: string)
    requires Blank(line)
    ensures StripImages(line) == line
  {
    StripBlank(line);
    StripImagesPrefix(line, "", line);
  }

  predicate PngName(name: string) {
    ')' !in name && |name| >= 5 && name[|name| - 4..] == ".png"
  }

  predicate WellNamed(task: string, name: string) {
    && OneLine(task) && ']' !in task
    && OneLine(name) && PngName(name)
  }

  lemma IndexOfIs(s: string, c: char, k: nat)
    requires k < |s| && s[k] == c
    requires forall i :: 0 <= i < k ==> s[i] != c
    ensures IndexOf(s, c) == k
  {
  }

  lemma AltEnds(alt: string, rest: string)
    requires ']' !in alt
    ensures IndexOf(alt + ("]" + rest), ']') == |alt|
  {
    var after := alt + ("]" + rest);
    assert after[|alt|] == ']';
    assert forall i :: 0 <= i < |alt| ==> after[i] == alt[i];
    IndexOfIs(after, ']', |alt|);
  }

  lemma NameEnds(name: string, t: string)
    requires ')' !in name
    ensures IndexOf(name + (")" + t), ')') == |name|
  {
    var after := name + (")" + t);
    assert after[|name|] == ')';
    assert forall i :: 0 <= i < |name| ==> after[i] == name[i];
    IndexOfIs(after, ')', |name|);
  }

  function Reference(alt: string, name: string): string {
    "![" + alt + "](./" + name + ")"
  }

  /** A well-formed reference at the start of a text is matched as a whole. */
  lemma WholeMatch(alt: string, name: string, t: string)
    requires ']' !in alt && PngName(name)
    ensures MatchLength(Reference(alt, name) + t) == |Reference(alt, name)|
  {
    hide IndexOf;
    var s := Reference(alt, name) + t;
    var rest := "(./" + name + ")" + t;
    assert s[2..] == alt + ("]" + rest);
    AltEnds(alt, rest);
    var close := 2 + |alt|;
    var after := name + (")" + t);
    assert s[close..] == "](./" + after;
    assert s[close + 4..] == after;
    NameEnds(name, t);
    assert after[|name| - 4..|name|] == name[|name| - 4..];
  }

  lemma ReferenceRemoved(alt: string, name: string)
    requires ']' !in alt && PngName(name)
    ensures StripImages(Reference(alt, name)) == ""
  {
    hide MatchLength;
    var line := Reference(alt, name);
    assert line == line + "";
    WholeMatch(alt, name, "");
    assert line[|line|..] == "";
  }

  /** The pattern recognises every reference that an update inserts, as a whole. */
  lemma ImageLineRemoved(task: string, name: string)
    requires WellNamed(task, name)
    ensures StripImages(ImageLine(task, name)) == ""
  {
    hide StripImages;
    var alt := "Example result for " + task;
    assert ImageLine(task, name) == Reference(alt, name);
    ReferenceRemoved(alt, name);
  }

  lemma ImageLineVisible(task: string, name: string)
    requires WellNamed(task, name)
    ensures OneLine(ImageLine(task, name)) && !Blank(ImageLine(task, name))
  {
    var line := ImageLine(task, name);
    assert line[0] == '!';
    StripBlank(line);
    assert !IsSpace(line[0]);
  }

  // ---------------------------------------------------------------------
  // Whole files
  // ---------------------------------------------------------------------

  lemma {:induction false} StripEachConcat(a: seq<string>, b: seq<string>)
    ensures StripEach(a + b) == StripEach(a) + StripEach(b)
  {
    hide StripImages;
    if a == [] {
      assert a + b == b;
    } else {
      StripEachConcat(a[1..], b);
      assert (a + b)[1..] == a[1..] + b;
      var x, y, z := [StripImages(a[0])], StripEach(a[1..]), StripEach(b);
      assert x + (y + z) == (x + y) + z;
    }
  }

  /** No line gains an image reference through the removal of others. */
  predicate Stable(lines: seq<string>) {
    forall l :: l in lines ==> StripImages(l) == l
  }

  lemma {:induction false} StripEachStable(lines: seq<string>)
    requires Stable(lines)
    ensures StripEach(lines) == lines
  {
    if lines == [] {
    } else {
      assert lines[0] in lines;
      StripEachStable(lines[1..]);
    }
  }

  lemma {:induction false} StripEachOneLine(lines: seq<string>)
    requires AllOneLine(lines)
    ensures AllOneLine(StripEach(lines)) && |StripEach(lines)| == |lines|
  {
    if lines == [] {
    } else {
      assert lines[0] in lines;
      StripImagesChars(lines[0]);
      StripEachOneLine(lines[1..]);
    }
  }

  /** `"\n".join(lines)` read back with splitlines: one empty line at the end is lost. */
  function DropFinal(lines: seq<string>): seq<string> {
    if lines != [] && lines[|lines| - 1] == "" then lines[..|lines| - 1] else lines
  }

  lemma SplitOfJoin(lines: seq<string>)
    requires lines != [] && AllOneLine(lines)
    ensures Split(Join(lines)) == lines
  {
    SplitJoin(lines);
    ExpandOneLines(lines);
  }

  lemma StrippedLinesOf(content: string, split: seq<string>)
    requires split == Split(content)
    ensures StrippedLines(content) == DropFinal(StripEach(split))
    ensures AllOneLine(StrippedLines(content))
  {
    SplitOneLines(content);
    StripEachOneLine(split);
    SplitOfJoin(StripEach(split));
  }

  predicate WellNamedAll(task: string, names: seq<string>) {
    forall name :: name in names ==> WellNamed(task, name)
  }

  function EmptyLines(n: nat): seq<string> {
    seq(n, _ => "")
  }

  lemma {:induction false} ImagesRemoved(task: string, names: seq<string>)
    requires WellNamedAll(task, names)
    ensures |ImageLines(task, names)| == |names|
    ensures StripEach(ImageLines(task, names)) == EmptyLines(|names|)
    ensures AllOneLine(ImageLines(task, names)) && NoneBlank(ImageLines(task, names))
  {
    if names == [] {
    } else {
      assert names[0] in names;
      ImageLineRemoved(task, names[0]);
      ImageLineVisible(task, names[0]);
      ImagesRemoved(task, names[1..]);
      assert ImageLines(task, names)[1..] == ImageLines(task, names[1..]);
    }
  }

  lemma CollapsedStable(lines: seq<string>, stable: seq<string>)
    requires Stable(stable) && forall l :: l in lines ==> l in stable
    ensures StripEach(Collapse(lines, false)) == Collapse(lines, false)
  {
    var kept := Collapse(lines, false);
    forall l | l in kept ensures StripImages(l) == l {
      CollapseMembers(lines, false, l);
    }
    StripEachStable(kept);
  }

  lemma StripBlankLine()
    ensures StripEach([""]) == [""]
  {
    assert [""][1..] == [] && StripImages("") == "";
  }

  /** The blank lines that take the place of the images when they are removed again. */
  lemma MidRemoved(task: string, names: seq<string>)
    requires WellNamedAll(task, names)
    ensures StripEach(Mid(ImageLines(task, names)) + [""]) == EmptyLines(|Mid(ImageLines(task, names))| + 1)
  {
    hide StripEach, ImageLines;
    var images := ImageLines(task, names);
    ImagesRemoved(task, names);
    StripEachConcat(Mid(images), [""]);
    StripBlankLine();
    if images != [] {
      StripEachConcat([""], images);
      assert StripEach(Mid(images)) == EmptyLines(|Mid(images)|);
    }
  }
}

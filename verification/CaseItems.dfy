/** Reading back single lines: list items and metadata. */
module CaseItems {
  import opened Common
  import opened Text
  import opened CaseFormat

  // ---------------------------------------------------------------------
  // List items
  // ---------------------------------------------------------------------

  lemma {:induction false} ItemsConcatOf(a: seq<string>, b: seq<string>, ab: seq<string>)
    requires ab == a + b
    ensures Items(ab) == Items(a) + Items(b)
    decreases |a|
  {
    if a == [] {
      assert ab == b;
    } else {
      ItemsConcatOf(a[1..], b, ab[1..]);
      var x, y, z := Item(a[0]), Items(a[1..]), Items(b);
      assert x + (y + z) == (x + y) + z;
    }
  }

  lemma ItemsConcat(a: seq<string>, b: seq<string>)
    ensures Items(a + b) == Items(a) + Items(b)
  {
    ItemsConcatOf(a, b, a + b);
  }

  lemma ItemsSingle(line: string)
    ensures Items([line]) == Item(line)
  {
    assert [line][1..] == [];
  }

  lemma ItemPadded(v: string, line: string, w: string)
    requires AllSpace(v) && AllSpace(w)
    ensures Item(v + line + w) == Item(line)
  {
    StripIgnoresPadding(v, line, w);
  }

  lemma ItemsLast(front: seq<string>, last: string)
    ensures Items(front + [last]) == Items(front) + Item(last)
  {
    ItemsConcat(front, [last]);
    ItemsSingle(last);
  }

  lemma ItemsBlank(lines: seq<string>)
    ensures Items(lines + [""]) == Items(lines)
  {
    ItemsLast(lines, "");
    assert Item("") == [];
  }

  lemma ItemSpaceAfter(line: string, c: char)
    requires IsSpace(c)
    ensures Item(line + [c]) == Item(line)
  {
    ItemPadded("", line, [c]);
    assert "" + line + [c] == line + [c];
  }

  lemma ItemsLonger(front: seq<string>, last: string, c: char)
    requires IsSpace(c)
    ensures Items(front + [last + [c]]) == Items(front + [last])
  {
    ItemsLast(front, last);
    ItemsLast(front, last + [c]);
    ItemSpaceAfter(last, c);
  }

  lemma ItemsAppend(lines: seq<string>, longer: seq<string>, c: char)
    requires |lines| > 0 && IsSpace(c) && longer == Append(lines, c)
    ensures Items(longer) == Items(lines)
  {
    hide Items;
    if c == '\n' {
      ItemsBlank(lines);
    } else {
      var front, last := lines[..|lines| - 1], lines[|lines| - 1];
      ItemsLonger(front, last, c);
      assert lines == front + [last];
    }
  }

  lemma ItemsPrepend(c: char, lines: seq<string>)
    requires |lines| > 0 && IsSpace(c)
    ensures Items(Prepend(c, lines)) == Items(lines)
  {
    if c == '\n' {
      ItemsConcat([""], lines);
      ItemsSingle("");
    } else {
      ItemPadded([c], lines[0], "");
      assert [c] + lines[0] + "" == [c] + lines[0];
    }
  }

  lemma {:induction false} ItemsSpaceAfter(s: string, w: string)
    requires AllSpace(w)
    ensures Items(Split(s + w)) == Items(Split(s))
  {
    if w == "" {
      assert s + w == s;
    } else {
      var front, c := w[..|w| - 1], w[|w| - 1];
      ItemsSpaceAfter(s, front);
      assert s + w == (s + front) + [c];
      SplitSnoc(s + front, c);
      ItemsAppend(Split(s + front), Split(s + w), c);
    }
  }

  lemma {:induction false} ItemsStripLeft(s: string)
    ensures Items(Split(StripLeft(s))) == Items(Split(s))
  {
    if s == "" || !IsSpace(s[0]) {
    } else {
      ItemsStripLeft(s[1..]);
      ItemsPrepend(s[0], Split(s[1..]));
    }
  }

  lemma ItemsOfLines(text: string)
    ensures Items(SplitLines(text)) == Items(Split(text))
  {
    var lines := Split(text);
    if lines[|lines| - 1] == "" {
      assert lines == lines[..|lines| - 1] + [""];
      ItemsBlank(lines[..|lines| - 1]);
    }
  }

  /** The whitespace around a list text does not change its items. */
  lemma ListItemsOfStripped(text: string)
    ensures ParseListItems(Strip(text)) == Items(Split(text))
  {
    StripTrims(text);
    ItemsOfLines(Strip(text));
    var w := StripRightSplit(StripLeft(text));
    ItemsSpaceAfter(Strip(text), w);
    ItemsStripLeft(text);
  }

  lemma StripLessonLine(lesson: string)
    ensures Strip("- " + lesson) == "-" + StripRight(" " + lesson)
  {
    var line := "- " + lesson;
    assert line == "-" + (" " + lesson);
    assert StripLeft(line) == line;
    StripRightStops("-", " " + lesson);
  }

  lemma BlankLesson(lesson: string)
    requires AllSpace(lesson)
    ensures Item("- " + lesson) == []
  {
    StripLessonLine(lesson);
    StripRightBlank(" " + lesson);
    assert Strip("- " + lesson) == "-";
  }

  lemma VisibleLesson(lesson: string)
    requires !AllSpace(lesson)
    ensures Item("- " + lesson) == [StripRight(lesson)]
  {
    hide Strip, StripRight, AllSpace;
    StripLessonLine(lesson);
    StripRightBlank(lesson);
    StripRightOf(" ", lesson);
    assert Strip("- " + lesson) == "- " + StripRight(lesson);
  }

  lemma {:induction false} StripRightOf(p: string, s: string)
    requires StripRight(s) != ""
    ensures StripRight(p + s) == p + StripRight(s)
  {
    if IsSpace(s[|s| - 1]) {
      assert (p + s)[..|p + s| - 1] == p + s[..|s| - 1];
      StripRightOf(p, s[..|s| - 1]);
    } else {
      assert (p + s)[|p + s| - 1] == s[|s| - 1];
    }
  }

  lemma {:induction false} LessonItems(lessons: seq<string>)
    ensures Items(LessonBody(lessons)) == NormalLessons(lessons)
  {
    if lessons == [] {
    } else {
      if AllSpace(lessons[0]) {
        BlankLesson(lessons[0]);
      } else {
        VisibleLesson(lessons[0]);
      }
      LessonItems(lessons[1..]);
      var body := LessonBody(lessons);
      assert body[1..] == LessonBody(lessons[1..]);
    }
  }

  // ---------------------------------------------------------------------
  // Metadata
  // ---------------------------------------------------------------------

  lemma {:induction false} AddAllMetaConcatOf(m: map<string, string>, a: seq<string>, b: seq<string>, ab: seq<string>)
    requires ab == a + b
    ensures AddAllMeta(m, ab) == AddAllMeta(AddAllMeta(m, a), b)
    decreases |a|
  {
    if a == [] {
      assert ab == b;
    } else {
      AddAllMetaConcatOf(AddMeta(m, a[0]), a[1..], b, ab[1..]);
    }
  }

  lemma AddAllMetaConcat(m: map<string, string>, a: seq<string>, b: seq<string>)
    ensures AddAllMeta(m, a + b) == AddAllMeta(AddAllMeta(m, a), b)
  {
    AddAllMetaConcatOf(m, a, b, a + b);
  }

  predicate PlainKey(k: string) {
    && k != ""
    && forall i :: 0 <= i < |k| ==> k[i] != ':' && !IsSpace(k[i]) && !('A' <= k[i] <= 'Z')
  }

  lemma StripMetaLine(key: string, value: string)
    requires key != "" && !IsSpace(key[0])
    ensures Strip("- " + key + ": " + value) == "- " + key + ":" + StripRight(" " + value)
  {
    var p := "- " + key + ":";
    var line := "- " + key + ": " + value;
    assert line == p + (" " + value);
    assert StripLeft(line) == line;
    StripRightStops(p, " " + value);
  }

  lemma KeyBeforeColon(key: string, rest: string)
    requires PlainKey(key)
    ensures IndexOf(key + ":" + rest, ':') == |key|
  {
    var content := key + ":" + rest;
    assert content[|key|] == ':';
    assert forall i :: 0 <= i < |key| ==> content[i] == key[i];
  }

  lemma StripSame(s: string)
    ensures Strip(s) == s <==> Trimmed(s)
  {
    StripTrims(s);
    if Trimmed(s) {
      StripPadded("", s, "");
      assert "" + s + "" == s;
    }
  }

  lemma PlainKeyCase(key: string)
    requires PlainKey(key)
    ensures Lower(key) == key && Underscored(key) == key
  {
    assert forall i :: 0 <= i < |key| ==> Lower(key)[i] == key[i];
    assert forall i :: 0 <= i < |key| ==> Underscored(key)[i] == key[i];
  }

  lemma PlainKeyUnchanged(key: string)
    requires PlainKey(key)
    ensures Underscored(Lower(Strip(key))) == key
  {
    assert Trimmed(key);
    StripSame(key);
    PlainKeyCase(key);
  }

  lemma StripValue(value: string)
    ensures Strip(StripRight(" " + value)) == Strip(value)
  {
    var v := " " + value;
    var w := StripRightSplit(v);
    StripIgnoresPadding("", StripRight(v), w);
    assert "" + StripRight(v) + w == v;
    StripIgnoresPadding(" ", value, "");
    assert " " + value + "" == v;
  }

  lemma MetaOfPlainContent(key: string, rest: string)
    requires PlainKey(key)
    ensures MetaOfContent(key + ":" + rest) == Some((key, Strip(rest)))
  {
    KeyBeforeColon(key, rest);
    PlainKeyUnchanged(key);
    var content := key + ":" + rest;
    assert content[..|key|] == key;
    assert content[|key| + 1..] == rest;
  }

  lemma MetaOfLine(key: string, value: string)
    requires PlainKey(key)
    ensures MetaOf("- " + key + ": " + value) == Some((key, Strip(value)))
  {
    hide Strip, StripRight, MetaOfContent;
    StripMetaLine(key, value);
    var rest := StripRight(" " + value);
    MetaOfPlainContent(key, rest);
    StripValue(value);
    assert ("- " + key + ":" + rest)[2..] == key + ":" + rest;
  }

  /** What one optional metadata line contributes. */
  lemma MetaLineAdds(m: map<string, string>, key: string, value: string)
    requires PlainKey(key)
    ensures AddAllMeta(m, MetaLine(key, value))
         == if value == "" || key !in META_KEYS then m else m[key := Strip(value)]
  {
    if value != "" {
      MetaOfLine(key, value);
      var line := "- " + key + ": " + value;
      assert [line][1..] == [];
    }
  }

  lemma BlankAddsNothing(m: map<string, string>)
    ensures AddAllMeta(m, [""]) == m
  {
    assert [""][1..] == [];
  }
}

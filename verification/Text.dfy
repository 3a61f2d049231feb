/** The string operations of Python that the scripts rely on. */
module Text {

  /** Whitespace as str.strip sees it. */
  predicate IsSpace(c: char) {
    var n := c as int;
    || 9 <= n <= 13 || 28 <= n <= 32 || n == 0x85 || n == 0xA0 || n == 0x1680
    || 0x2000 <= n <= 0x200A || 0x2028 <= n <= 0x2029 || n == 0x202F || n == 0x205F || n == 0x3000
  }

  predicate AllSpace(s: string) {
    forall i :: 0 <= i < |s| ==> IsSpace(s[i])
  }

  predicate Trimmed(s: string) {
    s != "" ==> !IsSpace(s[0]) && !IsSpace(s[|s| - 1])
  }

  function StripLeft(s: string): string {
    if s != "" && IsSpace(s[0]) then StripLeft(s[1..]) else s
  }

  function StripRight(s: string): string {
    if s != "" && IsSpace(s[|s| - 1]) then StripRight(s[..|s| - 1]) else s
  }

  function Strip(s: string): string {
    StripRight(StripLeft(s))
  }

  lemma {:induction false} StripLeftSpace(w: string, s: string)
    requires AllSpace(w)
    ensures StripLeft(w + s) == StripLeft(s)
  {
    if w == "" {
      assert w + s == s;
    } else {
      assert (w + s)[1..] == w[1..] + s;
      StripLeftSpace(w[1..], s);
    }
  }

  lemma {:induction false} StripRightSpace(s: string, w: string)
    requires AllSpace(w)
    ensures StripRight(s + w) == StripRight(s)
  {
    if w == "" {
      assert s + w == s;
    } else {
      assert (s + w)[..|s + w| - 1] == s + w[..|w| - 1];
      StripRightSpace(s, w[..|w| - 1]);
    }
  }

  /** Stripping removes exactly the surrounding whitespace. */
  lemma StripPadded(v: string, s: string, w: string)
    requires AllSpace(v) && AllSpace(w) && Trimmed(s)
    ensures Strip(v + s + w) == s
  {
    assert v + s + w == v + (s + w);
    StripLeftSpace(v, s + w);
    if s == "" {
      assert s + w == w && w == w + "";
      StripLeftSpace(w, "");
    } else {
      StripRightSpace(s, w);
    }
  }

  lemma {:induction false} StripLeftTrims(s: string)
    ensures StripLeft(s) != "" ==> !IsSpace(StripLeft(s)[0])
  {
    if s == "" || !IsSpace(s[0]) {
    } else {
      StripLeftTrims(s[1..]);
    }
  }

  lemma {:induction false} StripRightTrims(s: string)
    ensures StripRight(s) <= s
    ensures StripRight(s) != "" ==> !IsSpace(StripRight(s)[|StripRight(s)| - 1])
  {
    if s == "" || !IsSpace(s[|s| - 1]) {
    } else {
      StripRightTrims(s[..|s| - 1]);
    }
  }

  lemma StripTrims(s: string)
    ensures Trimmed(Strip(s))
    ensures Strip(Strip(s)) == Strip(s)
  {
    StripLeftTrims(s);
    StripRightTrims(StripLeft(s));
    StripPadded("", Strip(s), "");
    assert "" + Strip(s) + "" == Strip(s);
  }

  /** Surrounding whitespace makes no difference to what stripping leaves. */
  lemma StripIgnoresPadding(v: string, s: string, w: string)
    requires AllSpace(v) && AllSpace(w)
    ensures Strip(v + s + w) == Strip(s)
  {
    assert v + s + w == v + (s + w);
    StripLeftSpace(v, s + w);
    StripLeftPrefix(s, w);
    if StripLeft(s) == "" {
      StripLeftSpace(w, "");
      assert w + "" == w;
    } else {
      StripRightSpace(StripLeft(s), w);
    }
  }

  lemma {:induction false} StripLeftPrefix(s: string, t: string)
    ensures StripLeft(s + t) == if StripLeft(s) == "" then StripLeft(t) else StripLeft(s) + t
  {
    if s == "" {
      assert s + t == t;
    } else if IsSpace(s[0]) {
      assert (s + t)[1..] == s[1..] + t;
      StripLeftPrefix(s[1..], t);
    }
  }

  /** Nothing before a visible character is stripped from the right. */
  lemma {:induction false} StripRightStops(p: string, t: string)
    requires p != "" && !IsSpace(p[|p| - 1])
    ensures StripRight(p + t) == p + StripRight(t)
  {
    if t == "" {
      assert p + t == p;
    } else if IsSpace(t[|t| - 1]) {
      assert (p + t)[..|p + t| - 1] == p + t[..|t| - 1];
      StripRightStops(p, t[..|t| - 1]);
    } else {
      assert (p + t)[|p + t| - 1] == t[|t| - 1];
    }
  }

  lemma {:induction false} StripRightBlank(s: string)
    ensures StripRight(s) == "" <==> AllSpace(s)
  {
    if s == "" || !IsSpace(s[|s| - 1]) {
    } else {
      StripRightBlank(s[..|s| - 1]);
      assert s == s[..|s| - 1] + [s[|s| - 1]];
    }
  }

  /** What the right strip removed was all whitespace. */
  lemma {:induction false} StripRightSplit(s: string) returns (w: string)
    ensures s == StripRight(s) + w && AllSpace(w)
  {
    w := "";
    if s == "" || !IsSpace(s[|s| - 1]) {
    } else {
      var v := StripRightSplit(s[..|s| - 1]);
      w := v + [s[|s| - 1]];
    }
  }

  lemma AllSpaceTail(s: string)
    requires s != "" && IsSpace(s[0])
    ensures AllSpace(s) <==> AllSpace(s[1..])
  {
    assert s == [s[0]] + s[1..];
  }

  lemma {:induction false} StripBlank(s: string)
    ensures Strip(s) == "" <==> AllSpace(s)
  {
    StripLeftTrims(s);
    StripRightBlank(StripLeft(s));
    if AllSpace(s) {
      StripLeftSpace(s, "");
      assert s + "" == s;
    } else if s != "" && IsSpace(s[0]) {
      StripBlank(s[1..]);
      AllSpaceTail(s);
    }
  }

  /** The characters that Python's str.isspace accepts, one by one. */
  lemma Whitespace(c: char)
    ensures var codes :=
      {0x09, 0x0A, 0x0B, 0x0C, 0x0D, 0x1C, 0x1D, 0x1E, 0x1F, 0x20, 0x85, 0xA0, 0x1680, 0x2000, 0x2001, 0x2002, 0x2003,
       0x2004, 0x2005, 0x2006, 0x2007, 0x2008, 0x2009, 0x200A, 0x2028, 0x2029, 0x202F, 0x205F, 0x3000};
      IsSpace(c) <==> c as int in codes
  {
  }

  lemma {:induction false} StripLeftSplit(s: string) returns (v: string)
    ensures s == v + StripLeft(s) && AllSpace(v)
  {
    v := "";
    if s == "" || !IsSpace(s[0]) {
    } else {
      var w := StripLeftSplit(s[1..]);
      v := [s[0]] + w;
    }
  }

  /** `s` is `t` with nothing but whitespace around it. */
  ghost predicate Pads(s: string, t: string) {
    exists v, w :: AllSpace(v) && AllSpace(w) && s == v + t + w
  }

  /** Stripping leaves the one text without whitespace at its ends that is padded with whitespace only. */
  lemma StripInWords(s: string, t: string)
    ensures Strip(s) == t <==> Pads(s, t) && (t == "" || (!IsSpace(t[0]) && !IsSpace(t[|t| - 1])))
  {
    StripTrims(s);
    var v := StripLeftSplit(s);
    var w := StripRightSplit(StripLeft(s));
    assert s == v + Strip(s) + w;
    forall x, y | AllSpace(x) && AllSpace(y) && s == x + t + y && Trimmed(t) ensures Strip(s) == t {
      StripPadded(x, t, y);
    }
  }

  function LowerChar(c: char): char {
    if 'A' <= c <= 'Z' then (c as int + 32) as char else c
  }

  /** str.lower on ASCII letters. */
  function Lower(s: string): string {
    seq(|s|, i requires 0 <= i < |s| => LowerChar(s[i]))
  }

  predicate OneLine(s: string) {
    '\n' !in s
  }

  /** The lines of a text after one more character in front. */
  function Prepend(c: char, lines: seq<string>): (r: seq<string>)
    requires |lines| > 0
    ensures |r| > 0
  {
    if c == '\n' then [""] + lines else [[c] + lines[0]] + lines[1..]
  }

  predicate AllOneLine(lines: seq<string>) {
    forall l :: l in lines ==> OneLine(l)
  }

  /** str.split("\n"). */
  function Split(s: string): (r: seq<string>)
    ensures |r| > 0
  {
    if s == "" then [""] else Prepend(s[0], Split(s[1..]))
  }

  /** str.splitlines, for texts whose only line break is "\n". */
  function SplitLines(s: string): seq<string> {
    var r := Split(s);
    if r[|r| - 1] == "" then r[..|r| - 1] else r
  }

  /** "\n".join(lines). */
  function Join(lines: seq<string>): string {
    if lines == [] then ""
    else if |lines| == 1 then lines[0]
    else lines[0] + "\n" + Join(lines[1..])
  }

  /** The physical lines of a list whose elements may hold several lines each. */
  function Expand(lines: seq<string>): seq<string> {
    if lines == [] then [] else Split(lines[0]) + Expand(lines[1..])
  }

  lemma {:induction false} SplitOneLine(s: string)
    requires OneLine(s)
    ensures Split(s) == [s]
  {
    if s == "" {
    } else {
      SplitOneLine(s[1..]);
      assert [s[0]] + s[1..] == s;
    }
  }

  lemma PrependConcat(c: char, a: seq<string>, b: seq<string>)
    requires |a| > 0
    ensures Prepend(c, a + b) == Prepend(c, a) + b
  {
    assert (a + b)[1..] == a[1..] + b;
  }

  lemma {:induction false} SplitConcat(s: string, t: string)
    ensures Split(s + "\n" + t) == Split(s) + Split(t)
  {
    if s == "" {
      assert s + "\n" + t == "\n" + t;
      assert ("\n" + t)[1..] == t;
    } else {
      SplitConcat(s[1..], t);
      assert (s + "\n" + t)[1..] == s[1..] + "\n" + t;
      PrependConcat(s[0], Split(s[1..]), Split(t));
    }
  }

  lemma {:induction false} SplitOneLines(s: string)
    ensures forall l :: l in Split(s) ==> OneLine(l)
  {
    if s == "" {
    } else {
      SplitOneLines(s[1..]);
      var r := Split(s[1..]);
      assert OneLine(r[0]);
      forall l | l in Split(s) ensures OneLine(l) {
        if l !in r {
          assert l == "" || l == [s[0]] + r[0];
        }
      }
    }
  }

  lemma {:induction false} SplitJoin(lines: seq<string>)
    requires lines != []
    ensures Split(Join(lines)) == Expand(lines)
  {
    if |lines| == 1 {
      assert Expand(lines[1..]) == [];
    } else {
      SplitJoin(lines[1..]);
      SplitConcat(lines[0], Join(lines[1..]));
    }
  }

  lemma {:induction false} JoinSplit(s: string)
    ensures Join(Split(s)) == s
  {
    if s == "" {
    } else {
      JoinSplit(s[1..]);
      var r := Split(s[1..]);
      if s[0] == '\n' {
        assert ([""] + r)[1..] == r;
      } else {
        assert ([[s[0]] + r[0]] + r[1..])[1..] == r[1..];
      }
    }
  }

  lemma ExpandSingle(text: string)
    ensures Expand([text]) == Split(text)
  {
    assert [text][1..] == [];
  }

  lemma {:induction false} ExpandConcat(a: seq<string>, b: seq<string>)
    ensures Expand(a + b) == Expand(a) + Expand(b)
  {
    hide Split;
    if a == [] {
      assert a + b == b;
    } else {
      ExpandConcat(a[1..], b);
      assert (a + b)[1..] == a[1..] + b;
      var x, y, z := Split(a[0]), Expand(a[1..]), Expand(b);
      assert x + (y + z) == (x + y) + z;
    }
  }

  /** A list of single lines is its own list of physical lines. */
  lemma {:induction false} ExpandOneLines(lines: seq<string>)
    requires forall l :: l in lines ==> OneLine(l)
    ensures Expand(lines) == lines
  {
    if lines == [] {
    } else {
      SplitOneLine(lines[0]);
      ExpandOneLines(lines[1..]);
    }
  }

  /** The lines of a text after one more character at its end. */
  function Append(lines: seq<string>, c: char): seq<string>
    requires |lines| > 0
  {
    var last := |lines| - 1;
    if c == '\n' then lines + [""] else lines[..last] + [lines[last] + [c]]
  }

  lemma AppendCons(x: string, rest: seq<string>, c: char)
    requires |rest| > 0
    ensures Append([x] + rest, c) == [x] + Append(rest, c)
  {
    var n := |rest|;
    assert ([x] + rest)[..n] == [x] + rest[..n - 1];
    assert ([x] + rest)[n] == rest[n - 1];
  }

  lemma PrependAppend(b: char, lines: seq<string>, c: char)
    requires |lines| > 0
    ensures Append(Prepend(b, lines), c) == Prepend(b, Append(lines, c))
  {
    if b == '\n' {
      AppendCons("", lines, c);
    } else if |lines| == 1 {
      assert [b] + (lines[0] + [c]) == [b] + lines[0] + [c];
    } else {
      var rest := lines[1..];
      AppendCons(lines[0], rest, c);
      AppendCons([b] + lines[0], rest, c);
      assert lines == [lines[0]] + rest;
      hide Append;
      assert Append(lines, c)[0] == lines[0];
      assert Append(lines, c)[1..] == Append(rest, c);
    }
  }

  lemma {:induction false} SplitSnoc(s: string, c: char)
    ensures Split(s + [c]) == Append(Split(s), c)
  {
    if s == "" {
      assert (s + [c])[1..] == "";
      assert [c] + "" == "" + [c];
    } else {
      SplitSnoc(s[1..], c);
      assert (s + [c])[1..] == s[1..] + [c];
      PrependAppend(s[0], Split(s[1..]), c);
    }
  }

  /** The first position whose line satisfies p, or the number of lines. */
  function Find(p: string -> bool, lines: seq<string>): (k: nat)
    ensures k <= |lines|
    ensures k < |lines| ==> p(lines[k])
    ensures forall i :: 0 <= i < k ==> !p(lines[i])
  {
    if lines == [] || p(lines[0]) then 0 else 1 + Find(p, lines[1..])
  }

  function IndexOf(s: string, c: char): (k: nat)
    ensures k <= |s|
    ensures k < |s| ==> s[k] == c
    ensures forall i :: 0 <= i < k ==> s[i] != c
  {
    if s == "" || s[0] == c then 0 else 1 + IndexOf(s[1..], c)
  }

  lemma FindIs(p: string -> bool, lines: seq<string>, k: nat)
    requires k <= |lines|
    requires k < |lines| ==> p(lines[k])
    requires forall i :: 0 <= i < k ==> !p(lines[i])
    ensures Find(p, lines) == k
  {
    var f := Find(p, lines);
    assert f < |lines| ==> p(lines[f]);
    assert k < |lines| ==> p(lines[k]);
  }

  /** The number of visible characters. */
  function Visible(s: string): nat {
    if s == "" then 0 else (if IsSpace(s[0]) then 0 else 1) + Visible(s[1..])
  }

  function VisibleLines(lines: seq<string>): nat {
    if lines == [] then 0 else Visible(lines[0]) + VisibleLines(lines[1..])
  }

  lemma {:induction false} VisibleConcat(s: string, t: string)
    ensures Visible(s + t) == Visible(s) + Visible(t)
  {
    if s == "" {
      assert s + t == t;
    } else {
      VisibleConcat(s[1..], t);
      assert (s + t)[1..] == s[1..] + t;
    }
  }

  lemma {:induction false} VisibleBlank(w: string)
    requires AllSpace(w)
    ensures Visible(w) == 0
  {
    if w == "" {
    } else {
      VisibleBlank(w[1..]);
    }
  }

  /** A second-level Markdown heading. */
  predicate IsH2(line: string) {
    "## " <= line
  }
}

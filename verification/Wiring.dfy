/** The wiring file: which MUXes compete for a readout or control module, and
    which MUX drives which qubit. */
module Wiring {
  import opened Common

  /** One entry of wiring.yaml; `readOut` is None when the key is absent. */
  datatype MuxEntry = MuxEntry(mux: int, readOut: Option<string>, ctrl: seq<string>)

  datatype Resource = Readout | Control

  type ConflictMap = map<int, set<int>>

  // ---------------------------------------------------------------------
  // What the wiring says, independently of how the maps are built
  // ---------------------------------------------------------------------

  /** The port "U15A-13" belongs to module "U15A": a module name has no '-', and a port is
      the name alone or goes on with a '-'. */
  predicate InModule(port: string, m: string) {
    '-' !in m && (port == m || m + "-" <= port)
  }

  predicate Uses(e: MuxEntry, r: Resource, m: string) {
    match r
    case Readout => e.readOut.Some? && e.readOut.value != "" && InModule(e.readOut.value, m)
    case Control => HasPort(e.ctrl, m)
  }

  predicate HasPort(ports: seq<string>, m: string) {
    exists c :: c in ports && InModule(c, m)
  }

  ghost predicate User(w: seq<MuxEntry>, r: Resource, m: string, mux: int) {
    exists e :: e in w && e.mux == mux && Uses(e, r, m)
  }

  ghost predicate Share(w: seq<MuxEntry>, r: Resource, a: int, b: int) {
    exists m :: User(w, r, m, a) && User(w, r, m, b)
  }

  /** Two different MUXes that share a readout module or share a control module. */
  ghost predicate Conflict(w: seq<MuxEntry>, a: int, b: int) {
    a != b && (Share(w, Readout, a, b) || Share(w, Control, a, b))
  }

  predicate Linked(c: ConflictMap, a: int, b: int) {
    a in c && b in c[a]
  }

  ghost predicate NoEmptyEntry(c: ConflictMap) {
    forall a :: a in c ==> exists b :: Linked(c, a, b)
  }

  /** The map lists exactly the conflicts of the wiring and nothing else. */
  ghost predicate ExactMap(w: seq<MuxEntry>, c: ConflictMap) {
    && (forall a, b :: Linked(c, a, b) <==> Conflict(w, a, b))
    && NoEmptyEntry(c)
  }

  lemma ExactMapIsSymmetric(w: seq<MuxEntry>, c: ConflictMap, a: int, b: int)
    requires ExactMap(w, c)
    ensures Linked(c, a, b) <==> Linked(c, b, a)
    ensures !Linked(c, a, a)
  {
    assert Linked(c, a, b) <==> Conflict(w, a, b);
    assert Linked(c, b, a) <==> Conflict(w, b, a);
  }

  /** There is only one exact map, so independently built ones are equal. */
  lemma ExactMapIsUnique(w: seq<MuxEntry>, c: ConflictMap, d: ConflictMap)
    requires ExactMap(w, c) && ExactMap(w, d)
    ensures c == d
  {
    SubMap(w, c, d);
    SubMap(w, d, c);
    forall a | a in c.Keys + d.Keys ensures a in c && a in d && c[a] == d[a] {
    }
  }

  lemma SubMap(w: seq<MuxEntry>, c: ConflictMap, d: ConflictMap)
    requires ExactMap(w, c) && ExactMap(w, d)
    ensures forall a :: a in c ==> a in d && c[a] <= d[a]
  {
    forall a | a in c
      ensures a in d && c[a] <= d[a]
    {
      var b :| Linked(c, a, b);
      assert Linked(d, a, b);
      forall x | x in c[a] ensures x in d[a] {
        assert Linked(c, a, x) && Linked(d, a, x);
      }
    }
  }

  // ---------------------------------------------------------------------
  // Grouping MUXes by module
  // ---------------------------------------------------------------------

  /** `port.split("-")[0]`. */
  function ModuleOf(port: string): string {
    if port == "" || port[0] == '-' then "" else [port[0]] + ModuleOf(port[1..])
  }

  /** A port belongs to one module, the part of its name before the first '-'. */
  lemma {:induction false} OneModule(port: string, m: string)
    ensures InModule(port, m) <==> m == ModuleOf(port)
  {
    if port == "" || port[0] == '-' {
      assert m != "" && m <= port ==> m[0] == port[0];
      assert "" + "-" == "-";
    } else {
      if m != "" {
        OneModule(port[1..], m[1..]);
        assert m == [m[0]] + m[1..];
        assert (m + "-")[1..] == m[1..] + "-";
        assert m[1..] == ModuleOf(port[1..]) && m[0] == port[0] ==> m == ModuleOf(port);
        if InModule(port, m) {
          assert m[0] == port[0];
          assert InModule(port[1..], m[1..]);
        }
        if m == ModuleOf(port) {
          assert m[1..] == ModuleOf(port[1..]);
          assert port == [port[0]] + port[1..];
        }
      } else {
        assert "" + "-" == "-";
      }
    }
  }

  /** `d[key].add(x)` on a defaultdict(set). */
  function AddTo<K, V>(d: map<K, set<V>>, key: K, x: V): map<K, set<V>> {
    d[key := (if key in d then d[key] else {}) + {x}]
  }

  predicate InGroup(groups: map<string, set<int>>, m: string, mux: int) {
    m in groups && mux in groups[m]
  }

  ghost predicate GroupsOf(w: seq<MuxEntry>, r: Resource, groups: map<string, set<int>>) {
    forall m, x :: InGroup(groups, m, x) <==> User(w, r, m, x)
  }

  /** Both module groupings in the single pass of `build_mux_conflict_map`. */
  method GroupByModule(w: seq<MuxEntry>) returns (readout: map<string, set<int>>, ctrl: map<string, set<int>>)
    ensures GroupsOf(w, Readout, readout)
    ensures GroupsOf(w, Control, ctrl)
  {
    readout, ctrl := map[], map[];
    for i := 0 to |w|
      invariant GroupsOf(w[..i], Readout, readout)
      invariant GroupsOf(w[..i], Control, ctrl)
    {
      var e := w[i];
      UserExtends(w, i);
      ghost var readout0 := readout;
      if e.readOut.Some? && e.readOut.value != "" {
        readout := AddTo(readout, ModuleOf(e.readOut.value), e.mux);
      }
      ReadoutModule(e);
      assert forall m, x :: InGroup(readout, m, x) <==> InGroup(readout0, m, x) || (x == e.mux && Uses(e, Readout, m));
      ctrl := AddControlPorts(w[..i], e, ctrl);
    }
    assert w[..|w|] == w;
  }

  method AddControlPorts(ghost before: seq<MuxEntry>, e: MuxEntry, ctrl0: map<string, set<int>>)
    returns (ctrl: map<string, set<int>>)
    requires GroupsOf(before, Control, ctrl0)
    ensures forall m, x :: InGroup(ctrl, m, x) <==> User(before, Control, m, x) || (x == e.mux && Uses(e, Control, m))
  {
    ctrl := ctrl0;
    for k := 0 to |e.ctrl|
      invariant forall m, x :: InGroup(ctrl, m, x) <==>
        User(before, Control, m, x) || (x == e.mux && HasPort(e.ctrl[..k], m))
    {
      ghost var port, ctrlK := e.ctrl[k], ctrl;
      ctrl := AddTo(ctrl, ModuleOf(e.ctrl[k]), e.mux);
      assert forall m, x :: InGroup(ctrl, m, x) <==> InGroup(ctrlK, m, x) || (x == e.mux && m == ModuleOf(port));
      HasPortExtends(e.ctrl, k);
    }
    assert e.ctrl[..|e.ctrl|] == e.ctrl;
  }

  lemma ReadoutModule(e: MuxEntry)
    ensures forall m :: Uses(e, Readout, m) <==>
      e.readOut.Some? && e.readOut.value != "" && m == ModuleOf(e.readOut.value)
  {
    if e.readOut.Some? {
      forall m ensures InModule(e.readOut.value, m) <==> m == ModuleOf(e.readOut.value) {
        OneModule(e.readOut.value, m);
      }
    }
  }

  lemma HasPortExtends(ports: seq<string>, k: nat)
    requires k < |ports|
    ensures forall m :: HasPort(ports[..k + 1], m) <==> HasPort(ports[..k], m) || m == ModuleOf(ports[k])
  {
    var before, after := ports[..k], ports[..k + 1];
    assert after == before + [ports[k]];
    assert after[k] == ports[k];
    forall m
      ensures HasPort(after, m) <==> HasPort(before, m) || m == ModuleOf(ports[k])
    {
      OneModule(ports[k], m);
      if HasPort(before, m) {
        var c :| c in before && InModule(c, m);
        assert c in after;
      }
      if HasPort(after, m) {
        var c :| c in after && InModule(c, m);
        assert c in before || c == ports[k];
      }
    }
  }

  lemma UserExtends(w: seq<MuxEntry>, i: nat)
    requires i < |w|
    ensures forall r, m, x :: User(w[..i + 1], r, m, x) <==>
      User(w[..i], r, m, x) || (x == w[i].mux && Uses(w[i], r, m))
  {
    assert w[..i + 1] == w[..i] + [w[i]];
    forall r, m, x
      ensures User(w[..i + 1], r, m, x) <==> User(w[..i], r, m, x) || (x == w[i].mux && Uses(w[i], r, m))
    {
      if User(w[..i], r, m, x) {
        var e :| e in w[..i] && e.mux == x && Uses(e, r, m);
        assert e in w[..i + 1];
      }
      if x == w[i].mux && Uses(w[i], r, m) {
        assert w[i] in w[..i + 1];
      }
    }
  }

  // ---------------------------------------------------------------------
  // From groups to a conflict map
  // ---------------------------------------------------------------------

  ghost predicate Together(groups: map<string, set<int>>, ms: set<string>, a: int, b: int) {
    a != b && exists m :: m in ms && InGroup(groups, m, a) && InGroup(groups, m, b)
  }

  /** Every two members of one group conflict with each other. */
  method CreateConflictMap(groups: map<string, set<int>>) returns (c: ConflictMap)
    ensures forall a, b :: Linked(c, a, b) <==> Together(groups, groups.Keys, a, b)
    ensures NoEmptyEntry(c)
  {
    c := map[];
    var todo := groups.Keys;
    while todo != {}
      invariant todo <= groups.Keys
      invariant forall a, b :: Linked(c, a, b) <==> Together(groups, groups.Keys - todo, a, b)
      invariant NoEmptyEntry(c)
    {
      var m := Next(todo);
      c := AddClique(c, groups[m]);
      ghost var done := groups.Keys - todo;
      todo := todo - {m};
      assert groups.Keys - todo == done + {m};
    }
  }

  /** `for a, b in combinations(muxes, 2)`: both directions are entered. */
  method AddClique(c0: ConflictMap, muxes: set<int>) returns (c: ConflictMap)
    requires NoEmptyEntry(c0)
    ensures forall x, y :: Linked(c, x, y) <==> Linked(c0, x, y) || (x != y && x in muxes && y in muxes)
    ensures NoEmptyEntry(c)
  {
    c := c0;
    var rest := muxes;
    while rest != {}
      invariant rest <= muxes
      invariant forall x, y :: Linked(c, x, y) <==>
        Linked(c0, x, y) || (x != y && x in muxes && y in muxes && (x !in rest || y !in rest))
      invariant NoEmptyEntry(c)
    {
      var a := Next(rest);
      rest := rest - {a};
      c := AddStar(c, a, rest);
    }
  }

  lemma AddToLinks(c: ConflictMap, a: int, b: int)
    ensures forall x, y :: Linked(AddTo(c, a, b), x, y) <==> Linked(c, x, y) || (x == a && y == b)
    ensures NoEmptyEntry(c) ==> NoEmptyEntry(AddTo(c, a, b))
  {
    var d := AddTo(c, a, b);
    assert Linked(d, a, b);
    if NoEmptyEntry(c) {
      forall x | x in d ensures exists y :: Linked(d, x, y) {
        if x != a {
          var y :| Linked(c, x, y);
          assert Linked(d, x, y);
        }
      }
    }
  }

  method AddStar(c0: ConflictMap, a: int, partners: set<int>) returns (c: ConflictMap)
    requires NoEmptyEntry(c0)
    ensures forall x, y :: Linked(c, x, y) <==>
      Linked(c0, x, y) || (x == a && y in partners) || (y == a && x in partners)
    ensures NoEmptyEntry(c)
  {
    c := c0;
    var todo := partners;
    while todo != {}
      invariant todo <= partners
      invariant forall x, y :: Linked(c, x, y) <==>
        Linked(c0, x, y) || (x == a && y in partners - todo) || (y == a && x in partners - todo)
      invariant NoEmptyEntry(c)
    {
      var b := Next(todo);
      AddToLinks(c, a, b);
      c := AddTo(c, a, b);
      AddToLinks(c, b, a);
      c := AddTo(c, b, a);
      todo := todo - {b};
    }
  }

  // ---------------------------------------------------------------------
  // The builders of the two scripts
  // ---------------------------------------------------------------------

  method BuildMuxConflictMap(w: seq<MuxEntry>) returns (c: ConflictMap)
    ensures ExactMap(w, c)
  {
    var readout, ctrl := GroupByModule(w);
    var viaReadout := CreateConflictMap(readout);
    var viaCtrl := CreateConflictMap(ctrl);
    GroupsGiveSharing(w, Readout, readout);
    GroupsGiveSharing(w, Control, ctrl);
    c := UpdateAll(viaReadout, viaCtrl);
  }

  /** `for k, v in other.items(): merged[k].update(v)`. */
  method UpdateAll(c0: ConflictMap, other: ConflictMap) returns (c: ConflictMap)
    ensures forall x, y :: Linked(c, x, y) <==> Linked(c0, x, y) || Linked(other, x, y)
    ensures c.Keys == c0.Keys + other.Keys
    ensures NoEmptyEntry(c0) && NoEmptyEntry(other) ==> NoEmptyEntry(c)
  {
    c := c0;
    var todo := other.Keys;
    while todo != {}
      invariant todo <= other.Keys
      invariant forall x, y :: Linked(c, x, y) <==> Linked(c0, x, y) || (x !in todo && Linked(other, x, y))
      invariant c.Keys == c0.Keys + (other.Keys - todo)
      invariant NoEmptyEntry(c0) && NoEmptyEntry(other) ==> NoEmptyEntry(c)
    {
      var k := Next(todo);
      c := c[k := (if k in c then c[k] else {}) + other[k]];
      todo := todo - {k};
    }
  }

  lemma GroupsGiveSharing(w: seq<MuxEntry>, r: Resource, groups: map<string, set<int>>)
    requires GroupsOf(w, r, groups)
    ensures forall a, b :: Together(groups, groups.Keys, a, b) <==> a != b && Share(w, r, a, b)
  {
    forall a, b
      ensures Together(groups, groups.Keys, a, b) <==> a != b && Share(w, r, a, b)
    {
      if a != b && Share(w, r, a, b) {
        var m :| User(w, r, m, a) && User(w, r, m, b);
        assert InGroup(groups, m, a) && InGroup(groups, m, b);
      }
      if Together(groups, groups.Keys, a, b) {
        var m :| m in groups.Keys && InGroup(groups, m, a) && InGroup(groups, m, b);
        assert User(w, r, m, a) && User(w, r, m, b);
      }
    }
  }

  ghost predicate ExactFor(w: seq<MuxEntry>, r: Resource, c: ConflictMap) {
    && (forall a, b :: Linked(c, a, b) <==> a != b && Share(w, r, a, b))
    && NoEmptyEntry(c)
  }

  method BuildReadoutSharingByModule(w: seq<MuxEntry>) returns (c: ConflictMap)
    ensures ExactFor(w, Readout, c)
  {
    var groups: map<string, set<int>> := map[];
    for i := 0 to |w|
      invariant GroupsOf(w[..i], Readout, groups)
    {
      var e := w[i];
      UserExtends(w, i);
      ghost var groups0 := groups;
      if e.readOut.Some? && e.readOut.value != "" {
        groups := AddTo(groups, ModuleOf(e.readOut.value), e.mux);
      }
      ReadoutModule(e);
      assert forall m, x :: InGroup(groups, m, x) <==> InGroup(groups0, m, x) || (x == e.mux && Uses(e, Readout, m));
    }
    assert w[..|w|] == w;
    c := CreateConflictMap(groups);
    GroupsGiveSharing(w, Readout, groups);
  }

  method BuildControlConflictsByModule(w: seq<MuxEntry>) returns (c: ConflictMap)
    ensures ExactFor(w, Control, c)
  {
    var groups: map<string, set<int>> := map[];
    for i := 0 to |w|
      invariant GroupsOf(w[..i], Control, groups)
    {
      UserExtends(w, i);
      groups := AddControlPorts(w[..i], w[i], groups);
    }
    assert w[..|w|] == w;
    c := CreateConflictMap(groups);
    GroupsGiveSharing(w, Control, groups);
  }

  ghost predicate LinkedIn(maps: seq<ConflictMap>, x: int, y: int) {
    exists i :: 0 <= i < |maps| && Linked(maps[i], x, y)
  }

  ghost predicate MergeOf(maps: seq<ConflictMap>, merged: ConflictMap) {
    && (forall x, y :: Linked(merged, x, y) <==> LinkedIn(maps, x, y))
    && (forall k :: k in merged <==> exists i :: 0 <= i < |maps| && k in maps[i])
    && ((forall i :: 0 <= i < |maps| ==> NoEmptyEntry(maps[i])) ==> NoEmptyEntry(merged))
  }

  lemma OneMoreLink(maps: seq<ConflictMap>, m: ConflictMap, x: int, y: int)
    ensures LinkedIn(maps + [m], x, y) <==> LinkedIn(maps, x, y) || Linked(m, x, y)
  {
    hide Linked;
    var longer := maps + [m];
    assert longer[|maps|] == m;
    assert forall i :: 0 <= i < |maps| ==> longer[i] == maps[i];
  }

  lemma OneMoreMap(maps: seq<ConflictMap>, m: ConflictMap, before: ConflictMap, after: ConflictMap)
    requires MergeOf(maps, before)
    requires forall x, y :: Linked(after, x, y) <==> Linked(before, x, y) || Linked(m, x, y)
    requires after.Keys == before.Keys + m.Keys
    requires NoEmptyEntry(before) && NoEmptyEntry(m) ==> NoEmptyEntry(after)
    ensures MergeOf(maps + [m], after)
  {
    hide Linked, LinkedIn, NoEmptyEntry;
    var longer := maps + [m];
    forall x, y ensures Linked(after, x, y) <==> LinkedIn(longer, x, y) {
      OneMoreLink(maps, m, x, y);
    }
    assert longer[|maps|] == m;
    assert forall i :: 0 <= i < |maps| ==> longer[i] == maps[i];
  }

  method MergeMuxConflicts(maps: seq<ConflictMap>) returns (merged: ConflictMap)
    ensures forall x, y :: Linked(merged, x, y) <==> LinkedIn(maps, x, y)
    ensures forall k :: k in merged <==> exists i :: 0 <= i < |maps| && k in maps[i]
    ensures (forall i :: 0 <= i < |maps| ==> NoEmptyEntry(maps[i])) ==> NoEmptyEntry(merged)
  {
    merged := map[];
    for n := 0 to |maps|
      invariant MergeOf(maps[..n], merged)
    {
      ghost var before := merged;
      merged := UpdateAll(merged, maps[n]);
      OneMoreMap(maps[..n], maps[n], before, merged);
      assert maps[..n + 1] == maps[..n] + [maps[n]];
    }
    assert maps[..|maps|] == maps;
  }

  /** Merging the two per-resource maps of the second script gives the very map
      the first script builds in one go. */
  method MergedMapEqualsDirectMap(w: seq<MuxEntry>) returns (merged: ConflictMap, direct: ConflictMap)
    ensures merged == direct
    ensures ExactMap(w, direct)
  {
    var readout := BuildReadoutSharingByModule(w);
    var ctrl := BuildControlConflictsByModule(w);
    merged := MergeMuxConflicts([readout, ctrl]);
    direct := BuildMuxConflictMap(w);
    forall a, b
      ensures Linked(merged, a, b) <==> Conflict(w, a, b)
    {
      assert [readout, ctrl][0] == readout && [readout, ctrl][1] == ctrl;
    }
    ExactMapIsUnique(w, merged, direct);
  }

  // ---------------------------------------------------------------------
  // Qubit id to MUX
  // ---------------------------------------------------------------------

  /** Python's str(int). */
  function Str(n: int): string {
    if n < 0 then "-" + Decimal(-n) else Decimal(n)
  }

  function Decimal(n: nat): (s: string)
    ensures s != ""
    ensures forall i :: 0 <= i < |s| ==> '0' <= s[i] <= '9'
  {
    if n < 10 then [Digit(n)] else Decimal(n / 10) + [Digit(n % 10)]
  }

  function Digit(d: nat): (c: char)
    requires d < 10
    ensures '0' <= c <= '9' && c as int == '0' as int + d
  {
    ('0' as int + d) as char
  }

  lemma {:induction false} DecimalInjective(m: nat, n: nat)
    requires Decimal(m) == Decimal(n)
    ensures m == n
  {
    var s, t := Decimal(m), Decimal(n);
    assert s[|s| - 1] == Digit(m % 10);
    assert t[|t| - 1] == Digit(n % 10);
    assert m % 10 == n % 10;
    if m < 10 || n < 10 {
    } else {
      assert s[..|s| - 1] == Decimal(m / 10);
      assert t[..|t| - 1] == Decimal(n / 10);
      DecimalInjective(m / 10, n / 10);
    }
  }

  lemma MinusIsNoDigit(digits: string, rest: string)
    requires forall i :: 0 <= i < |digits| ==> '0' <= digits[i] <= '9'
    ensures digits != "-" + rest
  {
    assert ("-" + rest)[0] == '-';
  }

  lemma StrInjective(m: int, n: int)
    requires Str(m) == Str(n)
    ensures m == n
  {
    if m < 0 && n < 0 {
      assert Str(m)[1..] == Str(n)[1..];
      DecimalInjective(-m, -n);
    } else if m >= 0 && n >= 0 {
      DecimalInjective(m, n);
    } else if m < 0 {
      MinusIsNoDigit(Decimal(n), Decimal(-m));
    } else {
      MinusIsNoDigit(Decimal(m), Decimal(-n));
    }
  }

  /** The number that a string of digits writes. */
  function Value(digits: string): int {
    if digits == "" then 0 else 10 * Value(digits[..|digits| - 1]) + (digits[|digits| - 1] as int - '0' as int)
  }

  /** Digits without a leading zero that write n. */
  predicate Writes(digits: string, n: nat) {
    && digits != "" && (digits[0] == '0' ==> |digits| == 1)
    && (forall i :: 0 <= i < |digits| ==> '0' <= digits[i] <= '9')
    && Value(digits) == n
  }

  /** The decimal notation of an integer, a minus sign in front of a negative one. */
  predicate IsDecimal(s: string, n: int) {
    if n < 0 then s != "" && s[0] == '-' && Writes(s[1..], -n) else Writes(s, n)
  }

  lemma {:induction false} DecimalWrites(n: nat)
    ensures Writes(Decimal(n), n)
    ensures n > 0 ==> Decimal(n)[0] != '0'
  {
    if n < 10 {
      assert Decimal(n)[..0] == "";
    } else {
      DecimalWrites(n / 10);
      var s := Decimal(n);
      assert s[..|s| - 1] == Decimal(n / 10) && s[0] == Decimal(n / 10)[0];
    }
  }

  lemma {:induction false} ValuePositive(s: string)
    requires s != "" && s[0] != '0' && forall i :: 0 <= i < |s| ==> '0' <= s[i] <= '9'
    ensures Value(s) > 0
  {
    if |s| == 1 {
      assert s[..0] == "";
    } else {
      ValuePositive(s[..|s| - 1]);
    }
  }

  lemma {:induction false} WritesOnce(s: string, n: nat)
    requires Writes(s, n)
    ensures s == Decimal(n)
    decreases |s|
  {
    var front, last := s[..|s| - 1], s[|s| - 1];
    assert s == front + [last] && '0' <= last <= '9';
    if front == "" {
      assert Value(front) == 0;
    } else {
      ValuePositive(front);
      assert n == 10 * Value(front) + (last as int - '0' as int);
      assert n / 10 == Value(front);
      assert Writes(front, n / 10);
      WritesOnce(front, n / 10);
    }
  }

  /** Decimal notation is what str prints, and nothing else. */
  lemma StrIsDecimal(s: string, n: int)
    ensures s == Str(n) <==> IsDecimal(s, n)
  {
    hide Writes;
    var m := if n < 0 then -n else n;
    DecimalWrites(m);
    if n < 0 {
      assert Str(n)[1..] == Decimal(m);
      if IsDecimal(s, n) {
        WritesOnce(s[1..], m);
        assert s == "-" + s[1..];
      }
    } else if IsDecimal(s, n) {
      WritesOnce(s, m);
    }
  }

  /** The id of the k-th qubit of a MUX. */
  function QubitId(mux: int, k: nat): string {
    Str(mux * 4 + k)
  }

  /** Written in decimal, the qubit is one of the first n of the MUX. */
  ghost predicate QubitOf(mux: int, n: nat, qid: string) {
    exists id :: 4 * mux <= id < 4 * mux + n && IsDecimal(qid, id)
  }

  /** The wiring lists `mux`, and qubit `qid` is one of its four consecutive qubits. */
  ghost predicate Drives(w: seq<MuxEntry>, mux: int, qid: string) {
    QubitOf(mux, 4, qid) && exists e :: e in w && e.mux == mux
  }

  lemma DrivenByOneMux(a: int, b: int, qid: string)
    requires QubitOf(a, 4, qid) && QubitOf(b, 4, qid)
    ensures a == b
  {
    hide IsDecimal;
    var m :| 4 * a <= m < 4 * a + 4 && IsDecimal(qid, m);
    var n :| 4 * b <= n < 4 * b + 4 && IsDecimal(qid, n);
    StrIsDecimal(qid, m);
    StrIsDecimal(qid, n);
    StrInjective(m, n);
  }

  lemma NoQubits(mux: int)
    ensures forall qid :: !QubitOf(mux, 0, qid)
  {
  }

  lemma OneMoreQubit(mux: int, k: nat, qid: string)
    ensures QubitOf(mux, k + 1, qid) <==> QubitOf(mux, k, qid) || qid == QubitId(mux, k)
  {
    hide IsDecimal, Str;
    StrIsDecimal(qid, 4 * mux + k);
  }

  /** The map sends a qubit to a MUX exactly when the wiring lists that MUX and
      the qubit is one of its four. */
  ghost predicate ExactQubitMap(w: seq<MuxEntry>, q: map<string, int>) {
    forall qid, mux :: (qid in q && q[qid] == mux) <==> Drives(w, mux, qid)
  }

  method BuildQubitToMuxMap(w: seq<MuxEntry>) returns (q: map<string, int>)
    ensures ExactQubitMap(w, q)
  {
    hide QubitOf, Str;
    q := map[];
    for i := 0 to |w|
      invariant ExactQubitMap(w[..i], q)
    {
      var x := w[i].mux;
      ghost var q0 := q;
      NoQubits(x);
      for k := 0 to 4
        invariant forall qid :: QubitOf(x, k, qid) ==> qid in q && q[qid] == x
        invariant forall qid :: !QubitOf(x, k, qid) ==> (qid in q <==> qid in q0) && (qid in q ==> q[qid] == q0[qid])
      {
        q := q[QubitId(x, k) := x];
        forall qid ensures QubitOf(x, k + 1, qid) <==> QubitOf(x, k, qid) || qid == QubitId(x, k) {
          OneMoreQubit(x, k, qid);
        }
      }
      assert w[..i + 1] == w[..i] + [w[i]];
      forall qid, mux {:trigger Drives(w[..i + 1], mux, qid)}
        ensures (qid in q && q[qid] == mux) <==> Drives(w[..i + 1], mux, qid)
      {
        assert Drives(w[..i + 1], mux, qid) <==> Drives(w[..i], mux, qid) || (mux == x && QubitOf(x, 4, qid));
        if QubitOf(x, 4, qid) && QubitOf(mux, 4, qid) {
          DrivenByOneMux(x, mux, qid);
        }
      }
    }
    assert w[..|w|] == w;
  }
}

/** Merging freshly calibrated data into the stored calibration data of a qubit or
    coupling. */
module CalibMerge {
  import opened Common
  import opened Json

  /** The merged value: dictionaries key by key, anything else replaced by the update. */
  function Merge(e: Json, n: Json): Json
    decreases n
  {
    if e.Obj? && n.Obj? then
      Obj(map k | k in e.fields.Keys + n.fields.Keys :: MergedField(e, n, k))
    else n
  }

  function MergedField(e: Json, n: Json, k: string): Json
    requires e.Obj? && n.Obj? && k in e.fields.Keys + n.fields.Keys
    decreases n, 0
  {
    if k !in n.fields then e.fields[k]
    else if k !in e.fields then n.fields[k]
    else Merge(e.fields[k], n.fields[k])
  }

  // ---------------------------------------------------------------------
  // Path semantics
  // ---------------------------------------------------------------------

  function Lookup(j: Json, path: seq<string>): Option<Json> {
    if path == [] then Some(j)
    else if j.Obj? && path[0] in j.fields then Lookup(j.fields[path[0]], path[1..])
    else None
  }

  /** On the way to `path` the update holds something that is not a dictionary. */
  predicate LeafAbove(n: Json, path: seq<string>) {
    path != [] && (n.Leaf? || (path[0] in n.fields && LeafAbove(n.fields[path[0]], path[1..])))
  }

  /** A path reads the update where the update defines it, merged with the old value if
      there was one; the old value where it does not; and nothing below a value that
      replaced a dictionary. */
  lemma {:induction false} MergeReads(e: Json, n: Json, path: seq<string>)
    ensures Lookup(Merge(e, n), path) ==
      match (Lookup(n, path), Lookup(e, path))
      case (Some(y), Some(x)) => Some(Merge(x, y))
      case (Some(y), None) => Some(y)
      case (None, old_) => if LeafAbove(n, path) then None else old_
    decreases path
  {
    if path != [] && e.Obj? && n.Obj? {
      var k := path[0];
      if k in e.fields && k in n.fields {
        MergeReads(e.fields[k], n.fields[k], path[1..]);
      } else if k in n.fields {
        MissingBelowLeaf(n.fields[k], path[1..]);
      }
    } else if path != [] {
      MissingBelowLeaf(n, path);
    }
  }

  /** Where a value has no entry, either a leaf stands in the way or a key is missing. */
  lemma {:induction false} MissingBelowLeaf(n: Json, path: seq<string>)
    ensures LeafAbove(n, path) ==> Lookup(n, path).None?
    decreases path
  {
    if path == [] || n.Leaf? || path[0] !in n.fields {
    } else {
      MissingBelowLeaf(n.fields[path[0]], path[1..]);
    }
  }

  // ---------------------------------------------------------------------
  // Algebra
  // ---------------------------------------------------------------------

  /** `b` defines everything that `e` defines, dictionary by dictionary. */
  predicate Covers(b: Json, e: Json)
    decreases b
  {
    b.Obj? && e.Obj? ==> forall k :: k in e.fields ==> k in b.fields && Covers(b.fields[k], e.fields[k])
  }

  /** Merging `b` leaves nothing of `e` exactly if `b` covers `e`. */
  lemma {:induction false} MergeIsUpdateIffCovers(e: Json, b: Json)
    ensures Merge(e, b) == b <==> Covers(b, e)
    decreases b
  {
    if e.Leaf? || b.Leaf? {
    } else {
      forall k | k in e.fields && k in b.fields
        ensures Merge(e.fields[k], b.fields[k]) == b.fields[k] <==> Covers(b.fields[k], e.fields[k])
      {
        MergeIsUpdateIffCovers(e.fields[k], b.fields[k]);
      }
      var m := Merge(e, b);
      if m == b {
        forall k | k in e.fields ensures k in b.fields && Covers(b.fields[k], e.fields[k]) {
          assert k in m.fields && m.fields[k] == MergedField(e, b, k);
        }
      }
      if Covers(b, e) {
        assert m.fields.Keys == b.fields.Keys;
        forall k | k in b.fields ensures m.fields[k] == b.fields[k] {
          assert m.fields[k] == MergedField(e, b, k);
        }
        assert m.fields == b.fields;
      }
    }
  }

  lemma {:induction false} CoversItself(b: Json)
    ensures Covers(b, b)
    decreases b
  {
    if b.Leaf? {
    } else {
      forall k | k in b.fields ensures Covers(b.fields[k], b.fields[k]) {
        CoversItself(b.fields[k]);
      }
    }
  }

  /** Applying the same update again changes nothing. */
  lemma {:induction false} MergeIdempotent(e: Json, n: Json)
    ensures Merge(Merge(e, n), n) == Merge(e, n)
    decreases n
  {
    if e.Obj? && n.Obj? {
      var m := Merge(e, n);
      forall k | k in m.fields ensures MergedField(m, n, k) == m.fields[k] {
        assert m.fields[k] == MergedField(e, n, k);
        if k in n.fields {
          if k in e.fields {
            MergeIdempotent(e.fields[k], n.fields[k]);
          } else {
            CoversItself(n.fields[k]);
            MergeIsUpdateIffCovers(n.fields[k], n.fields[k]);
          }
        }
      }
      assert m.fields.Keys == Merge(m, n).fields.Keys;
    } else {
      CoversItself(n);
      MergeIsUpdateIffCovers(n, n);
    }
  }

  /** Wherever the first update puts a leaf over a dictionary and the second puts a
      dictionary back, the second one covers the original dictionary. */
  predicate NothingResurfaces(e: Json, a: Json, b: Json)
    decreases a, b
  {
    e.Obj? && b.Obj? ==>
      if a.Leaf? then Covers(b, e)
      else forall k :: k in e.fields && k in a.fields && k in b.fields ==>
        NothingResurfaces(e.fields[k], a.fields[k], b.fields[k])
  }

  /** Two updates in turn equal their merge exactly when nothing that the first one
      deleted resurfaces under the second. */
  lemma {:induction false} TwoUpdatesEqualTheirMergeIff(e: Json, a: Json, b: Json)
    ensures Merge(Merge(e, a), b) == Merge(e, Merge(a, b)) <==> NothingResurfaces(e, a, b)
    decreases a, b
  {
    if !(e.Obj? && b.Obj?) {
    } else if a.Leaf? {
      MergeIsUpdateIffCovers(e, b);
    } else {
      var ea, ab := Merge(e, a), Merge(a, b);
      var left, right := Merge(ea, b), Merge(e, ab);
      forall k | k in left.fields
        ensures left.fields[k] == right.fields[k] <==>
          (k in e.fields && k in a.fields && k in b.fields ==> NothingResurfaces(e.fields[k], a.fields[k], b.fields[k]))
      {
        assert left.fields[k] == MergedField(ea, b, k) && right.fields[k] == MergedField(e, ab, k);
        assert k in ea.fields ==> ea.fields[k] == MergedField(e, a, k);
        assert k in ab.fields ==> ab.fields[k] == MergedField(a, b, k);
        if k in e.fields && k in a.fields && k in b.fields {
          TwoUpdatesEqualTheirMergeIff(e.fields[k], a.fields[k], b.fields[k]);
        }
      }
      assert left.fields.Keys == right.fields.Keys;
      if NothingResurfaces(e, a, b) {
        assert left.fields == right.fields;
      }
    }
  }

  /** The two updates never disagree about what is a dictionary. */
  predicate SameShape(a: Json, b: Json)
    decreases a
  {
    && (a.Obj? <==> b.Obj?)
    && (a.Obj? ==> forall k :: k in a.fields && k in b.fields ==> SameShape(a.fields[k], b.fields[k]))
  }

  /** Updates of the same shape bring nothing back, whatever they are applied to. */
  lemma {:induction false} SameShapeIsEnough(e: Json, a: Json, b: Json)
    requires SameShape(a, b)
    ensures NothingResurfaces(e, a, b)
    ensures Merge(Merge(e, a), b) == Merge(e, Merge(a, b))
    decreases a, b
  {
    if e.Leaf? || a.Leaf? || b.Leaf? {
    } else {
      forall k | k in e.fields && k in a.fields && k in b.fields
        ensures NothingResurfaces(e.fields[k], a.fields[k], b.fields[k])
      {
        SameShapeIsEnough(e.fields[k], a.fields[k], b.fields[k]);
      }
    }
    TwoUpdatesEqualTheirMergeIff(e, a, b);
  }

  /** The condition is needed: a leaf between two dictionaries brings the old key back. */
  lemma LeafBetweenDictionaries()
    ensures
      var e := Obj(map["t1" := Obj(map["value" := Leaf("old")])]);
      var a := Obj(map["t1" := Leaf("reset")]);
      var b := Obj(map["t1" := Obj(map["error" := Leaf("new")])]);
      && Lookup(Merge(Merge(e, a), b), ["t1", "value"]) == None
      && Lookup(Merge(e, Merge(a, b)), ["t1", "value"]) == Some(Leaf("old"))
  {
    var e := Obj(map["t1" := Obj(map["value" := Leaf("old")])]);
    var a := Obj(map["t1" := Leaf("reset")]);
    var b := Obj(map["t1" := Obj(map["error" := Leaf("new")])]);
    var path := ["t1", "value"];
    assert path[1..] == ["value"] && path[1..][1..] == [];
    MergeReads(Merge(e, a), b, path);
    MergeReads(e, a, path);
    MergeReads(e, Merge(a, b), path);
    MergeReads(a, b, path);
    assert Lookup(e, path) == Some(Leaf("old"));
    assert LeafAbove(a, path);
    assert Lookup(b, path) == None;
  }

  /** One merge in full: a value is replaced, a value below a dictionary too, and what only one side has stays. */
  lemma MergeInFull()
    ensures
      var e := Obj(map["t1" := Obj(map["value" := Leaf("1"), "error" := Leaf("2")]), "f" := Leaf("5")]);
      var n := Obj(map["t1" := Obj(map["value" := Leaf("3")]), "g" := Leaf("7")]);
      Merge(e, n) == Obj(map["t1" := Obj(map["value" := Leaf("3"), "error" := Leaf("2")]), "f" := Leaf("5"),
                             "g" := Leaf("7")])
  {
    var a, b := Obj(map["value" := Leaf("1"), "error" := Leaf("2")]), Obj(map["value" := Leaf("3")]);
    assert Merge(a, b).fields == map["value" := Leaf("3"), "error" := Leaf("2")];
    MergeBelow(a, b, Leaf("5"), Leaf("7"));
  }

  lemma MergeBelow(a: Json, b: Json, x: Json, y: Json)
    ensures Merge(Obj(map["t1" := a, "f" := x]), Obj(map["t1" := b, "g" := y])) ==
      Obj(map["t1" := Merge(a, b), "f" := x, "g" := y])
  {
    hide MergedField;
    var e, n := Obj(map["t1" := a, "f" := x]), Obj(map["t1" := b, "g" := y]);
    FieldsBelow(a, b, x, y, e, n);
    assert e.fields.Keys + n.fields.Keys == {"t1", "f", "g"};
    assert Merge(e, n).fields == map["t1" := Merge(a, b), "f" := x, "g" := y];
  }

  lemma FieldsBelow(a: Json, b: Json, x: Json, y: Json, e: Json, n: Json)
    requires e == Obj(map["t1" := a, "f" := x]) && n == Obj(map["t1" := b, "g" := y])
    ensures MergedField(e, n, "t1") == Merge(a, b) && MergedField(e, n, "f") == x && MergedField(e, n, "g") == y
  {
    hide Merge;
  }

  // ---------------------------------------------------------------------
  // The same on mutable dictionaries
  // ---------------------------------------------------------------------

  /** A dictionary entry: a plain value or a reference to another dictionary. */
  datatype Entry = Scalar(value: string) | Sub(dict: Dict)

  class Dict {
    var entries: map<string, Entry>
    ghost var Repr: set<Dict>
    ghost var Model: Json

    /** The dictionaries reachable from this one form a tree, and Model is its value. */
    ghost predicate Valid()
      reads this, Repr
      ensures Valid() ==> this in Repr
      decreases Repr
    {
      && this in Repr
      && Model.Obj? && Model.fields.Keys == entries.Keys
      && (forall k :: k in entries ==> EntryValid(k))
      && (forall k, l :: k in entries && l in entries && k != l && entries[k].Sub? && entries[l].Sub? ==>
            entries[k].dict.Repr !! entries[l].dict.Repr)
    }

    ghost predicate EntryValid(k: string)
      requires k in entries && Model.Obj? && k in Model.fields && this in Repr
      reads this, Repr
      decreases Repr, 0
    {
      match entries[k]
      case Scalar(v) => Model.fields[k] == Leaf(v)
      case Sub(d) => d in Repr && d.Repr < Repr && this !in d.Repr && d.Valid() && Model.fields[k] == d.Model
    }
  }

  /** The merge while the keys in `done` have been processed. */
  ghost function PartialMerge(e: Json, n: Json, done: set<string>): Json
    requires e.Obj? && n.Obj?
  {
    Obj(map k | k in e.fields.Keys + n.fields.Keys * done ::
      if k in n.fields && k in done then MergedField(e, n, k) else e.fields[k])
  }

  lemma PartialMergeStep(e: Json, n: Json, done: set<string>, k: string)
    requires e.Obj? && n.Obj? && k in n.fields && k !in done
    ensures MergedField(PartialMerge(e, n, done), n, k) == MergedField(e, n, k)
    ensures PartialMerge(e, n, done + {k}) == Obj(PartialMerge(e, n, done).fields[k := MergedField(e, n, k)])
  {
    assert PartialMerge(e, n, done + {k}).fields == PartialMerge(e, n, done).fields[k := MergedField(e, n, k)];
  }

  lemma PartialMergeEnds(e: Json, n: Json)
    requires e.Obj? && n.Obj?
    ensures PartialMerge(e, n, {}) == e
    ensures PartialMerge(e, n, n.fields.Keys) == Merge(e, n)
  {
    assert PartialMerge(e, n, {}).fields == e.fields;
    assert PartialMerge(e, n, n.fields.Keys).fields == Merge(e, n).fields;
  }

  /** In-place merge; sub-dictionaries of the update may end up shared. */
  method MergeCalibData(existing: Dict, update: Dict)
    requires existing.Valid() && update.Valid() && existing.Repr !! update.Repr
    modifies existing.Repr
    ensures existing.Valid() && existing.Model == Merge(old(existing.Model), update.Model)
    ensures existing.Repr <= old(existing.Repr) + update.Repr
    ensures update.Valid() && update.Model == old(update.Model) && update.Repr == old(update.Repr)
    decreases update.Repr, 1
  {
    ghost var e, n, R := existing.Model, update.Model, existing.Repr;
    MergeBegins(existing, update);
    var todo := update.entries.Keys;
    while todo != {}
      invariant MidMerge(existing, update, e, n, todo, R)
      invariant unchanged(update)
    {
      var k := Next(todo);
      MergeTurn(existing, update, k, e, n, todo, R);
      todo := todo - {k};
    }
    MergeEnds(existing, update, e, n, todo, R);
  }

  lemma MergeBegins(existing: Dict, update: Dict)
    requires existing.Valid() && update.Valid() && existing.Repr !! update.Repr
    ensures MidMerge(existing, update, existing.Model, update.Model, update.entries.Keys, existing.Repr)
  {
    PartialMergeEnds(existing.Model, update.Model);
    assert update.Model.fields.Keys - update.entries.Keys == {};
    forall k | k in update.entries
      ensures Below(update, k) <= update.Repr && (k in existing.entries ==> Below(existing, k) <= existing.Repr)
    {
      assert update.EntryValid(k);
      assert k in existing.entries ==> existing.EntryValid(k);
    }
  }

  lemma MergeEnds(existing: Dict, update: Dict, e: Json, n: Json, todo: set<string>, R: set<Dict>)
    requires todo == {} && MidMerge(existing, update, e, n, todo, R)
    ensures existing.Model == Merge(e, n)
  {
    PartialMergeEnds(e, n);
    assert n.fields.Keys - todo == n.fields.Keys;
  }

  /** The state of the loop when the keys in `todo` are still to come. */
  ghost predicate MidMerge(existing: Dict, update: Dict, e: Json, n: Json, todo: set<string>, R: set<Dict>)
    reads existing, existing.Repr, update, update.Repr, Children(existing) + Children(update)
  {
    && existing.Valid() && update.Valid() && e.Obj? && update.Model == n
    && existing in R && R !! update.Repr
    && existing.Repr <= R + update.Repr && update !in existing.Repr
    && todo <= update.entries.Keys
    && existing.Model == PartialMerge(e, n, n.fields.Keys - todo)
    && Pending(existing, update, todo, R)
  }

  method MergeTurn(existing: Dict, update: Dict, k: string, ghost e: Json, ghost n: Json, ghost todo: set<string>,
                   ghost R: set<Dict>)
    requires k in todo && MidMerge(existing, update, e, n, todo, R)
    modifies R
    ensures MidMerge(existing, update, e, n, todo - {k}, R)
    ensures unchanged(update)
    decreases update.Repr, 0, 2
  {
    PartialMergeStep(e, n, n.fields.Keys - todo, k);
    assert n.fields.Keys - (todo - {k}) == n.fields.Keys - todo + {k};
    MergeEntry(existing, update, k, todo, R);
  }

  /** One turn of the loop. */
  method MergeEntry(existing: Dict, update: Dict, k: string, ghost todo: set<string>, ghost R: set<Dict>)
    requires k in todo && Ready(existing, update, todo, R)
    modifies R
    ensures Ready(existing, update, todo - {k}, R)
    ensures old(existing.Model).Obj? && update.Model.Obj? && k in update.Model.fields
    ensures existing.Model == Obj(old(existing.Model).fields[k := MergedField(old(existing.Model), update.Model, k)])
    ensures existing.Repr <= old(existing.Repr) + update.Repr
    decreases update.Repr, 0, 1
  {
    hide Merge, MergedField, Pending;
    var value := update.entries[k];
    FieldOfEntry(existing, update, k);
    if k in existing.entries && existing.entries[k].Sub? && value.Sub? {
      MergeSub(existing, update, k, value.dict, todo, R);
    } else {
      Replace(existing, update, k, value, todo, R);
    }
  }

  lemma FieldOfEntry(existing: Dict, update: Dict, k: string)
    requires existing.Valid() && update.Valid() && k in update.entries
    ensures
      var e, n := existing.Model, update.Model;
      if k in existing.entries && existing.entries[k].Sub? && update.entries[k].Sub?
      then MergedField(e, n, k) == Merge(e.fields[k], n.fields[k]) && n.fields[k] == update.entries[k].dict.Model
      else MergedField(e, n, k) == n.fields[k]
  {
    assert update.EntryValid(k);
    assert k in existing.entries ==> existing.EntryValid(k);
  }

  ghost predicate Ready(existing: Dict, update: Dict, todo: set<string>, R: set<Dict>)
    reads existing, existing.Repr, update, update.Repr, Children(existing) + Children(update)
  {
    && existing.Valid() && update.Valid() && existing in R && R !! update.Repr && update !in existing.Repr
    && todo <= update.entries.Keys && Pending(existing, update, todo, R)
  }

  /** `existing[key] = value`. */
  method Replace(existing: Dict, update: Dict, k: string, value: Entry, ghost todo: set<string>, ghost R: set<Dict>)
    requires k in todo && Ready(existing, update, todo, R) && value == update.entries[k]
    modifies existing
    ensures Ready(existing, update, todo - {k}, R)
    ensures old(existing.Model).Obj? && update.Model.Obj? && k in update.Model.fields
    ensures existing.Model == Obj(old(existing.Model).fields[k := update.Model.fields[k]])
    ensures existing.Repr <= old(existing.Repr) + update.Repr
  {
    assert update.EntryValid(k);
    Assign(existing, k, value, update.Model.fields[k]);
    forall l | l in todo - {k}
      ensures Below(update, l) !! existing.Repr && (l in existing.entries ==> Below(existing, l) <= R)
    {
      assert update.EntryValid(l);
      assert old(l in existing.entries ==> existing.EntryValid(l));
    }
  }

  /** `existing[key] = merge(existing[key], value)` inside the loop. */
  method MergeSub(existing: Dict, update: Dict, k: string, value: Dict, ghost todo: set<string>, ghost R: set<Dict>)
    requires k in todo && Ready(existing, update, todo, R) && update.entries[k] == Sub(value)
    requires k in existing.entries && existing.entries[k].Sub?
    modifies R
    ensures Ready(existing, update, todo - {k}, R)
    ensures old(existing.Model).Obj? && k in old(existing.Model).fields
    ensures existing.Model ==
      Obj(old(existing.Model).fields[k := Merge(old(existing.Model).fields[k], old(value.Model))])
    ensures existing.Repr <= old(existing.Repr) + update.Repr
    decreases update.Repr, 0, 0
  {
    hide Merge;
    assert update.EntryValid(k) && existing.EntryValid(k);
    MergeChild(existing, k, value);
    forall l | l in todo - {k}
      ensures Below(update, l) !! existing.Repr && (l in existing.entries ==> Below(existing, l) <= R)
    {
      assert update.EntryValid(l);
      assert old(l in existing.entries ==> existing.EntryValid(l));
    }
  }

  /** What the loop still needs: the entries of the update to come share nothing with
      the target, and the entries of the target they meet are original ones. */
  ghost predicate Pending(existing: Dict, update: Dict, todo: set<string>, R: set<Dict>)
    requires todo <= update.entries.Keys
    reads existing, update, set d: Dict | d in Children(existing) + Children(update)
  {
    forall k :: k in todo ==>
      Below(update, k) !! existing.Repr && (k in existing.entries ==> Below(existing, k) <= R)
  }

  ghost function Children(d: Dict): set<Dict>
    reads d
  {
    set k | k in d.entries && d.entries[k].Sub? :: d.entries[k].dict
  }

  /** The dictionaries below one entry. */
  ghost function Below(d: Dict, k: string): set<Dict>
    requires k in d.entries
    reads d, if d.entries[k].Sub? then {d.entries[k].dict} else {}
  {
    if d.entries[k].Sub? then d.entries[k].dict.Repr else {}
  }

  /** `existing[key] = value` for a value that shares nothing with `existing`. */
  method Assign(existing: Dict, k: string, value: Entry, ghost model: Json)
    requires existing.Valid()
    requires value.Scalar? ==> model == Leaf(value.value)
    requires value.Sub? ==> value.dict.Valid() && model == value.dict.Model && value.dict.Repr !! existing.Repr
    modifies existing
    ensures existing.Valid()
    ensures old(existing.Model).Obj? && existing.Model == Obj(old(existing.Model).fields[k := model])
    ensures existing.Repr == old(existing.Repr) + if value.Sub? then value.dict.Repr else {}
    ensures existing.entries == old(existing.entries)[k := value]
  {
    existing.entries := existing.entries[k := value];
    existing.Repr := existing.Repr + if value.Sub? then value.dict.Repr else {};
    existing.Model := Obj(existing.Model.fields[k := model]);
    forall l | l in existing.entries ensures existing.EntryValid(l) {
      if l != k {
        assert old(existing.EntryValid(l));
      }
    }
  }

  /** `existing[key] = merge(existing[key], value)` for two dictionaries. */
  method MergeChild(existing: Dict, k: string, value: Dict)
    requires existing.Valid() && value.Valid() && value.Repr !! existing.Repr
    requires k in existing.entries && existing.entries[k].Sub?
    modifies {existing} + existing.entries[k].dict.Repr
    ensures existing.Valid()
    ensures old(existing.Model).Obj? && k in old(existing.Model).fields
    ensures existing.Model == Obj(old(existing.Model).fields[k := Merge(old(existing.Model).fields[k], value.Model)])
    ensures existing.Repr <= old(existing.Repr) + value.Repr
    ensures existing.entries == old(existing.entries)
    decreases value.Repr, 2
  {
    hide Merge;
    var child := existing.entries[k].dict;
    assert existing.EntryValid(k);
    MergeCalibData(child, value);
    forall l | l in existing.entries && l != k ensures existing.EntryValid(l) {
      assert old(existing.EntryValid(l));
    }
    Refresh(existing, k);
  }

  /** Take over the new value and footprint of the dictionary under one key. */
  ghost method Refresh(existing: Dict, k: string)
    requires existing in existing.Repr && existing.Model.Obj? && existing.Model.fields.Keys == existing.entries.Keys
    requires forall l :: l in existing.entries && l != k ==> existing.EntryValid(l)
    requires k in existing.entries && existing.entries[k].Sub?
    requires existing.entries[k].dict.Valid() && existing !in existing.entries[k].dict.Repr
    requires SeparateSubs(existing)
    modifies existing
    ensures existing.Valid()
    ensures existing.Model == Obj(old(existing.Model).fields[k := existing.entries[k].dict.Model])
    ensures existing.Repr == old(existing.Repr) + existing.entries[k].dict.Repr
    ensures existing.entries == old(existing.entries)
  {
    var child := existing.entries[k].dict;
    existing.Repr := existing.Repr + child.Repr;
    existing.Model := Obj(existing.Model.fields[k := child.Model]);
    forall l | l in existing.entries ensures existing.EntryValid(l) {
      if l != k {
        assert old(existing.EntryValid(l));
      }
    }
  }

  ghost predicate SeparateSubs(d: Dict)
    reads d, Children(d)
  {
    forall k, l :: k in d.entries && l in d.entries && k != l && d.entries[k].Sub? && d.entries[l].Sub? ==>
      d.entries[k].dict.Repr !! d.entries[l].dict.Repr
  }
}

/**
 * Properties of the nested branches of ApplyNestedValue: lists are cleared
 * and rebuilt in saved order, dictionaries are restored shallowly, a null
 * nested object becomes a fresh instance, and a polymorphic "$type" makes a
 * replacement whose every field, [DontSave] ones included, is copied onto the
 * target, which keeps its own type.
 */
module SaveUtilityNested {
  import opened Wrappers
  import opened SaveUtility
  import opened SaveUtilityProofs

  // ---------------------------------------------------------------------------
  // Lists
  // ---------------------------------------------------------------------------

  lemma {:induction false} ApplyItemsSimple(tt: Table, lt: TypeId, elem: TypeId, saved: Node, i: nat, acc: seq<Val>)
    requires saved.NList? && i <= |saved.items| && IsSimple(tt, elem)
    requires forall j :: i <= j < |saved.items| ==> Store(tt, saved.items[j], elem).Some?
    ensures var r := ApplyItems(tt, lt, elem, saved, i, acc);
            && !r.threw && r.value.ListV? && r.value.t == lt
            && |r.value.items| == |acc| + |saved.items| - i
            && r.value.items[..|acc|] == acc
            && forall j :: i <= j < |saved.items| ==>
                 r.value.items[|acc| + j - i] == Store(tt, saved.items[j], elem).value
    decreases |saved.items| - i
  {
    if i < |saved.items| {
      var x := Store(tt, saved.items[i], elem).value;
      ApplyItemsSimple(tt, lt, elem, saved, i + 1, acc + [x]);
      var r := ApplyItems(tt, lt, elem, saved, i + 1, acc + [x]);
      assert r.value.items[..|acc| + 1] == acc + [x];
      assert r.value.items[..|acc|] == (acc + [x])[..|acc|];
    }
  }

  /**
   * A list of simple-typed elements is cleared and rebuilt with exactly the
   * saved items, in saved order; its previous elements are discarded.
   */
  lemma ListRestoreSimple(tt: Table, target: Val, items: seq<Node>)
    requires target.ListV? && IsSimple(tt, ElementType(tt, target.t))
    requires forall j :: 0 <= j < |items| ==> Store(tt, items[j], ElementType(tt, target.t)).Some?
    ensures var r := ApplyNested(tt, target, NList(items));
            && !r.threw && r.value.ListV? && r.value.t == target.t
            && |r.value.items| == |items|
            && forall j :: 0 <= j < |items| ==> r.value.items[j] == Store(tt, items[j], ElementType(tt, target.t)).value
  {
    var elem := ElementType(tt, target.t);
    assert ApplyNested(tt, target, NList(items)) == ApplyItems(tt, target.t, elem, NList(items), 0, []);
    ApplyItemsSimple(tt, target.t, elem, NList(items), 0, []);
    var r := ApplyItems(tt, target.t, elem, NList(items), 0, []);
    forall j | 0 <= j < |items|
      ensures r.value.items[j] == Store(tt, items[j], elem).value
    {
      assert r.value.items[0 + j - 0] == Store(tt, NList(items).items[j], elem).value;
    }
  }

  /** The saved items that are maps, in saved order: the only items a list of complex elements keeps. */
  function MapItems(items: seq<Node>): (r: seq<Node>)
    ensures |r| <= |items|
    ensures forall n :: n in r ==> n.NMap? && n in items
  {
    if items == [] then [] else (if items[0].NMap? then [items[0]] else []) + MapItems(items[1..])
  }

  /**
   * `r` is the list rebuilt from the saved maps `maps` after the elements
   * `acc`: each further element is the restore of the map at its position,
   * and an exception stops the rebuild at the first map that cannot be restored.
   */
  predicate RestoredFrom(tt: Table, elem: TypeId, r: Applied, acc: seq<Val>, maps: seq<Node>)
    requires r.value.ListV? && acc <= r.value.items
  {
    var items := r.value.items;
    && |items| <= |acc| + |maps|
    && (forall j :: |acc| <= j < |items| ==> RestoreItem(tt, elem, maps[j - |acc|]) == Some(items[j]))
    && (!r.threw <==> forall j :: 0 <= j < |maps| ==> RestoreItem(tt, elem, maps[j]).Some?)
    && (!r.threw ==> |items| == |acc| + |maps|)
    && (r.threw ==> |items| < |acc| + |maps| && RestoreItem(tt, elem, maps[|items| - |acc|]).None?)
  }

  lemma RestoredFromStep(tt: Table, elem: TypeId, r: Applied, acc: seq<Val>, x: Val, item: Node, rest: seq<Node>)
    requires r.value.ListV? && acc + [x] <= r.value.items
    requires RestoreItem(tt, elem, item) == Some(x)
    requires RestoredFrom(tt, elem, r, acc + [x], rest)
    ensures RestoredFrom(tt, elem, r, acc, [item] + rest)
  {
    var maps := [item] + rest;
    var items := r.value.items;
    assert items[|acc|] == x;
    forall j | |acc| <= j < |items| ensures RestoreItem(tt, elem, maps[j - |acc|]) == Some(items[j]) {
      if j > |acc| {
        assert maps[j - |acc|] == rest[j - |acc + [x]|];
      }
    }
    if !r.threw {
      forall j | 0 <= j < |maps| ensures RestoreItem(tt, elem, maps[j]).Some? {
        if j > 0 { assert maps[j] == rest[j - 1]; }
      }
    } else {
      assert maps[|items| - |acc|] == rest[|items| - |acc + [x]|];
    }
  }

  lemma {:induction false} ApplyItemsComplex(tt: Table, lt: TypeId, elem: TypeId, saved: Node, i: nat, acc: seq<Val>)
    requires saved.NList? && i <= |saved.items| && !IsSimple(tt, elem)
    ensures RestoredFrom(tt, elem, ApplyItems(tt, lt, elem, saved, i, acc), acc, MapItems(saved.items[i..]))
    decreases |saved.items| - i
  {
    if i < |saved.items| {
      var item := saved.items[i];
      assert saved.items[i..] == [item] + saved.items[i + 1..];
      var rest := MapItems(saved.items[i + 1..]);
      if item.NMap? {
        assert MapItems(saved.items[i..]) == [item] + rest;
        match RestoreItem(tt, elem, item)
        case None =>
        case Some(x) =>
          ApplyItemsComplex(tt, lt, elem, saved, i + 1, acc + [x]);
          RestoredFromStep(tt, elem, ApplyItems(tt, lt, elem, saved, i + 1, acc + [x]), acc, x, item, rest);
      } else {
        assert MapItems(saved.items[i..]) == rest;
        ApplyItemsComplex(tt, lt, elem, saved, i + 1, acc);
      }
    } else {
      assert saved.items[i..] == [];
    }
  }

  /**
   * A list of complex elements is cleared and rebuilt only from the saved
   * items that are maps, in saved order: its j-th element is the j-th map
   * restored into a new instance of its item type. Null items and anything
   * else are dropped. The rebuild stops at the first map that cannot be
   * restored, keeping the elements added before it.
   */
  lemma ListRestoreComplex(tt: Table, target: Val, items: seq<Node>)
    requires target.ListV? && !IsSimple(tt, ElementType(tt, target.t))
    ensures var r := ApplyNested(tt, target, NList(items));
            && r.value.ListV? && r.value.t == target.t
            && RestoredFrom(tt, ElementType(tt, target.t), r, [], MapItems(items))
  {
    assert items[0..] == items;
    ApplyItemsComplex(tt, target.t, ElementType(tt, target.t), NList(items), 0, []);
  }

  /**
   * A list item whose "$type" names a concrete type is created at that type,
   * so filling it never takes the polymorphic replacement path.
   */
  lemma ListItemTakesTaggedType(tt: Table, elem: TypeId, item: Node, d: TypeId)
    requires TaggedType(tt, item) == Some(d) && NewInstance(tt, d).Some?
    ensures ItemType(tt, elem, item) == d
    ensures !Swaps(tt, NewInstance(tt, d).value, item)
  {
  }

  // ---------------------------------------------------------------------------
  // Dictionaries
  // ---------------------------------------------------------------------------

  /**
   * A dictionary is cleared and refilled with the saved entries as they are,
   * without recursing into values: it succeeds exactly when every saved value
   * can be stored as it is, so a nested list, dictionary or object value
   * throws and leaves the dictionary cleared.
   */
  lemma DictRestoreShallow(tt: Table, target: Val, entries: map<Prim, Node>)
    requires target.DictV?
    ensures var r := ApplyNested(tt, target, NDict(entries));
            && r.value.DictV? && r.value.t == target.t
            && (!r.threw <==> forall k :: k in entries ==> Store(tt, entries[k], DictValueType(tt, target.t)).Some?)
            && (!r.threw ==> r.value.entries.Keys == entries.Keys
                             && forall k :: k in entries ==>
                                  r.value.entries[k] == Store(tt, entries[k], DictValueType(tt, target.t)).value)
            && (r.threw ==> r.value.entries == map[])
            && ((exists k :: k in entries && (entries[k].NList? || entries[k].NDict? || entries[k].NMap?)) ==> r.threw)
  {
  }

  // ---------------------------------------------------------------------------
  // Plain objects
  // ---------------------------------------------------------------------------

  /** The nested field loop touches only visible fields present in the saved map. */
  lemma {:induction false} ApplyFieldsFrame(tt: Table, target: Val, saved: Node, fields: seq<FieldDecl>, k: string)
    requires target.Obj? && saved.NMap?
    requires forall f :: f in fields && NestedVisible(tt, f) && f.name in saved.fields ==> f.name != k
    ensures var r := ApplyFields(tt, target, saved, fields);
            && r.value.Obj? && r.value.t == target.t
            && (k in r.value.fields <==> k in target.fields)
            && (k in target.fields ==> r.value.fields[k] == target.fields[k])
    decreases |fields|
  {
    if fields != [] {
      var f := fields[0];
      if !NestedVisible(tt, f) || f.name !in saved.fields {
        ApplyFieldsFrame(tt, target, saved, fields[1..], k);
      } else {
        var node := saved.fields[f.name];
        if IsSimple(tt, f.declared) {
          match Store(tt, node, f.declared)
          case None =>
          case Some(x) => ApplyFieldsFrame(tt, target.(fields := target.fields[f.name := x]), saved, fields[1..], k);
        } else {
          var current := if f.name in target.fields then target.fields[f.name] else Null;
          var slot := if current.Null? then NewInstance(tt, f.declared) else Some(current);
          match slot
          case None =>
          case Some(c) =>
            var child := ApplyNested(tt, c, node);
            var next := target.(fields := target.fields[f.name := child.value]);
            if !child.threw {
              ApplyFieldsFrame(tt, next, saved, fields[1..], k);
            }
        }
      }
    }
  }

  /** In a unique-named field list, no later field shares the name of an earlier one. */
  lemma UniqueTail(fields: seq<FieldDecl>)
    requires UniqueNames(fields) && fields != []
    ensures UniqueNames(fields[1..])
    ensures forall h :: h in fields[1..] ==> h.name != fields[0].name
  {
    forall h | h in fields[1..] ensures h.name != fields[0].name {
      var j :| 0 <= j < |fields[1..]| && fields[1..][j] == h;
      assert fields[j + 1] == h;
    }
  }

  /**
   * Unlike the top level, a nested complex field that is null receives a
   * fresh instance of its declared type even when its saved value is null.
   */
  lemma {:induction false} NestedNullBecomesInstance(tt: Table, target: Val, saved: Node, fields: seq<FieldDecl>, f: FieldDecl)
    requires target.Obj? && saved.NMap? && UniqueNames(fields) && f in fields
    requires NestedVisible(tt, f) && !IsSimple(tt, f.declared)
    requires f.name in saved.fields && saved.fields[f.name] == NNull && Get(target.fields, f.name) == Null
    requires NewInstance(tt, f.declared).Some?
    ensures var r := ApplyFields(tt, target, saved, fields);
            !r.threw ==> r.value.Obj? && f.name in r.value.fields && r.value.fields[f.name] == NewInstance(tt, f.declared).value
    decreases |fields|
  {
    var g := fields[0];
    UniqueTail(fields);
    if g == f {
      var c := NewInstance(tt, f.declared).value;
      assert ApplyNested(tt, c, NNull) == Applied(c, false);
      var next := target.(fields := target.fields[f.name := c]);
      ApplyFieldsFrame(tt, next, saved, fields[1..], f.name);
    } else {
      assert f in fields[1..];
      if !NestedVisible(tt, g) || g.name !in saved.fields {
        NestedNullBecomesInstance(tt, target, saved, fields[1..], f);
      } else {
        var node := saved.fields[g.name];
        if IsSimple(tt, g.declared) {
          match Store(tt, node, g.declared)
          case None =>
          case Some(x) => NestedNullBecomesInstance(tt, target.(fields := target.fields[g.name := x]), saved, fields[1..], f);
        } else {
          var current := if g.name in target.fields then target.fields[g.name] else Null;
          var slot := if current.Null? then NewInstance(tt, g.declared) else Some(current);
          match slot
          case None =>
          case Some(c) =>
            var child := ApplyNested(tt, c, node);
            var next := target.(fields := target.fields[g.name := child.value]);
            if !child.threw {
              NestedNullBecomesInstance(tt, next, saved, fields[1..], f);
            }
        }
      }
    }
  }

  /**
   * A simple-typed field that the nested field loop visits and finds in the
   * saved map is stored from its saved value, unless an exception escaped.
   */
  lemma {:induction false} ApplyFieldsStoresSimple(tt: Table, target: Val, saved: Node, fields: seq<FieldDecl>, f: FieldDecl)
    requires target.Obj? && saved.NMap? && UniqueNames(fields) && f in fields
    requires NestedVisible(tt, f) && IsSimple(tt, f.declared) && f.name in saved.fields
    ensures var r := ApplyFields(tt, target, saved, fields);
            !r.threw ==>
              && Store(tt, saved.fields[f.name], f.declared).Some?
              && f.name in r.value.fields
              && r.value.fields[f.name] == Store(tt, saved.fields[f.name], f.declared).value
    decreases |fields|
  {
    var g := fields[0];
    UniqueTail(fields);
    if g == f {
      match Store(tt, saved.fields[f.name], f.declared)
      case None =>
      case Some(x) => ApplyFieldsFrame(tt, target.(fields := target.fields[f.name := x]), saved, fields[1..], f.name);
    } else {
      assert f in fields[1..];
      if !NestedVisible(tt, g) || g.name !in saved.fields {
        ApplyFieldsStoresSimple(tt, target, saved, fields[1..], f);
      } else {
        var node := saved.fields[g.name];
        if IsSimple(tt, g.declared) {
          match Store(tt, node, g.declared)
          case None =>
          case Some(x) => ApplyFieldsStoresSimple(tt, target.(fields := target.fields[g.name := x]), saved, fields[1..], f);
        } else {
          var current := if g.name in target.fields then target.fields[g.name] else Null;
          var slot := if current.Null? then NewInstance(tt, g.declared) else Some(current);
          match slot
          case None =>
          case Some(c) =>
            var child := ApplyNested(tt, c, node);
            if !child.threw {
              ApplyFieldsStoresSimple(tt, target.(fields := target.fields[g.name := child.value]), saved, fields[1..], f);
            }
        }
      }
    }
  }

  /** A nested-visible field's entry in an extracted object is the extraction of its value. */
  lemma {:induction false} ExtractFieldsValue(tt: Table, parent: Val, fields: seq<FieldDecl>,
                                              acc: map<string, Node>, f: FieldDecl)
    requires parent.Obj? && UniqueNames(fields) && f in fields && NestedVisible(tt, f)
    ensures ExtractFields(tt, parent, fields, acc)[f.name] == ExtractNested(tt, Get(parent.fields, f.name))
    decreases |fields|
  {
    var g := fields[0];
    var n := if g.name in parent.fields then ExtractNested(tt, parent.fields[g.name]) else NNull;
    var acc' := if NestedVisible(tt, g) then acc[g.name := n] else acc;
    UniqueTail(fields);
    if g == f {
      ExtractFieldsKeeps(tt, parent, fields[1..], acc', f.name);
    } else {
      ExtractFieldsValue(tt, parent, fields[1..], acc', f);
    }
  }

  /** One top-level field step depends only on that field's current value. */
  lemma ApplyTopFieldLocal(tt: Table, fs1: map<string, Val>, fs2: map<string, Val>, f: FieldDecl, data: map<string, Node>)
    requires (f.name in fs1 <==> f.name in fs2) && Get(fs1, f.name) == Get(fs2, f.name)
    ensures var r1, r2 := ApplyTopField(tt, fs1, f, data), ApplyTopField(tt, fs2, f, data);
            && r1.threw == r2.threw
            && (f.name in r1.fields <==> f.name in r2.fields)
            && (f.name in r1.fields ==> r1.fields[f.name] == r2.fields[f.name])
  {
    if TopVisible(tt, f) && f.name in data && !IsSimple(tt, f.declared) {
      var current := Get(fs1, f.name);
      if !(current.Null? && data[f.name].NNull?) {
        var slot := if current.Null? then NewInstance(tt, f.declared) else Some(current);
        if slot.Some? {
          var child := ApplyNested(tt, slot.value, data[f.name]);
          assert ApplyTopField(tt, fs1, f, data) == TopApplied(fs1[f.name := child.value], child.threw);
          assert ApplyTopField(tt, fs2, f, data) == TopApplied(fs2[f.name := child.value], child.threw);
        }
      }
    }
  }

  /**
   * Unless the top-level loop throws, a field's final value is what its own
   * step makes of the value it had before the loop.
   */
  lemma {:induction false} ApplyTopAt(tt: Table, fs: map<string, Val>, fields: seq<FieldDecl>, data: map<string, Node>, f: FieldDecl)
    requires UniqueNames(fields) && f in fields
    ensures var r, step := ApplyTop(tt, fs, fields, data), ApplyTopField(tt, fs, f, data);
            !r.threw ==>
              && !step.threw
              && (f.name in r.fields <==> f.name in step.fields)
              && (f.name in step.fields ==> r.fields[f.name] == step.fields[f.name])
    decreases |fields|
  {
    var g := fields[0];
    var first := ApplyTopField(tt, fs, g, data);
    UniqueTail(fields);
    if !first.threw {
      if g == f {
        ApplyTopFrame(tt, first.fields, fields[1..], data, f.name);
      } else {
        assert f in fields[1..];
        ApplyTopAt(tt, first.fields, fields[1..], data, f);
        ApplyTopFieldLocal(tt, first.fields, fs, f, data);
      }
    }
  }

  /**
   * Applying the extraction of a plain object to an object of the same type,
   * whose visible fields are all simple, takes no replacement path and,
   * unless an exception escaped, gives every visible field its saved value.
   */
  lemma ObjectRestoresSimpleFields(tt: Table, target: Val, v: Val)
    requires target.Obj? && v.Obj? && target.t == v.t
    requires TypeName(tt, v.t) in tt.byName ==> tt.byName[TypeName(tt, v.t)] == v.t
    requires UniqueNames(FieldsOf(tt, v.t))
    requires forall g :: g in FieldsOf(tt, v.t) && NestedVisible(tt, g) ==> g.name != TypeTag && IsSimple(tt, g.declared)
    ensures var r := ApplyNested(tt, target, ExtractNested(tt, v));
            && r.value.Obj? && r.value.t == v.t
            && (!r.threw ==>
                  forall g :: g in FieldsOf(tt, v.t) && NestedVisible(tt, g) ==>
                    g.name in r.value.fields && r.value.fields[g.name] == Get(v.fields, g.name))
  {
    var fields := FieldsOf(tt, v.t);
    var saved := ExtractNested(tt, v);
    var tag := map[TypeTag := NLeaf(tt.stringType, PStr(TypeName(tt, v.t)))];
    assert saved == NMap(ExtractFields(tt, v, fields, tag));
    ExtractFieldsKeeps(tt, v, fields, tag, TypeTag);
    assert !Swaps(tt, target, saved);
    var r := ApplyFields(tt, target, saved, fields);
    assert ApplyNested(tt, target, saved) == r;
    forall g | g in fields && NestedVisible(tt, g)
      ensures !r.threw ==> g.name in r.value.fields && r.value.fields[g.name] == Get(v.fields, g.name)
    {
      ExtractFieldsValue(tt, v, fields, tag, g);
      ApplyFieldsStoresSimple(tt, target, saved, fields, g);
      if !r.threw {
        StoreExtracted(tt, Get(v.fields, g.name), g.declared);
      }
    }
  }

  /**
   * The round trip of a [Save] field that holds a plain object of exactly its
   * declared type, a concrete class with a parameterless constructor whose
   * visible fields are all simple: unless an exception escaped, applying the
   * extraction leaves an object of that type in the field, whether the target
   * held one already or null, with every visible nested field holding the
   * source's value. The saved "$type" names the declared type, so no
   * replacement is made.
   */
  lemma SaveThenApplyRestoresObjectField(tt: Table, t: TypeId, target: map<string, Val>, source: map<string, Val>, f: FieldDecl)
    requires UniqueNames(FieldsOf(tt, t)) && f in FieldsOf(tt, t) && f.save && !IsDelegate(tt, f.declared)
    requires f.declared in tt.classes && tt.classes[f.declared].kind == ObjectKind(true) && !tt.classes[f.declared].isAbstract
    requires TypeName(tt, f.declared) in tt.byName ==> tt.byName[TypeName(tt, f.declared)] == f.declared
    requires UniqueNames(FieldsOf(tt, f.declared))
    requires forall g :: g in FieldsOf(tt, f.declared) && NestedVisible(tt, g) ==> g.name != TypeTag && IsSimple(tt, g.declared)
    requires Get(source, f.name).Obj? && Get(source, f.name).t == f.declared
    requires Get(target, f.name).Null? || (Get(target, f.name).Obj? && Get(target, f.name).t == f.declared)
    ensures var r := ApplyTop(tt, target, FieldsOf(tt, t), ExtractSaveData(tt, t, source));
            !r.threw ==>
              && f.name in r.fields && r.fields[f.name].Obj? && r.fields[f.name].t == f.declared
              && forall g :: g in FieldsOf(tt, f.declared) && NestedVisible(tt, g) ==>
                   g.name in r.fields[f.name].fields
                   && r.fields[f.name].fields[g.name] == Get(Get(source, f.name).fields, g.name)
  {
    var v := Get(source, f.name);
    var data := ExtractSaveData(tt, t, source);
    ExtractSaveDataSelects(tt, t, source);
    assert data[f.name] == ExtractNested(tt, v);
    var c := if Get(target, f.name).Null? then NewInstance(tt, f.declared).value else Get(target, f.name);
    assert c.Obj?;
    ObjectRestoresSimpleFields(tt, c, v);
    var child := ApplyNested(tt, c, ExtractNested(tt, v));
    assert ApplyTopField(tt, target, f, data) == TopApplied(target[f.name := child.value], child.threw);
    ApplyTopAt(tt, target, FieldsOf(tt, t), data, f);
  }

  // ---------------------------------------------------------------------------
  // Polymorphic replacement
  // ---------------------------------------------------------------------------

  lemma {:induction false} CopyFieldsAll(tt: Table, source: Val, target: Val, fields: seq<FieldDecl>, k: string)
    requires target.Obj?
    requires forall f :: f in fields ==> Assignable(tt, target.t, f.owner)
    ensures var r := CopyFields(tt, source, target, fields);
            && !r.threw && r.value.Obj? && r.value.t == target.t
            && ((exists f :: f in fields && f.name == k) ==> k in r.value.fields && r.value.fields[k] == FieldValue(source, k))
            && ((!exists f :: f in fields && f.name == k) ==>
                  (k in r.value.fields <==> k in target.fields) && (k in target.fields ==> r.value.fields[k] == target.fields[k]))
    decreases |fields|
  {
    if fields != [] {
      var f := fields[0];
      var next := target.(fields := target.fields[f.name := FieldValue(source, f.name)]);
      CopyFieldsAll(tt, source, next, fields[1..], k);
      assert forall g :: g in fields <==> g == f || g in fields[1..];
    }
  }

  /** Field map of the filled replacement in a polymorphic restore. */
  function Replacement(tt: Table, saved: Node): Option<Val>
  {
    var d := TaggedType(tt, saved);
    if d.None? then None
    else match NewInstance(tt, d.value)
      case None => None
      case Some(rep) => Some(ApplyNested(tt, rep, saved).value)
  }

  /**
   * When "$type" names another concrete type, a replacement of that type is
   * filled and then every one of its fields is copied onto the target; the
   * target keeps its own runtime type.
   */
  lemma SwapCopiesEveryField(tt: Table, target: Val, saved: Node)
    requires target.Obj? && Swaps(tt, target, saved)
    requires NewInstance(tt, TaggedType(tt, saved).value).Some?
    requires !ApplyNested(tt, NewInstance(tt, TaggedType(tt, saved).value).value, saved).threw
    requires forall f :: f in FieldsOf(tt, TaggedType(tt, saved).value) ==> Assignable(tt, target.t, f.owner)
    ensures var r := ApplyNested(tt, target, saved);
            && !r.threw && r.value.Obj? && r.value.t == target.t
            && Replacement(tt, saved).Some?
            && forall f :: f in FieldsOf(tt, TaggedType(tt, saved).value) ==>
                 f.name in r.value.fields && r.value.fields[f.name] == FieldValue(Replacement(tt, saved).value, f.name)
  {
    var d := TaggedType(tt, saved).value;
    var filled := ApplyNested(tt, NewInstance(tt, d).value, saved);
    forall f | f in FieldsOf(tt, d)
      ensures var r := CopyFields(tt, filled.value, target, FieldsOf(tt, d));
              r.value.Obj? && f.name in r.value.fields && r.value.fields[f.name] == FieldValue(filled.value, f.name) {
      CopyFieldsAll(tt, filled.value, target, FieldsOf(tt, d), f.name);
    }
    CopyFieldsAll(tt, filled.value, target, FieldsOf(tt, d), "");
  }

  /**
   * The replacement cannot stand in for the target: when "$type" names a type
   * with a field the target's type does not declare or inherit (a subclass
   * with fields of its own, say), copying that field throws and the target
   * keeps its own runtime type.
   */
  lemma SwapToWiderTypeThrows(tt: Table, target: Val, saved: Node, g: FieldDecl)
    requires target.Obj? && Swaps(tt, target, saved)
    requires NewInstance(tt, TaggedType(tt, saved).value).Some?
    requires !ApplyNested(tt, NewInstance(tt, TaggedType(tt, saved).value).value, saved).threw
    requires g in FieldsOf(tt, TaggedType(tt, saved).value) && !Assignable(tt, target.t, g.owner)
    ensures var r := ApplyNested(tt, target, saved);
            r.threw && RuntimeType(r.value) == Some(target.t)
  {
  }

  lemma {:induction false} InitialFieldsValue(fields: seq<FieldDecl>, f: FieldDecl)
    requires UniqueNames(fields) && f in fields
    ensures InitialFields(fields)[f.name] == f.init
    decreases |fields|
  {
    var last := fields[|fields| - 1];
    if last != f {
      var pre := fields[..|fields| - 1];
      assert f in pre;
      var i :| 0 <= i < |pre| && pre[i] == f;
      assert fields[i] == f;
      assert f.name != last.name;
      InitialFieldsValue(pre, f);
    }
  }

  /**
   * The polymorphic copy overwrites [DontSave] fields too: after the swap a
   * [DontSave] field of the tagged type holds that field's initial value,
   * whatever the target held there before.
   */
  lemma SwapResetsDontSave(tt: Table, target: Val, saved: Node, f: FieldDecl)
    requires target.Obj? && Swaps(tt, target, saved)
    requires tt.classes[TaggedType(tt, saved).value].kind == ObjectKind(true)
    requires UniqueNames(FieldsOf(tt, TaggedType(tt, saved).value))
    requires f in FieldsOf(tt, TaggedType(tt, saved).value) && f.dontSave
    requires !ApplyNested(tt, NewInstance(tt, TaggedType(tt, saved).value).value, saved).threw
    requires forall g :: g in FieldsOf(tt, TaggedType(tt, saved).value) ==> Assignable(tt, target.t, g.owner)
    ensures var r := ApplyNested(tt, target, saved);
            !r.threw && r.value.Obj? && r.value.t == target.t && f.name in r.value.fields && r.value.fields[f.name] == f.init
  {
    var d := TaggedType(tt, saved).value;
    var fields := FieldsOf(tt, d);
    var rep := NewInstance(tt, d).value;
    assert rep == Obj(d, InitialFields(fields));
    InitialFieldsValue(fields, f);
    assert !Swaps(tt, rep, saved);
    forall g | g in fields && NestedVisible(tt, g) && g.name in saved.fields ensures g.name != f.name {
      var i :| 0 <= i < |fields| && fields[i] == g;
      var j :| 0 <= j < |fields| && fields[j] == f;
      assert i != j;
    }
    ApplyFieldsFrame(tt, rep, saved, fields, f.name);
    SwapCopiesEveryField(tt, target, saved);
  }
}

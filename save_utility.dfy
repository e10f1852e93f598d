/**
 * The reflective save/restore engine (SaveUtility.cs).
 *
 * Reflection is replaced by an explicit class table: every type has a kind
 * (the four "simple" cases, delegate, list, dictionary or plain object), an
 * abstract bit, its proper ancestors and the instance fields GetFields returns,
 * each with its declaring type, declared type, [Save]/[DontSave] flags and the
 * value a parameterless constructor leaves in it. Objects are values: a plain
 * object is a map from field name to value, and engine objects, primitives,
 * enums and strings are leaves that are never walked.
 *
 * Extraction builds a tagged tree (`Node`): lists become lists, dictionaries
 * become dictionaries with the same keys, and plain objects become string-keyed
 * maps that carry "$type". Application writes such a tree back. An exception
 * raised on the way (Activator.CreateInstance on an abstract or
 * constructor-less type, FieldInfo.SetValue or IList.Add with a value of the
 * wrong type) is modelled by `threw`, together with the partly updated value,
 * because the source mutates its target in place before the exception escapes.
 */
module SaveUtility {
  import opened Wrappers

  type TypeId = nat
  type ObjId = nat

  /** The four disjuncts of IsSimple: primitive, enum, string, engine object. */
  datatype SimpleTag = Primitive | Enum | Str | EngineObject

  datatype Kind =
    | SimpleKind(tag: SimpleTag)
    | DelegateKind
    | ListKind(elem: TypeId)
    | DictKind(key: TypeId, value: TypeId)
    | ObjectKind(hasDefaultCtor: bool)

  /** Payload of a value that is stored as-is: a primitive, an enum, a string or an engine-object handle. */
  datatype Prim = PBool(b: bool) | PInt(i: int) | PStr(s: string) | PHandle(id: ObjId)

  /** A runtime value; `t` is its runtime type (value.GetType()). */
  datatype Val =
    | Null
    | Leaf(t: TypeId, p: Prim)
    | ListV(t: TypeId, items: seq<Val>)
    | DictV(t: TypeId, entries: map<Prim, Val>)
    | Obj(t: TypeId, fields: map<string, Val>)

  /** One FieldInfo: its name, declaring type, declared type, attributes and initial value. */
  datatype FieldDecl = FieldDecl(name: string, owner: TypeId, declared: TypeId,
                                 save: bool, dontSave: bool, init: Val)

  datatype ClassInfo = ClassInfo(name: string, kind: Kind, isAbstract: bool,
                                 bases: seq<TypeId>, fields: seq<FieldDecl>)

  /**
   * The types of the program. `byName` plays Type.GetType on assembly-qualified
   * names; `stringType` is System.String, `objectType` System.Object, the
   * element type of a list whose generic argument is unknown, and
   * `engineObjectType` UnityEngine.Object.
   */
  datatype Table = Table(classes: map<TypeId, ClassInfo>, byName: map<string, TypeId>,
                         stringType: TypeId, objectType: TypeId, engineObjectType: TypeId)

  /**
   * The extracted tree. `NMap` is a Dictionary<string, object> (a plain object,
   * or the top level of a snapshot), `NDict` a Dictionary<object, object> and
   * `NList` a List<object>; leaves are stored values.
   */
  datatype Node =
    | NNull
    | NLeaf(t: TypeId, p: Prim)
    | NList(items: seq<Node>)
    | NDict(entries: map<Prim, Node>)
    | NMap(fields: map<string, Node>)

  /** Result of writing a tree into a value: the new value, and whether an exception escaped. */
  datatype Applied = Applied(value: Val, threw: bool)

  const TypeTag: string := "$type"

  // ---------------------------------------------------------------------------
  // Class table queries
  // ---------------------------------------------------------------------------

  function RuntimeType(v: Val): Option<TypeId>
  {
    match v
    case Null => None
    case Leaf(t, _) => Some(t)
    case ListV(t, _) => Some(t)
    case DictV(t, _) => Some(t)
    case Obj(t, _) => Some(t)
  }

  /**
   * The simple tags agree with the types they stand for: a class is tagged
   * Str exactly when it is System.String, and EngineObject exactly when
   * UnityEngine.Object is assignable from it (it is UnityEngine.Object or
   * has it among its ancestors).
   */
  ghost predicate TableTagged(tt: Table)
  {
    forall t :: t in tt.classes ==>
      && (tt.classes[t].kind == SimpleKind(Str) <==> t == tt.stringType)
      && (tt.classes[t].kind == SimpleKind(EngineObject) <==> Assignable(tt, t, tt.engineObjectType))
  }

  /** IsSimple: primitives, enums, string and UnityEngine.Object subtypes. */
  predicate IsSimple(tt: Table, t: TypeId): (b: bool)
    ensures b <==> t in tt.classes && (var k := tt.classes[t].kind;
                     k.SimpleKind? && (k.tag.Primitive? || k.tag.Enum? || k.tag.Str? || k.tag.EngineObject?))
    ensures TableTagged(tt) ==>
              (b <==> t in tt.classes && (tt.classes[t].kind == SimpleKind(Primitive) || tt.classes[t].kind == SimpleKind(Enum)
                                          || t == tt.stringType || Assignable(tt, t, tt.engineObjectType)))
    ensures b ==> !IsDelegate(tt, t)
  {
    t in tt.classes && tt.classes[t].kind.SimpleKind?
  }

  /** typeof(Delegate).IsAssignableFrom(t). */
  predicate IsDelegate(tt: Table, t: TypeId)
  {
    t in tt.classes && tt.classes[t].kind.DelegateKind?
  }

  /** `to`.IsAssignableFrom(`from`). */
  predicate Assignable(tt: Table, from: TypeId, to: TypeId)
  {
    from == to || (from in tt.classes && to in tt.classes[from].bases)
  }

  function FieldsOf(tt: Table, t: TypeId): seq<FieldDecl>
  {
    if t in tt.classes then tt.classes[t].fields else []
  }

  function TypeName(tt: Table, t: TypeId): string
  {
    if t in tt.classes then tt.classes[t].name else ""
  }

  /** Type.GetType(name): None plays the null of an unknown name. */
  function Resolve(tt: Table, name: string): (r: Option<TypeId>)
    ensures r.Some? ==> name in tt.byName && r.value == tt.byName[name]
    ensures r.None? ==> name !in tt.byName || tt.byName[name] !in tt.classes
  {
    if name in tt.byName && tt.byName[name] in tt.classes then Some(tt.byName[name]) else None
  }

  /** Generic argument of a list type, or System.Object when unknown. */
  function ElementType(tt: Table, t: TypeId): TypeId
  {
    if t in tt.classes && tt.classes[t].kind.ListKind? then tt.classes[t].kind.elem else tt.objectType
  }

  function DictValueType(tt: Table, t: TypeId): TypeId
  {
    if t in tt.classes && tt.classes[t].kind.DictKind? then tt.classes[t].kind.value else tt.objectType
  }

  /** The field map a parameterless constructor leaves: every field at its initial value. */
  function InitialFields(fields: seq<FieldDecl>): (m: map<string, Val>)
    ensures forall f :: f in fields ==> f.name in m
    ensures forall k :: k in m ==> exists f :: f in fields && f.name == k
  {
    if fields == [] then map[]
    else InitialFields(fields[..|fields| - 1])[fields[|fields| - 1].name := fields[|fields| - 1].init]
  }

  /**
   * Activator.CreateInstance(t): an empty list or dictionary, or an object with
   * its initial field values; None is the exception thrown for an abstract type,
   * a type with no parameterless constructor, or a simple or delegate type.
   */
  function NewInstance(tt: Table, t: TypeId): (r: Option<Val>)
    ensures r.Some? ==> RuntimeType(r.value) == Some(t)
    ensures r.Some? ==> t in tt.classes && !tt.classes[t].isAbstract
  {
    if t !in tt.classes || tt.classes[t].isAbstract then None
    else match tt.classes[t].kind
      case ListKind(_) => Some(ListV(t, []))
      case DictKind(_, _) => Some(DictV(t, map[]))
      case ObjectKind(ctor) => if ctor then Some(Obj(t, InitialFields(tt.classes[t].fields))) else None
      case _ => None
  }

  /**
   * Storing a saved node where a value of type `to` is expected
   * (FieldInfo.SetValue, IList.Add or the dictionary indexer): null and a leaf
   * of an assignable type are stored as they are; anything else throws.
   */
  function Store(tt: Table, node: Node, to: TypeId): (r: Option<Val>)
    ensures node.NNull? ==> r == Some(Null)
    ensures node.NLeaf? && Assignable(tt, node.t, to) ==> r == Some(Leaf(node.t, node.p))
    ensures (node.NList? || node.NDict? || node.NMap?) ==> r.None?
  {
    match node
    case NNull => Some(Null)
    case NLeaf(t, p) => if Assignable(tt, t, to) then Some(Leaf(t, p)) else None
    case _ => None
  }

  // ---------------------------------------------------------------------------
  // Extraction
  // ---------------------------------------------------------------------------

  /** A field that nested extraction and nested application visit. */
  predicate NestedVisible(tt: Table, f: FieldDecl)
  {
    !f.dontSave && !IsDelegate(tt, f.declared)
  }

  /** A field that top-level extraction and application visit. */
  predicate TopVisible(tt: Table, f: FieldDecl)
  {
    f.save && !IsDelegate(tt, f.declared)
  }

  /** ExtractNestedValue. */
  function ExtractNested(tt: Table, v: Val): (n: Node)
    ensures v.Null? <==> n.NNull?
    ensures v.Leaf? ==> n == NLeaf(v.t, v.p)
    ensures v.ListV? ==> n.NList? && |n.items| == |v.items|
    ensures v.DictV? ==> n.NDict? && n.entries.Keys == v.entries.Keys
    ensures v.Obj? ==> n.NMap? && TypeTag in n.fields
    decreases v, 1
  {
    match v
    case Null => NNull
    case Leaf(t, p) => NLeaf(t, p)
    case ListV(_, items) => NList(seq(|items|, i requires 0 <= i < |items| => ExtractNested(tt, items[i])))
    case DictV(_, entries) => NDict(map k | k in entries :: ExtractNested(tt, entries[k]))
    case Obj(t, fs) =>
      NMap(ExtractFields(tt, v, FieldsOf(tt, t), map[TypeTag := NLeaf(tt.stringType, PStr(TypeName(tt, t)))]))
  }

  /** The field loop of ExtractNestedValue: adds every nested-visible field of `parent` to `acc`. */
  function ExtractFields(tt: Table, parent: Val, fields: seq<FieldDecl>, acc: map<string, Node>): (r: map<string, Node>)
    requires parent.Obj?
    ensures acc.Keys <= r.Keys
    ensures forall f :: f in fields && NestedVisible(tt, f) ==> f.name in r
    decreases parent, 0, |fields|
  {
    if fields == [] then acc
    else
      var f := fields[0];
      if !NestedVisible(tt, f) then ExtractFields(tt, parent, fields[1..], acc)
      else
        var n := if f.name in parent.fields then ExtractNested(tt, parent.fields[f.name]) else NNull;
        ExtractFields(tt, parent, fields[1..], acc[f.name := n])
  }

  /** The field loop of ExtractSaveData over the fields `fields` of an object whose values are `fs`. */
  function ExtractTop(tt: Table, fields: seq<FieldDecl>, fs: map<string, Val>, acc: map<string, Node>): (r: map<string, Node>)
    ensures acc.Keys <= r.Keys
    ensures forall f :: f in fields && TopVisible(tt, f) ==> f.name in r
  {
    if fields == [] then acc
    else
      var f := fields[0];
      if !TopVisible(tt, f) then ExtractTop(tt, fields[1..], fs, acc)
      else
        var v := if f.name in fs then fs[f.name] else Null;
        ExtractTop(tt, fields[1..], fs, acc[f.name := ExtractNested(tt, v)])
  }

  /** ExtractSaveData(source) for a source of runtime type `t` whose fields hold `fs`. */
  function ExtractSaveData(tt: Table, t: TypeId, fs: map<string, Val>): (r: map<string, Node>)
    ensures forall f :: f in FieldsOf(tt, t) && f.save && !IsDelegate(tt, f.declared) ==> f.name in r
  {
    ExtractTop(tt, FieldsOf(tt, t), fs, map[])
  }

  // ---------------------------------------------------------------------------
  // Application
  // ---------------------------------------------------------------------------

  /** The type named by a "$type" entry, when Type.GetType resolves it. */
  function TaggedType(tt: Table, saved: Node): Option<TypeId>
  {
    if saved.NMap? && TypeTag in saved.fields && saved.fields[TypeTag].NLeaf?
       && saved.fields[TypeTag].p.PStr?
    then Resolve(tt, saved.fields[TypeTag].p.s)
    else None
  }

  /** The polymorphic replacement condition of ApplyNestedValue. */
  predicate Swaps(tt: Table, target: Val, saved: Node)
  {
    var d := TaggedType(tt, saved);
    d.Some? && Some(d.value) != RuntimeType(target) && !tt.classes[d.value].isAbstract
  }

  /** ApplyNestedValue(target, saved). */
  function ApplyNested(tt: Table, target: Val, saved: Node): (r: Applied)
    ensures target.Null? || saved.NNull? ==> r == Applied(target, false)
    ensures RuntimeType(r.value) == RuntimeType(target)
    decreases saved, if Swaps(tt, target, saved) then 2 else 1, 0
  {
    if target.Null? || saved.NNull? then Applied(target, false)
    else if target.ListV? && saved.NList? then
      ApplyItems(tt, target.t, ElementType(tt, target.t), saved, 0, [])
    else if target.DictV? && (saved.NDict? || saved.NMap?) then
      ApplyDict(tt, target, saved)
    else if saved.NMap? then
      if Swaps(tt, target, saved) then
        var d := TaggedType(tt, saved).value;
        match NewInstance(tt, d)
        case None => Applied(target, true)
        case Some(replacement) =>
          var filled := ApplyNested(tt, replacement, saved);
          if filled.threw then Applied(target, true)
          else CopyFields(tt, filled.value, target, FieldsOf(tt, d))
      else if target.Obj? then ApplyFields(tt, target, saved, FieldsOf(tt, target.t))
      else Applied(target, false)
    else Applied(target, false)
  }

  /** The element type an NMap list item is instantiated as: its resolved, non-abstract "$type", else `elem`. */
  function ItemType(tt: Table, elem: TypeId, item: Node): TypeId
  {
    var d := TaggedType(tt, item);
    if d.Some? && !tt.classes[d.value].isAbstract then d.value else elem
  }

  /**
   * The list branch of ApplyNestedValue from item `i` on, with `acc` the
   * elements added so far to the cleared list.
   */
  function ApplyItems(tt: Table, lt: TypeId, elem: TypeId, saved: Node, i: nat, acc: seq<Val>): (r: Applied)
    requires saved.NList? && i <= |saved.items|
    ensures r.value.ListV? && r.value.t == lt
    ensures acc <= r.value.items && |r.value.items| <= |acc| + |saved.items| - i
    decreases saved, 0, |saved.items| - i
  {
    if i == |saved.items| then Applied(ListV(lt, acc), false)
    else
      var item := saved.items[i];
      if IsSimple(tt, elem) then
        match Store(tt, item, elem)
        case None => Applied(ListV(lt, acc), true)
        case Some(x) => ApplyItems(tt, lt, elem, saved, i + 1, acc + [x])
      else if item.NMap? then
        match RestoreItem(tt, elem, item)
        case None => Applied(ListV(lt, acc), true)
        case Some(x) => ApplyItems(tt, lt, elem, saved, i + 1, acc + [x])
      else ApplyItems(tt, lt, elem, saved, i + 1, acc)
  }

  /**
   * The element a saved map becomes in a list of complex elements: a new
   * instance of its item type filled from the map, or None when creating,
   * filling or adding it throws.
   */
  function RestoreItem(tt: Table, elem: TypeId, item: Node): (r: Option<Val>)
    ensures r.Some? ==> RuntimeType(r.value) == Some(ItemType(tt, elem, item))
    ensures r.Some? ==> Assignable(tt, ItemType(tt, elem, item), elem)
    decreases item, 3
  {
    var actual := ItemType(tt, elem, item);
    match NewInstance(tt, actual)
    case None => None
    case Some(instance) =>
      var filled := ApplyNested(tt, instance, item);
      if filled.threw || !Assignable(tt, actual, elem) then None else Some(filled.value)
  }

  /** The saved entries of a dictionary branch, with string keys for a Dictionary<string, object>. */
  function SavedEntries(saved: Node): map<Prim, Node>
    requires saved.NDict? || saved.NMap?
  {
    if saved.NDict? then saved.entries else map k | k in saved.fields :: PStr(k) := saved.fields[k]
  }

  /**
   * The shallow dictionary branch: the target is cleared and every saved entry
   * is stored as it is. When one cannot be stored, the model leaves the cleared
   * dictionary and reports the exception.
   */
  function ApplyDict(tt: Table, target: Val, saved: Node): (r: Applied)
    requires target.DictV? && (saved.NDict? || saved.NMap?)
    ensures r.value.DictV? && r.value.t == target.t
    ensures !r.threw <==> forall k :: k in SavedEntries(saved) ==> Store(tt, SavedEntries(saved)[k], DictValueType(tt, target.t)).Some?
    ensures !r.threw ==> r.value.entries.Keys == SavedEntries(saved).Keys
  {
    var vt := DictValueType(tt, target.t);
    var entries := SavedEntries(saved);
    if forall k :: k in entries ==> Store(tt, entries[k], vt).Some? then
      Applied(DictV(target.t, map k | k in entries :: Store(tt, entries[k], vt).value), false)
    else Applied(DictV(target.t, map[]), true)
  }

  /** The field loop of ApplyNestedValue over `fields`, writing into the object `target`. */
  function ApplyFields(tt: Table, target: Val, saved: Node, fields: seq<FieldDecl>): (r: Applied)
    requires target.Obj? && saved.NMap?
    ensures r.value.Obj? && r.value.t == target.t
    decreases saved, 0, |fields|
  {
    if fields == [] then Applied(target, false)
    else
      var f := fields[0];
      if !NestedVisible(tt, f) || f.name !in saved.fields then ApplyFields(tt, target, saved, fields[1..])
      else
        var node := saved.fields[f.name];
        if IsSimple(tt, f.declared) then
          match Store(tt, node, f.declared)
          case None => Applied(target, true)
          case Some(x) => ApplyFields(tt, target.(fields := target.fields[f.name := x]), saved, fields[1..])
        else
          var current := if f.name in target.fields then target.fields[f.name] else Null;
          var slot := if current.Null? then NewInstance(tt, f.declared) else Some(current);
          match slot
          case None => Applied(target, true)
          case Some(c) =>
            var child := ApplyNested(tt, c, node);
            var next := target.(fields := target.fields[f.name := child.value]);
            if child.threw then Applied(next, true) else ApplyFields(tt, next, saved, fields[1..])
  }

  function FieldValue(v: Val, name: string): Val
  {
    if v.Obj? && name in v.fields then v.fields[name] else Null
  }

  /**
   * CopyFields(source, target) over `fields`, the fields of the source's type:
   * SetValue throws as soon as the target is not an instance of the field's
   * declaring type.
   */
  function CopyFields(tt: Table, source: Val, target: Val, fields: seq<FieldDecl>): (r: Applied)
    ensures RuntimeType(r.value) == RuntimeType(target)
    ensures !r.threw <==> fields == [] || (target.Obj? && forall f :: f in fields ==> Assignable(tt, target.t, f.owner))
    decreases |fields|
  {
    if fields == [] then Applied(target, false)
    else
      var f := fields[0];
      if target.Obj? && Assignable(tt, target.t, f.owner) then
        CopyFields(tt, source, target.(fields := target.fields[f.name := FieldValue(source, f.name)]), fields[1..])
      else Applied(target, true)
  }

  /** Field map after the top-level field loop of ApplySaveData, and whether it threw. */
  datatype TopApplied = TopApplied(fields: map<string, Val>, threw: bool)

  /** One iteration of the field loop of ApplySaveData. */
  function ApplyTopField(tt: Table, fs: map<string, Val>, f: FieldDecl, data: map<string, Node>): (r: TopApplied)
    ensures !TopVisible(tt, f) || f.name !in data ==> r == TopApplied(fs, false)
    ensures forall k :: k != f.name ==> (k in r.fields <==> k in fs) && (k in fs ==> r.fields[k] == fs[k])
  {
    if !TopVisible(tt, f) || f.name !in data then TopApplied(fs, false)
    else
      var node := data[f.name];
      if IsSimple(tt, f.declared) then
        match Store(tt, node, f.declared)
        case None => TopApplied(fs, true)
        case Some(x) => TopApplied(fs[f.name := x], false)
      else
        var current := if f.name in fs then fs[f.name] else Null;
        if current.Null? && node.NNull? then TopApplied(fs, false)
        else
          var slot := if current.Null? then NewInstance(tt, f.declared) else Some(current);
          match slot
          case None => TopApplied(fs, true)
          case Some(c) =>
            var child := ApplyNested(tt, c, node);
            TopApplied(fs[f.name := child.value], child.threw)
  }

  /** The field loop of ApplySaveData over `fields`; it stops at the first exception. */
  function ApplyTop(tt: Table, fs: map<string, Val>, fields: seq<FieldDecl>, data: map<string, Node>): (r: TopApplied)
    ensures fs.Keys <= r.fields.Keys
    ensures (forall f :: f in fields ==> !TopVisible(tt, f) || f.name !in data) ==> r == TopApplied(fs, false)
    decreases |fields|
  {
    if fields == [] then TopApplied(fs, false)
    else
      var step := ApplyTopField(tt, fs, fields[0], data);
      if step.threw then step else ApplyTop(tt, step.fields, fields[1..], data)
  }

  /** An object whose fields the save system reads and writes in place. */
  class Instance {
    const typ: TypeId
    var fields: map<string, Val>

    constructor (typ: TypeId, fields: map<string, Val>)
      ensures this.typ == typ && this.fields == fields
    {
      this.typ := typ;
      this.fields := fields;
    }
  }

  /**
   * ApplySaveData(target, saved): nothing happens when either is null;
   * otherwise the [Save] fields of the target's type are written one by one.
   */
  method ApplySaveData(tt: Table, target: Instance?, saved: Option<map<string, Node>>) returns (threw: bool)
    modifies target
    ensures target == null || saved.None? ==> !threw
    ensures target != null && saved.None? ==> target.fields == old(target.fields)
    ensures target != null && saved.Some? ==>
      TopApplied(target.fields, threw) == ApplyTop(tt, old(target.fields), FieldsOf(tt, target.typ), saved.value)
  {
    threw := false;
    if target == null || saved.None? { return; }
    var data := saved.value;
    var fields := FieldsOf(tt, target.typ);
    var i := 0;
    while i < |fields|
      invariant 0 <= i <= |fields|
      invariant ApplyTop(tt, old(target.fields), fields, data) == ApplyTop(tt, target.fields, fields[i..], data)
    {
      var step := ApplyTopField(tt, target.fields, fields[i], data);
      target.fields := step.fields;
      if step.threw {
        threw := true;
        return;
      }
      i := i + 1;
    }
  }
}

/**
 * The GUID reference wrappers: ScriptableObjectReference.cs, ObjectReference.cs,
 * MonoReference.cs and CollisionData.cs.
 *
 * A scene GameObject is its id, name and components; a component that is an
 * IGuidAsset carries its GUID. The two registries are passed in as their
 * bucket lists. C# nulls are `None`; a string field that may be null is an
 * `Option<string>`. Hash codes are modelled as the value they are computed
 * from, so two hashes are equal exactly when those inputs are.
 */
module GuidReferences {
  import opened Wrappers
  import opened GuidRegistry
  import opened ObjectFinding

  datatype GameObject = GameObject(id: ObjId, name: string, components: seq<Found>)

  /** string.GetHashCode of a possibly null GUID: 0 for null, otherwise a function of the string. */
  datatype Hash = Zero | HashOf(s: string)

  function GuidHash(guid: Option<string>): (h: Hash)
    ensures guid.None? <==> h.Zero?
  {
    match guid
    case None => Zero
    case Some(s) => HashOf(s)
  }

  /** string.IsNullOrEmpty. */
  predicate NullOrEmpty(s: Option<string>)
  {
    s.None? || s.value == ""
  }

  /** TryGetComponent<IGuidAsset>: the first component that is an IGuidAsset. */
  function GuidComponent(go: GameObject): (r: Option<Found>)
    ensures r.Some? ==> r.value in go.components && r.value.guidAsset
    ensures r.None? <==> forall c :: c in go.components ==> !c.guidAsset
  {
    FirstWhere(go.components, (c: Found) => c.guidAsset)
  }

  /** GetComponent<T>: the first component whose type is assignable to T. */
  function ComponentOf(go: GameObject, types: Types, t: TypeId): (r: Option<Found>)
    ensures r.Some? ==> r.value in go.components && types.Assignable(t, r.value.typ)
    ensures r.None? <==> forall c :: c in go.components ==> !types.Assignable(t, c.typ)
  {
    FirstWhere(go.components, (c: Found) => types.Assignable(t, c.typ))
  }

  function FirstWhere(cs: seq<Found>, p: Found -> bool): (r: Option<Found>)
    ensures r.Some? ==> r.value in cs && p(r.value)
    ensures r.None? <==> forall c :: c in cs ==> !p(c)
  {
    if cs == [] then None else if p(cs[0]) then Some(cs[0]) else FirstWhere(cs[1..], p)
  }

  // ---------------------------------------------------------------------
  // ScriptableObjectReference<T>
  // ---------------------------------------------------------------------

  class ScriptableObjectReference {
    var dropIn: Option<Found>
    var guid: Option<string>
    var typeName: string

    /** The parameterless constructor: an empty GUID and the name of T. */
    constructor Default(tName: string)
      ensures dropIn.None? && guid == Some("") && typeName == tName
    {
      dropIn := None;
      guid := Some("");
      typeName := tName;
    }

    /** The constructor from a value: its GUID and the name of its runtime type. */
    constructor FromValue(value: Found, valueGuid: Option<string>, runtimeTypeName: string)
      ensures dropIn.None? && guid == valueGuid && typeName == runtimeTypeName
    {
      dropIn := None;
      guid := valueGuid;
      typeName := runtimeTypeName;
    }

    /**
     * UpdateGUID: nothing without a drop-in; otherwise the drop-in's GUID is
     * copied. Reading that GUID cannot fail, so the clearing catch branch is
     * never taken.
     */
    method UpdateGUID()
      modifies this`guid
      ensures old(dropIn).None? ==> guid == old(guid)
      ensures old(dropIn).Some? ==> guid == Some(old(dropIn).value.guid)
    {
      if dropIn.None? { return; }
      guid := Some(dropIn.value.guid);
    }

    /**
     * Value: resolved through GetAssetByGuid<T> on every access. A null GUID
     * makes the first TryGetValue throw, which happens as soon as some bucket
     * is assignable to T.
     */
    function Value(registry: seq<Bucket>, types: Types, t: TypeId): (r: Outcome<Option<Found>>)
      reads this
      ensures guid.Some? ==> r == Returned(FindTyped(registry, types, t, guid.value))
      ensures guid.None? ==> (r.Threw? <==> exists i :: 0 <= i < |registry| && types.Assignable(t, registry[i].typ))
      ensures r == Returned(None) <==>
                forall i :: 0 <= i < |registry| && types.Assignable(t, registry[i].typ) ==> guid.Some? && !HasGuid(registry[i], guid.value)
    {
      if guid.Some? then Returned(FindTyped(registry, types, t, guid.value))
      else if exists i :: 0 <= i < |registry| && types.Assignable(t, registry[i].typ) then Threw
      else Returned(None)
    }

    /** Equals(ScriptableObjectReference<T>): GUIDs compared; a null argument throws. */
    function Equals(other: ScriptableObjectReference?): (r: Outcome<bool>)
      reads this, other
      ensures other == null <==> r.Threw?
      ensures other != null ==> (r.value <==> guid == other.guid)
    {
      if other == null then Threw else Returned(guid == other.guid)
    }

    /** GetHashCode: from the GUID alone, 0 when it is null. */
    function GetHashCode(): (h: Hash)
      reads this
      ensures h.Zero? <==> guid.None?
    {
      GuidHash(guid)
    }

    /** Equals(object): false for null or any other kind of object, otherwise Equals(reference). */
    function EqualsObject(other: ScriptableObjectReference?): (r: bool)
      reads this, other
      ensures r <==> other != null && Equals(other) == Returned(true)
    {
      other != null && guid == other.guid
    }

    /** Equals(T): whether the asset this reference resolves to is the given one. */
    function EqualsValue(registry: seq<Bucket>, types: Types, t: TypeId, other: Option<Found>): (r: Outcome<bool>)
      reads this
      ensures r.Threw? <==> Value(registry, types, t).Threw?
      ensures r.Returned? ==> (r.value <==> Value(registry, types, t).value == other)
    {
      match Value(registry, types, t)
      case Threw => Threw
      case Returned(v) => Returned(v == other)
    }

    /** ToString: "TypeName(guid)" with T's name; a null GUID prints as nothing. */
    function ToString(tName: string): (s: string)
      reads this
      ensures s == tName + "(" + guid.GetOr("") + ")"
    {
      tName + "(" + guid.GetOr("") + ")"
    }
  }

  /** Equal references hash alike, so they can key a Dictionary. */
  lemma SoReferenceHashConsistent(a: ScriptableObjectReference, b: ScriptableObjectReference)
    ensures a.Equals(b) == Returned(true) ==> a.GetHashCode() == b.GetHashCode()
  {
  }

  // ---------------------------------------------------------------------
  // ObjectReference
  // ---------------------------------------------------------------------

  /** What a reference's Equals(Object) may be handed: a ScriptableObject or MonoBehaviour, or a GameObject. */
  datatype UnityObject = Asset(obj: Found) | Go(go: GameObject)

  class ObjectReference {
    var dropIn: Option<GameObject>
    var name: Option<string>
    var guid: Option<string>

    /** The parameterless constructor: an empty GUID, no drop-in. */
    constructor Default()
      ensures dropIn.None? && name.None? && guid == Some("")
    {
      dropIn := None;
      name := None;
      guid := Some("");
    }

    /** ValidateGUID: the GUID is neither null nor empty. */
    predicate ValidateGUID()
      reads this
    {
      !NullOrEmpty(guid)
    }

    /**
     * UpdateGUID: nothing without a drop-in; when the drop-in has an
     * IGuidAsset component its GUID and the drop-in's name are copied, and
     * otherwise nothing changes.
     */
    method UpdateGUID()
      modifies this`guid, this`name
      ensures old(dropIn).None? || GuidComponent(old(dropIn).value).None? ==> guid == old(guid) && name == old(name)
      ensures old(dropIn).Some? && GuidComponent(old(dropIn).value).Some? ==>
                guid == Some(GuidComponent(old(dropIn).value).value.guid) && name == Some(old(dropIn).value.name)
    {
      if dropIn.None? { return; }
      var c := GuidComponent(dropIn.value);
      if c.Some? {
        guid := Some(c.value.guid);
        name := Some(dropIn.value.name);
      }
    }

    /** Equals(Object): the other object is an IGuidAsset with an equal GUID. */
    function EqualsObject(other: Option<UnityObject>): (r: bool)
      reads this
      ensures r <==> other.Some? && other.value.Asset? && other.value.obj.guidAsset && guid == Some(other.value.obj.guid)
    {
      match other
      case Some(Asset(o)) => o.guidAsset && guid == Some(o.guid)
      case _ => false
    }

    /** Equals(IGuidAsset): GUIDs compared; a null argument throws. */
    function EqualsGuidAsset(other: Option<Found>): (r: Outcome<bool>)
      reads this
      ensures other.None? <==> r.Threw?
      ensures other.Some? ==> (r.value <==> guid == Some(other.value.guid))
    {
      if other.None? then Threw else Returned(guid == Some(other.value.guid))
    }

    /**
     * Value: the drop-in when set; otherwise FindObjectByGuid(guid) as
     * GameObject. Both registries hold components, never GameObjects, so
     * that cast always yields null.
     */
    function Value(assets: seq<Bucket>, monos: seq<Bucket>): (r: Option<GameObject>)
      reads this
      ensures dropIn.Some? ==> r == dropIn
      ensures dropIn.None? ==> r.None?
    {
      if dropIn.Some? then dropIn
      else
        var found := if guid.Some? then FindObjectByGuid(assets, monos, guid.value) else None;
        AsGameObject(found)
    }

    /**
     * Value as evidently intended: when there is no drop-in, the GameObject
     * owning the MonoBehaviour the GUID resolves to.
     */
    function ValueIntended(assets: seq<Bucket>, monos: seq<Bucket>, owner: map<ObjId, GameObject>): (r: Option<GameObject>)
      reads this
      ensures dropIn.Some? ==> r == dropIn
      ensures dropIn.None? && guid.Some? && guid.value != "" && FindAny(assets, guid.value).None?
              && FindAny(monos, guid.value).Some? && FindAny(monos, guid.value).value.id in owner ==>
                r == Some(owner[FindAny(monos, guid.value).value.id])
    {
      if dropIn.Some? then dropIn
      else
        var found := if guid.Some? then FindObjectByGuid(assets, monos, guid.value) else None;
        if found.Some? && found.value.id in owner && FindAny(assets, guid.value).None? then Some(owner[found.value.id]) else None
    }
  }

  /** `x as GameObject` for a ScriptableObject or MonoBehaviour: always null. */
  function AsGameObject(found: Option<Found>): Option<GameObject>
  {
    None
  }

  /** The constructor ObjectReference(GameObject): null or a GameObject without an IGuidAsset component throws. */
  method NewObjectReference(obj: Option<GameObject>) returns (r: Outcome<ObjectReference>)
    ensures obj.None? ==> r.Threw?
    ensures obj.Some? ==> (r.Threw? <==> GuidComponent(obj.value).None?)
    ensures r.Returned? ==> fresh(r.value) && r.value.dropIn == obj && r.value.name.None?
                            && r.value.guid == Some(GuidComponent(obj.value).value.guid)
  {
    if obj.None? { return Threw; }
    var c := GuidComponent(obj.value);
    if c.None? { return Threw; }
    var o := new ObjectReference.Default();
    o.guid := Some(c.value.guid);
    o.dropIn := obj;
    o.name := None;
    return Returned(o);
  }

  /**
   * An ObjectReference without a drop-in whose GUID names a registered
   * MonoBehaviour resolves to null as written, while the intended Value gives
   * that MonoBehaviour's GameObject.
   */
  lemma ObjectReferenceValueLosesMonoBehaviour(r: ObjectReference, comp: Found, go: GameObject)
    requires r.dropIn.None? && r.guid == Some("g1") && comp.guid == "g1" && comp.id == go.id
    ensures r.Value([], [Bucket(comp.typ, [Entry("g1", comp)])]).None?
    ensures r.ValueIntended([], [Bucket(comp.typ, [Entry("g1", comp)])], map[comp.id := go]) == Some(go)
  {
    var monos := [Bucket(comp.typ, [Entry("g1", comp)])];
    assert HasGuid(monos[0], "g1");
    assert Get(monos[0], "g1") == Some(comp);
  }

  // ---------------------------------------------------------------------
  // MonoReference<T>
  // ---------------------------------------------------------------------

  class MonoReference {
    const t: TypeId
    var dropIn: Option<GameObject>
    var name: Option<string>
    var guid: Option<string>
    var cached: Option<Found>

    /** The parameterless constructor: an empty GUID, nothing cached. */
    constructor Default(t: TypeId)
      ensures this.t == t && dropIn.None? && name.None? && guid == Some("") && cached.None?
    {
      this.t := t;
      dropIn := None;
      name := None;
      guid := Some("");
      cached := None;
    }

    /**
     * UpdateGUID: nothing without a drop-in; when the drop-in has a T
     * component it is cached and the base update copies the GUID and name.
     */
    method UpdateGUID(types: Types)
      modifies this`guid, this`name, this`cached
      ensures old(dropIn).None? || ComponentOf(old(dropIn).value, types, t).None? ==> guid == old(guid) && name == old(name) && cached == old(cached)
      ensures old(dropIn).Some? && ComponentOf(old(dropIn).value, types, t).Some? ==>
                && cached == ComponentOf(old(dropIn).value, types, t)
                && (GuidComponent(old(dropIn).value).Some? ==>
                      guid == Some(GuidComponent(old(dropIn).value).value.guid) && name == Some(old(dropIn).value.name))
                && (GuidComponent(old(dropIn).value).None? ==> guid == old(guid) && name == old(name))
    {
      if dropIn.None? { return; }
      var comp := ComponentOf(dropIn.value, types, t);
      if comp.Some? {
        cached := comp;
        var c := GuidComponent(dropIn.value);
        if c.Some? {
          guid := Some(c.value.guid);
          name := Some(dropIn.value.name);
        }
      }
    }

    /** FindObjectByGuid(guid) as T: only a MonoBehaviour of a T-assignable type survives the cast. */
    function Resolve(assets: seq<Bucket>, monos: seq<Bucket>, types: Types): (r: Option<Found>)
      reads this
      ensures r.Some? ==> guid.Some? && guid.value != "" && FindAny(assets, guid.value).None?
                          && r == FindAny(monos, guid.value) && types.Assignable(t, r.value.typ)
      ensures (guid.Some? && guid.value != "" && FindAny(assets, guid.value).None? && FindAny(monos, guid.value).Some?
               && types.Assignable(t, FindAny(monos, guid.value).value.typ))
              ==> r == FindAny(monos, guid.value)
    {
      if guid.None? then None
      else
        var found := FindObjectByGuid(assets, monos, guid.value);
        if found.Some? && FindAny(assets, guid.value).None? && types.Assignable(t, found.value.typ) then found else None
    }

    /**
     * The Value getter: the cache when set; otherwise the GUID is resolved
     * and the result, null included, becomes the cache. The drop-in test
     * never succeeds because a GameObject is never a T.
     */
    method Value(assets: seq<Bucket>, monos: seq<Bucket>, types: Types) returns (r: Option<Found>)
      modifies this`cached
      ensures old(cached).Some? ==> r == old(cached) && cached == old(cached)
      ensures old(cached).None? ==> r == Resolve(assets, monos, types) && cached == r
    {
      if cached.Some? {
        return cached;
      }
      cached := Resolve(assets, monos, types);
      return cached;
    }

    /**
     * RetrieveValue: the drop-in test comes first, then the cache, then the
     * lookup. Since the drop-in test never succeeds, it has the same result
     * and the same effect as the Value getter.
     */
    method RetrieveValue(assets: seq<Bucket>, monos: seq<Bucket>, types: Types) returns (r: Option<Found>)
      modifies this`cached
      ensures old(cached).Some? ==> r == old(cached) && cached == old(cached)
      ensures old(cached).None? ==> r == Resolve(assets, monos, types) && cached == r
    {
      if cached.Some? {
        return cached;
      }
      cached := Resolve(assets, monos, types);
      return cached;
    }

    /** Equals(MonoReference<T>): false for null, otherwise GUIDs compared. */
    function Equals(other: MonoReference?): (r: bool)
      reads this, other
      ensures r <==> other != null && guid == other.guid
    {
      other != null && guid == other.guid
    }

    /** GetHashCode: from the GUID, 0 when it is null. */
    function GetHashCode(): (h: Hash)
      reads this
      ensures h.Zero? <==> guid.None?
    {
      GuidHash(guid)
    }
  }

  /** Equal MonoReferences hash alike. */
  lemma MonoReferenceHashConsistent(a: MonoReference, b: MonoReference)
    ensures a.Equals(b) ==> a.GetHashCode() == b.GetHashCode()
  {
  }

  /**
   * The constructor MonoReference<T>(GameObject): the base constructor runs
   * first (and throws without an IGuidAsset component), then a missing T
   * component throws; otherwise that component is cached.
   */
  method NewMonoReference(obj: Option<GameObject>, types: Types, t: TypeId) returns (r: Outcome<MonoReference>)
    ensures r.Returned? <==> obj.Some? && GuidComponent(obj.value).Some? && ComponentOf(obj.value, types, t).Some?
    ensures r.Returned? ==>
              && fresh(r.value) && r.value.t == t && r.value.dropIn == obj
              && r.value.guid == Some(GuidComponent(obj.value).value.guid)
              && r.value.cached == ComponentOf(obj.value, types, t)
  {
    if obj.None? { return Threw; }
    var c := GuidComponent(obj.value);
    if c.None? { return Threw; }
    var comp := ComponentOf(obj.value, types, t);
    if comp.None? { return Threw; }
    var m := new MonoReference.Default(t);
    m.guid := Some(c.value.guid);
    m.dropIn := obj;
    m.cached := comp;
    return Returned(m);
  }

  // ---------------------------------------------------------------------
  // CollisionData
  // ---------------------------------------------------------------------

  class CollisionData {
    var otherCollider: MonoReference?

    /** The parameterless constructor: the field initialiser's empty MonoReference of ColliderTrigger. */
    constructor Default(colliderTrigger: TypeId)
      ensures fresh(otherCollider) && otherCollider != null
      ensures otherCollider.t == colliderTrigger && otherCollider.guid == Some("") && otherCollider.cached.None?
    {
      otherCollider := new MonoReference.Default(colliderTrigger);
    }

    /**
     * The OtherCollider setter (and the constructor from a collider): the
     * implicit conversion builds a new MonoReference from the collider's
     * GameObject, which throws as that constructor does.
     */
    method SetOtherCollider(value: GameObject, types: Types, colliderTrigger: TypeId) returns (threw: bool)
      modifies this
      ensures threw <==> GuidComponent(value).None? || ComponentOf(value, types, colliderTrigger).None?
      ensures threw ==> otherCollider == old(otherCollider)
      ensures !threw ==> fresh(otherCollider) && otherCollider != null && otherCollider.dropIn == Some(value)
                         && otherCollider.guid == Some(GuidComponent(value).value.guid)
                         && otherCollider.cached == ComponentOf(value, types, colliderTrigger)
    {
      var m := NewMonoReference(Some(value), types, colliderTrigger);
      if m.Threw? { return true; }
      otherCollider := m.value;
      return false;
    }

    /** GetHashCode: the reference's GUID hash, 0 without a reference. */
    function GetHashCode(): (h: Hash)
      reads this, otherCollider
      ensures otherCollider == null ==> h.Zero?
      ensures otherCollider != null ==> h == GuidHash(otherCollider.guid)
    {
      if otherCollider == null then Zero else otherCollider.GetHashCode()
    }
  }

  /** What resolving a MonoReference leaves in its cache: the old cache, or the GUID lookup. */
  ghost function CachedAfter(old_cached: Option<Found>, m: MonoReference, assets: seq<Bucket>, monos: seq<Bucket>, types: Types): Option<Found>
    reads m
  {
    if old_cached.Some? then old_cached else m.Resolve(assets, monos, types)
  }

  /**
   * CollisionData.Equals(CollisionData): object.Equals of the two resolved
   * colliders, read left to right, each read filling its reference's cache.
   * A missing reference on this side, a null argument, or a missing
   * reference on the other side throws at the point it is reached.
   */
  method CollisionDataEquals(a: CollisionData, b: CollisionData?, assets: seq<Bucket>, monos: seq<Bucket>, types: Types)
    returns (r: Outcome<bool>)
    modifies a.otherCollider, if b != null then b.otherCollider else null
    ensures r.Returned? <==> a.otherCollider != null && b != null && b.otherCollider != null
    ensures a.otherCollider != null ==>
              a.otherCollider.cached == CachedAfter(old(a.otherCollider.cached), a.otherCollider, assets, monos, types)
    ensures r.Returned? ==>
              && b.otherCollider.cached == CachedAfter(old(b.otherCollider.cached), b.otherCollider, assets, monos, types)
              && (r.value <==> a.otherCollider.cached == b.otherCollider.cached)
  {
    if a.otherCollider == null { return Threw; }
    var x := a.otherCollider.Value(assets, monos, types);
    if b == null || b.otherCollider == null { return Threw; }
    var y := b.otherCollider.Value(assets, monos, types);
    return Returned(x == y);
  }

  /** CollisionData.Equals(object): false for null or anything else, otherwise Equals(CollisionData). */
  method CollisionDataEqualsObject(a: CollisionData, b: CollisionData?, assets: seq<Bucket>, monos: seq<Bucket>, types: Types)
    returns (r: Outcome<bool>)
    modifies a.otherCollider, if b != null then b.otherCollider else null
    ensures b == null ==> r == Returned(false) && (a.otherCollider != null ==> unchanged(a.otherCollider))
    ensures b != null ==> (r.Returned? <==> a.otherCollider != null && b.otherCollider != null)
  {
    if b == null { return Returned(false); }
    r := CollisionDataEquals(a, b, assets, monos, types);
  }
}

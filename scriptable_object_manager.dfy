/**
 * ScriptableObjectManager.cs: the static registry of ScriptableObject assets
 * that implement IGuidAsset, by runtime type and then by GUID.
 */
module ScriptableObjectManagement {
  import opened Wrappers
  import opened GuidRegistry

  /** GetFirstAssetOfType<T>: an existing asset, null from an empty bucket, or a fresh instance of T. */
  datatype FirstAsset = Existing(obj: Found) | NullAsset | CreatedInstance(typ: TypeId)

  class ScriptableObjectManager {
    var registry: seq<Bucket>

    constructor ()
      ensures registry == []
    {
      registry := [];
    }

    /**
     * LoadAllAssets: every IGuidAsset among the loaded assets gets a GUID if
     * it has none and is added to its runtime type's bucket unless that GUID
     * is already there. The registry is never cleared, so earlier entries stay.
     * `drawn` is what System.Guid.NewGuid returns for each asset that needs
     * one; `written` is the GUIDs written back into assets.
     */
    method LoadAllAssets(loaded: seq<Found>, drawn: map<ObjId, Guid>) returns (written: map<ObjId, Guid>)
      requires DrawsFor(loaded, drawn)
      modifies this`registry
      ensures registry == RegisterAll(old(registry), loaded, drawn)
      ensures written == Assigned(loaded, drawn)
    {
      written := map[];
      var i := 0;
      while i < |loaded|
        invariant 0 <= i <= |loaded|
        invariant DrawsFor(loaded[..i], drawn)
        invariant registry == RegisterAll(old(registry), loaded[..i], drawn)
        invariant written == Assigned(loaded[..i], drawn)
      {
        var asset := loaded[i];
        DrawsForPrefix(loaded, drawn, i + 1);
        assert loaded[..i + 1][..i] == loaded[..i];
        assert loaded[..i + 1] == loaded[..i] + [asset];
        if asset.guidAsset {
          var g := asset.guid;
          if g == "" {
            g := drawn[asset.id];
            written := written[asset.id := g];
          }
          registry := Register(registry, asset, g);
        }
        i := i + 1;
      }
      assert loaded[..|loaded|] == loaded;
    }

    /** GetAssetByGuid<T>: the asset with this GUID in the first bucket assignable to T, or null. */
    function GetAssetByGuidOf(types: Types, t: TypeId, g: Guid): (r: Option<Found>)
      reads this
      ensures r.None? <==> forall i :: 0 <= i < |registry| && types.Assignable(t, registry[i].typ) ==> !HasGuid(registry[i], g)
      ensures r.Some? ==> exists i :: 0 <= i < |registry| && types.Assignable(t, registry[i].typ) && Get(registry[i], g) == r
                             && forall j :: 0 <= j < i && types.Assignable(t, registry[j].typ) ==> !HasGuid(registry[j], g)
    {
      FindTyped(registry, types, t, g)
    }

    /** GetAssetByGuid(string): the asset with this GUID in the first bucket of any type, or null. */
    function GetAssetByGuid(g: Guid): (r: Option<Found>)
      reads this
      ensures r.None? <==> forall i :: 0 <= i < |registry| ==> !HasGuid(registry[i], g)
      ensures r.Some? ==> exists i :: 0 <= i < |registry| && Get(registry[i], g) == r
                             && forall j :: 0 <= j < i ==> !HasGuid(registry[j], g)
    {
      FindAny(registry, g)
    }

    /** GetAssetsByType<T>: exactly the registered assets of T-assignable buckets. */
    function GetAssetsByType(types: Types, t: TypeId): (r: seq<Found>)
      reads this
      ensures forall o :: o in r <==>
                exists i, e :: 0 <= i < |registry| && types.Assignable(t, registry[i].typ) && e in registry[i].entries && e.obj == o
    {
      OfType(registry, types, t)
    }

    /**
     * GetFirstAssetOfType<T>: consults only the bucket of exactly T; when
     * there is none, a new instance of T is created, so null comes back only
     * from an empty bucket.
     */
    function GetFirstAssetOfType(t: TypeId): (r: FirstAsset)
      reads this
      ensures r.CreatedInstance? <==> forall i :: 0 <= i < |registry| ==> registry[i].typ != t
      ensures r.CreatedInstance? ==> r.typ == t
      ensures r.Existing? ==> exists i :: 0 <= i < |registry| && registry[i].typ == t && registry[i].entries != [] && r.obj == registry[i].entries[0].obj
    {
      match BucketOf(registry, t)
      case None => CreatedInstance(t)
      case Some(b) => if b.entries == [] then NullAsset else Existing(b.entries[0].obj)
    }

    /** GetSaveableScriptableObjects: exactly the registered assets that are ISaveable. */
    function GetSaveableScriptableObjects(): (r: seq<Found>)
      reads this
      ensures forall o :: o in r <==> o.saveable && exists i, e :: 0 <= i < |registry| && e in registry[i].entries && e.obj == o
    {
      var all := AllObjects(registry);
      Filter(all)
    }

    /** All: every registered asset. */
    function All(): (r: seq<Found>)
      reads this
      ensures forall o :: o in r <==> exists i, e :: 0 <= i < |registry| && e in registry[i].entries && e.obj == o
    {
      AllObjects(registry)
    }
  }

  /** OfType<ISaveable>(). */
  function Filter(objs: seq<Found>): (r: seq<Found>)
    ensures forall o :: o in r <==> o in objs && o.saveable
  {
    if objs == [] then []
    else (if objs[0].saveable then [objs[0]] else []) + Filter(objs[1..])
  }

  /**
   * Two loads never lose an entry: what the first load registered under a
   * type and GUID is still there after the second.
   */
  lemma LoadKeepsEarlierEntries(bs: seq<Bucket>, first: seq<Found>, second: seq<Found>, drawn: map<ObjId, Guid>, typ: TypeId, g: Guid)
    requires DrawsFor(first, drawn) && DrawsFor(second, drawn)
    requires At(RegisterAll(bs, first, drawn), typ, g).Some?
    ensures At(RegisterAll(RegisterAll(bs, first, drawn), second, drawn), typ, g) == At(RegisterAll(bs, first, drawn), typ, g)
  {
    RegisterAllAt(RegisterAll(bs, first, drawn), second, drawn, typ, g);
  }
}

/**
 * MonoBehaviouRegistry.cs: the static registry of scene MonoBehaviours that
 * implement IGuidAsset, rebuilt from scratch on every scan.
 */
module MonoRegistry {
  import opened Wrappers
  import opened GuidRegistry

  class MonoBehaviouRegistry {
    var registry: seq<Bucket>

    constructor ()
      ensures registry == []
    {
      registry := [];
    }

    /**
     * FindSerializableMonoBehaviours: the registry is cleared first, then
     * every IGuidAsset among the scene's MonoBehaviours gets a GUID if it has
     * none and is added to its runtime type's bucket, first GUID wins.
     */
    method FindSerializableMonoBehaviours(found: seq<Found>, drawn: map<ObjId, Guid>) returns (written: map<ObjId, Guid>)
      requires DrawsFor(found, drawn)
      modifies this`registry
      ensures registry == RegisterAll([], found, drawn)
      ensures written == Assigned(found, drawn)
    {
      registry := [];
      written := map[];
      var i := 0;
      while i < |found|
        invariant 0 <= i <= |found|
        invariant DrawsFor(found[..i], drawn)
        invariant registry == RegisterAll([], found[..i], drawn)
        invariant written == Assigned(found[..i], drawn)
      {
        var mono := found[i];
        DrawsForPrefix(found, drawn, i + 1);
        assert found[..i + 1][..i] == found[..i];
        assert found[..i + 1] == found[..i] + [mono];
        if mono.guidAsset {
          var g := mono.guid;
          if g == "" {
            g := drawn[mono.id];
            written := written[mono.id := g];
          }
          registry := Register(registry, mono, g);
        }
        i := i + 1;
      }
      assert found[..|found|] == found;
    }

    method ClearRegistry()
      modifies this`registry
      ensures registry == []
    {
      registry := [];
    }

    /** All: the union of every bucket. */
    function All(): (r: seq<Found>)
      reads this
      ensures forall o :: o in r <==> exists i, e :: 0 <= i < |registry| && e in registry[i].entries && e.obj == o
    {
      AllObjects(registry)
    }

    /** FindFirstObjectByType<T>: the first object of the first T-assignable bucket, or null. */
    function FindFirstObjectByType(types: Types, t: TypeId): (r: Option<Found>)
      reads this
      ensures r.None? <==> forall i :: 0 <= i < |registry| && types.Assignable(t, registry[i].typ) ==> registry[i].entries == []
      ensures r.Some? ==> exists i, e :: 0 <= i < |registry| && types.Assignable(t, registry[i].typ) && e in registry[i].entries && e.obj == r.value
      ensures r.Some? ==>
                exists i :: 0 <= i < |registry| && types.Assignable(t, registry[i].typ) && registry[i].entries != []
                            && r.value == registry[i].entries[0].obj
                            && forall j :: 0 <= j < i && types.Assignable(t, registry[j].typ) ==> registry[j].entries == []
    {
      var r := FirstOfAssignable(registry, types, t);
      if r.Some? then
        assert r.value in OfType(registry, types, t);
        var i, e :| 0 <= i < |registry| && types.Assignable(t, registry[i].typ) && e in registry[i].entries && e.obj == r.value;
        assert registry[i].entries != [];
        r
      else
        assert forall i :: 0 <= i < |registry| && types.Assignable(t, registry[i].typ) ==> registry[i].entries == [] by {
          forall i | 0 <= i < |registry| && types.Assignable(t, registry[i].typ)
            ensures registry[i].entries == []
          {
            OfTypeCoversBucket(registry, types, t, i);
          }
        }
        r
    }

    /** GetMonoByGuid<T>: the object with this GUID in the first bucket assignable to T, or null. */
    function GetMonoByGuidOf(types: Types, t: TypeId, g: Guid): (r: Option<Found>)
      reads this
      ensures r.None? <==> forall i :: 0 <= i < |registry| && types.Assignable(t, registry[i].typ) ==> !HasGuid(registry[i], g)
      ensures r.Some? ==> exists i :: 0 <= i < |registry| && types.Assignable(t, registry[i].typ) && Get(registry[i], g) == r
                             && forall j :: 0 <= j < i && types.Assignable(t, registry[j].typ) ==> !HasGuid(registry[j], g)
    {
      FindTyped(registry, types, t, g)
    }

    /** GetMonoByGuid(string): the object with this GUID in the first bucket of any type, or null. */
    function GetMonoByGuid(g: Guid): (r: Option<Found>)
      reads this
      ensures r.None? <==> forall i :: 0 <= i < |registry| ==> !HasGuid(registry[i], g)
      ensures r.Some? ==> exists i :: 0 <= i < |registry| && Get(registry[i], g) == r
                             && forall j :: 0 <= j < i ==> !HasGuid(registry[j], g)
    {
      FindAny(registry, g)
    }

    /** GetMonosByType<T>: every object of the T-assignable buckets. */
    function GetMonosByType(types: Types, t: TypeId): (r: seq<Found>)
      reads this
      ensures forall o :: o in r <==>
                exists i, e :: 0 <= i < |registry| && types.Assignable(t, registry[i].typ) && e in registry[i].entries && e.obj == o
    {
      OfType(registry, types, t)
    }
  }

  /**
   * After a scan the registry holds objects of that scan only: whatever a
   * type and GUID resolve to is the first scanned object with them.
   */
  lemma ScanReplacesRegistry(found: seq<Found>, drawn: map<ObjId, Guid>, typ: TypeId, g: Guid)
    requires DrawsFor(found, drawn)
    ensures At(RegisterAll([], found, drawn), typ, g) == FirstScanned(found, drawn, typ, g)
    ensures At(RegisterAll([], found, drawn), typ, g).Some? ==> At(RegisterAll([], found, drawn), typ, g).value in found
  {
    RegisterAllAt([], found, drawn, typ, g);
    FirstScannedIn(found, drawn, typ, g);
  }

  lemma {:induction false} FirstScannedIn(found: seq<Found>, drawn: map<ObjId, Guid>, typ: TypeId, g: Guid)
    requires DrawsFor(found, drawn)
    ensures FirstScanned(found, drawn, typ, g).Some? ==> FirstScanned(found, drawn, typ, g).value in found
  {
    if found != [] {
      FirstScannedIn(found[1..], drawn, typ, g);
    }
  }

  /** A non-empty T-assignable bucket contributes to GetMonosByType<T>. */
  lemma OfTypeCoversBucket(bs: seq<Bucket>, types: Types, t: TypeId, i: nat)
    requires i < |bs| && types.Assignable(t, bs[i].typ)
    ensures bs[i].entries != [] ==> bs[i].entries[0].obj in OfType(bs, types, t)
  {
    if bs[i].entries != [] {
      assert bs[i].entries[0] in bs[i].entries;
    }
  }
}

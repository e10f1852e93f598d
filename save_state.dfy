/**
 * One save slot (SaveState.cs): the captured field data of each saved
 * ScriptableObject, keyed by its GUID, and the runtime copies rebuilt from it.
 *
 * Assets live in an `AssetHeap`; the scriptable-object registry that
 * ScriptableObjectReference.Value consults is a map from GUID to asset.
 */
module SaveStates {
  import opened Wrappers
  import opened SaveUtility

  type Guid = string

  /** A snapshot as ExtractSaveData returns it. */
  type Snapshot = map<string, Node>

  /** A ScriptableObject asset: its name, runtime type, GUID, whether it is ISaveable, and its fields. */
  datatype Asset = Asset(name: string, typ: TypeId, guid: Guid, saveable: bool, fields: map<string, Val>)

  /** The assets of the running game; restoring state writes their fields in place. */
  class AssetHeap {
    var assets: map<ObjId, Asset>

    constructor (assets: map<ObjId, Asset>)
      ensures this.assets == assets
    {
      this.assets := assets;
    }
  }

  /** ISaveable.RestoreState(data) = ApplySaveData(asset, data): the new fields and whether it threw. */
  function Restore(tt: Table, a: Asset, data: Option<Snapshot>): TopApplied
  {
    if data.None? then TopApplied(a.fields, false)
    else ApplyTop(tt, a.fields, FieldsOf(tt, a.typ), data.value)
  }

  /** The registered asset a GUID reference resolves to, if any. */
  function Lookup(registry: map<Guid, ObjId>, assets: map<ObjId, Asset>, g: Guid): Option<Asset>
  {
    if g in registry && registry[g] in assets then Some(assets[registry[g]]) else None
  }

  /** A saved entry that rehydration turns into a runtime copy: it resolves, has data and is ISaveable. */
  predicate Rehydratable(registry: map<Guid, ObjId>, assets: map<ObjId, Asset>, saved: map<Guid, Option<Snapshot>>, g: Guid)
  {
    g in saved && saved[g].Some? && Lookup(registry, assets, g).Some? && Lookup(registry, assets, g).value.saveable
  }

  /** Instantiate(asset) renamed "<name>_Runtime", with the saved data restored into it. */
  function RuntimeCopy(tt: Table, a: Asset, data: Snapshot): Asset
  {
    a.(name := a.name + "_Runtime", fields := ApplyTop(tt, a.fields, FieldsOf(tt, a.typ), data).fields)
  }

  class SaveState {
    /** Filled before the state is stored in a slot, and not changed after. */
    const savedData: map<Guid, Option<Snapshot>>
    var runtimeInstances: map<Guid, Asset>

    constructor (savedData: map<Guid, Option<Snapshot>>)
      ensures this.savedData == savedData && runtimeInstances == map[]
    {
      this.savedData := savedData;
      runtimeInstances := map[];
    }

    /**
     * RehydrateToRuntimeInstances: previous copies are discarded; every entry
     * that resolves to an ISaveable asset and has data gets a fresh renamed copy
     * with the data restored into it, and the registered asset is untouched.
     * An exception from RestoreState is not caught: it ends the rebuild.
     */
    method RehydrateToRuntimeInstances(tt: Table, registry: map<Guid, ObjId>, heap: AssetHeap) returns (threw: bool)
      modifies this`runtimeInstances
      ensures forall g :: g in runtimeInstances ==>
                Rehydratable(registry, heap.assets, savedData, g)
                && !Restore(tt, Lookup(registry, heap.assets, g).value, savedData[g]).threw
                && runtimeInstances[g] == RuntimeCopy(tt, Lookup(registry, heap.assets, g).value, savedData[g].value)
      ensures !threw ==> forall g :: Rehydratable(registry, heap.assets, savedData, g) ==> g in runtimeInstances
      ensures threw ==> exists g :: Rehydratable(registry, heap.assets, savedData, g)
                                  && Restore(tt, Lookup(registry, heap.assets, g).value, savedData[g]).threw
    {
      runtimeInstances := map[];
      threw := false;
      var todo := savedData.Keys;
      while todo != {}
        invariant todo <= savedData.Keys
        invariant forall g :: g in runtimeInstances ==>
                    g !in todo && Rehydratable(registry, heap.assets, savedData, g)
                    && !Restore(tt, Lookup(registry, heap.assets, g).value, savedData[g]).threw
                    && runtimeInstances[g] == RuntimeCopy(tt, Lookup(registry, heap.assets, g).value, savedData[g].value)
        invariant forall g :: g in savedData && g !in todo && Rehydratable(registry, heap.assets, savedData, g) ==> g in runtimeInstances
        decreases todo
      {
        var g :| g in todo;
        todo := todo - {g};
        var reference := Lookup(registry, heap.assets, g);
        if reference.None? || savedData[g].None? { continue; }
        var instance := reference.value;
        if instance.saveable {
          var restored := Restore(tt, instance, savedData[g]);
          if restored.threw {
            threw := true;
            return;
          }
          runtimeInstances := runtimeInstances[g := RuntimeCopy(tt, instance, savedData[g].value)];
        }
      }
    }

    /** GetRuntimeInstance: the recorded copy for the reference, or null when there is none. */
    function GetRuntimeInstance(g: Guid): (r: Option<Asset>)
      reads this
      ensures r.None? <==> g !in runtimeInstances
      ensures r.Some? ==> r.value == runtimeInstances[g]
    {
      if g in runtimeInstances then Some(runtimeInstances[g]) else None
    }
  }
}

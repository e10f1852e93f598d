/**
 * The slot-based save manager for ScriptableObjects (SaveDataManagerSO.cs).
 *
 * The save file on disk is `file`: None when it does not exist, otherwise the
 * data of every slot. Writing it is always modelled as succeeding; reading it
 * back takes the outcome of deserialisation as a parameter. The ISaveable
 * callbacks OnSave and OnLoad are recorded in `log`; what they do to the
 * assets is code outside this class, so their combined effect is a function
 * parameter (`onSave`, `onLoad`) from the assets before the callbacks to the
 * assets after them. InventoryDataManager's OnSave, for instance, refreshes
 * the saved stock that the capture then reads, and its OnLoad rebuilds the
 * live stock from the restored one.
 */
module SaveManagerSO {
  import opened Wrappers
  import opened SaveUtility
  import opened SaveStates

  datatype Call = OnSaveCall(id: ObjId) | CaptureCall(id: ObjId) | OnLoadCall(id: ObjId)

  /** What one slot contributes to the serialised file. */
  type SlotImage = map<Guid, Option<Snapshot>>

  /** The saveable SerializableScriptableObjects among the tracked objects whose GUID is `g`. */
  predicate CapturedBy(heap: map<ObjId, Asset>, tracked: set<ObjId>, g: Guid, id: ObjId)
  {
    id in tracked && id in heap && heap[id].saveable && heap[id].guid == g
  }

  function Image(states: seq<SaveState>): (r: seq<SlotImage>)
    ensures |r| == |states|
    ensures forall i :: 0 <= i < |states| ==> r[i] == states[i].savedData
  {
    if states == [] then [] else [states[0].savedData] + Image(states[1..])
  }

  /** Exactly one call of the given kind per id of `ids`. */
  predicate OneCallEach(calls: seq<Call>, ids: set<ObjId>, onSave: bool)
  {
    && |calls| == |ids|
    && (forall c :: c in calls ==> (if onSave then c.OnSaveCall? else c.OnLoadCall?) && c.id in ids)
    && (forall id :: id in ids ==> (if onSave then OnSaveCall(id) else OnLoadCall(id)) in calls)
  }

  class SaveDataManagerSO {
    var saveStates: seq<SaveState>
    var currentSlotIndex: int
    var saveableObjects: set<ObjId>
    var file: Option<seq<SlotImage>>
    var log: seq<Call>

    constructor (file: Option<seq<SlotImage>>)
      ensures saveStates == [] && currentSlotIndex == 0 && saveableObjects == {}
      ensures this.file == file && log == []
    {
      saveStates := [];
      currentSlotIndex := 0;
      saveableObjects := {};
      this.file := file;
      log := [];
    }

    function SaveSlotCount(): (n: nat)
      reads this
      ensures n == |saveStates|
    {
      |saveStates|
    }

    /** SetSlot stores the index without checking it. */
    method SetSlot(index: int)
      modifies this`currentSlotIndex
      ensures currentSlotIndex == index
    {
      currentSlotIndex := index;
    }

    /** OnEditorStopped removes every slot. */
    method OnEditorStopped()
      modifies this`saveStates
      ensures saveStates == []
    {
      saveStates := [];
    }

    /**
     * RefreshSaveableObjects: every ISaveable among the loaded ScriptableObjects
     * is tracked afterwards; tracking is a set, so nothing is tracked twice.
     */
    method RefreshSaveableObjects(loaded: seq<ObjId>, heap: AssetHeap)
      modifies this`saveableObjects
      ensures saveableObjects == old(saveableObjects) + set id | id in loaded && id in heap.assets && heap.assets[id].saveable
    {
      var i := 0;
      while i < |loaded|
        invariant 0 <= i <= |loaded|
        invariant saveableObjects == old(saveableObjects) + set id | id in loaded[..i] && id in heap.assets && heap.assets[id].saveable
      {
        var so := loaded[i];
        if so in heap.assets && heap.assets[so].saveable && so !in saveableObjects {
          saveableObjects := saveableObjects + {so};
        }
        assert loaded[..i + 1] == loaded[..i] + [so];
        i := i + 1;
      }
    }

    /** SaveToFile: the file now holds every slot's data. */
    method SaveToFile()
      modifies this`file
      ensures file == Some(Image(saveStates))
    {
      file := Some(Image(saveStates));
    }

    /**
     * SaveAsync: OnSave runs on every tracked saveable before any state is
     * captured, so the capture reads the assets as the callbacks leave them;
     * the tracked saveables that are SerializableScriptableObjects are
     * captured under their GUID (one entry per GUID, a later capture with
     * the same GUID replacing an earlier one). The new state is appended when
     * the slot index is at or past the end and replaces the slot otherwise; a
     * negative index throws before anything is stored, after the callbacks
     * have run. The file is then written.
     */
    method SaveAsync(tt: Table, heap: AssetHeap, onSave: map<ObjId, Asset> -> map<ObjId, Asset>) returns (threw: bool)
      modifies this`saveStates, this`file, this`log, heap
      ensures heap.assets == onSave(old(heap.assets))
      ensures threw <==> currentSlotIndex < 0
      ensures exists saves, captures ::
                && log == old(log) + saves + captures
                && OneCallEach(saves, saveableObjects, true)
                && forall c :: c in captures ==> c.CaptureCall? && c.id in saveableObjects
      ensures threw ==> saveStates == old(saveStates) && file == old(file)
      ensures !threw ==> file == Some(Image(saveStates))
      ensures !threw ==> exists state: SaveState ::
                && fresh(state)
                && saveStates == Stored(old(saveStates), currentSlotIndex, state)
                && Captured(tt, heap.assets, saveableObjects, state.savedData)
    {
      var saves := CallEach(saveableObjects, true);
      heap.assets := onSave(heap.assets);
      var data, captures := Capture(tt, heap.assets, saveableObjects);
      log := log + saves + captures;
      assert OneCallEach(saves, saveableObjects, true);
      threw := currentSlotIndex < 0;
      if threw { return; }
      var state := new SaveState(data);
      saveStates := Stored(saveStates, currentSlotIndex, state);
      SaveToFile();
      assert state.savedData == data;
    }

    /**
     * LoadAsync(slotIndex): the index is stored, then used without a bounds
     * check (an index out of range throws). Each saved entry whose reference
     * resolves to an ISaveable asset is restored into that asset, an exception
     * there being logged and skipped; entries that do not resolve are skipped
     * with a warning. Finally OnLoad runs on every tracked saveable, on the
     * assets as the restore left them.
     */
    method LoadAsync(tt: Table, slotIndex: int, registry: map<Guid, ObjId>, heap: AssetHeap,
                     onLoad: map<ObjId, Asset> -> map<ObjId, Asset>) returns (threw: bool)
      modifies this`currentSlotIndex, this`log, heap
      ensures currentSlotIndex == slotIndex
      ensures threw <==> !(0 <= slotIndex < |saveStates|)
      ensures threw ==> heap.assets == old(heap.assets) && log == old(log)
      ensures !threw ==> exists loads :: log == old(log) + loads && OneCallEach(loads, saveableObjects, false)
      ensures !threw ==> exists restored ::
                && RestoredSlot(tt, registry, old(heap.assets), saveStates[slotIndex].savedData, restored)
                && heap.assets == onLoad(restored)
    {
      currentSlotIndex := slotIndex;
      if !(0 <= slotIndex < |saveStates|) {
        threw := true;
        return;
      }
      threw := false;
      RestoreSlot(tt, saveStates[slotIndex].savedData, registry, heap);
      ghost var restored := heap.assets;
      var loads := CallEach(saveableObjects, false);
      heap.assets := onLoad(heap.assets);
      log := log + loads;
    }

    /**
     * LoadSaveFile: a missing file is replaced by a fresh empty one (and
     * written); a file that does not deserialise leaves the current slots
     * as they were and skips rehydration; otherwise the slots become the
     * file's and each is rehydrated in turn, an exception ending the loop.
     */
    method LoadSaveFile(tt: Table, decodes: bool, registry: map<Guid, ObjId>, heap: AssetHeap) returns (threw: bool)
      modifies this`saveStates, this`file
      ensures old(file).None? ==> saveStates == [] && file == Some([]) && !threw
      ensures old(file).Some? && !decodes ==> saveStates == old(saveStates) && file == old(file) && !threw
      ensures old(file).Some? && decodes ==> Image(saveStates) == old(file).value && file == old(file)
      ensures old(file).Some? && decodes && !threw ==>
                forall i :: 0 <= i < |saveStates| ==> Rehydrated(tt, registry, heap.assets, saveStates[i])
      ensures old(file).Some? && decodes && threw ==>
                exists i :: 0 <= i < |saveStates| && RehydrationThrows(tt, registry, heap.assets, saveStates[i].savedData)
    {
      threw := false;
      if file.None? {
        saveStates := [];
        SaveToFile();
        return;
      }
      if !decodes { return; }
      var states := NewStates(file.value);
      saveStates := states;
      threw := RehydrateAll(tt, states, registry, heap);
    }

    /**
     * Init: LoadSaveFile, then LoadAsync(CurrentSlotIndex). On a first run
     * there is no save file, so the slot list is left empty and LoadAsync
     * indexes past its end: Init throws.
     */
    method Init(tt: Table, decodes: bool, registry: map<Guid, ObjId>, heap: AssetHeap,
                onLoad: map<ObjId, Asset> -> map<ObjId, Asset>) returns (threw: bool)
      modifies this, heap
      ensures old(file).None? ==> threw && saveStates == [] && file == Some([])
      ensures !threw ==> 0 <= currentSlotIndex < |saveStates|
      ensures !threw ==> exists restored ::
                && RestoredSlot(tt, registry, old(heap.assets), saveStates[currentSlotIndex].savedData, restored)
                && heap.assets == onLoad(restored)
    {
      threw := LoadSaveFile(tt, decodes, registry, heap);
      if threw { return; }
      threw := LoadAsync(tt, currentSlotIndex, registry, heap, onLoad);
    }

    /**
     * Init as evidently intended: the current slot is loaded only when it
     * exists, so a first run starts from an empty save file without an exception.
     */
    method InitChecked(tt: Table, decodes: bool, registry: map<Guid, ObjId>, heap: AssetHeap,
                       onLoad: map<ObjId, Asset> -> map<ObjId, Asset>) returns (threw: bool)
      modifies this, heap
      ensures old(file).None? ==> !threw && saveStates == [] && file == Some([]) && heap.assets == old(heap.assets)
      ensures !threw && 0 <= currentSlotIndex < |saveStates| ==> exists restored ::
                && RestoredSlot(tt, registry, old(heap.assets), saveStates[currentSlotIndex].savedData, restored)
                && heap.assets == onLoad(restored)
    {
      threw := LoadSaveFile(tt, decodes, registry, heap);
      if threw { return; }
      if 0 <= currentSlotIndex < |saveStates| {
        threw := LoadAsync(tt, currentSlotIndex, registry, heap, onLoad);
      }
    }
  }

  /**
   * The slots after storing `state` at a non-negative index: appended when
   * the index is at or past the end, replacing that slot otherwise.
   */
  function Stored(slots: seq<SaveState>, index: nat, state: SaveState): (r: seq<SaveState>)
    ensures index >= |slots| ==> |r| == |slots| + 1 && r[..|slots|] == slots && r[|slots|] == state
    ensures index < |slots| ==>
              && |r| == |slots| && r[index] == state
              && forall i :: 0 <= i < |slots| && i != index ==> r[i] == slots[i]
  {
    if index >= |slots| then slots + [state] else slots[index := state]
  }

  /** Slot objects in a distinct fresh SaveState per slot image, as deserialisation creates them. */
  method NewStates(images: seq<SlotImage>) returns (states: seq<SaveState>)
    ensures Image(states) == images
    ensures forall j :: 0 <= j < |states| ==> fresh(states[j])
    ensures Distinct(states)
  {
    states := [];
    var i := 0;
    while i < |images|
      invariant 0 <= i <= |images|
      invariant |states| == i
      invariant forall j :: 0 <= j < i ==> fresh(states[j]) && states[j].savedData == images[j]
      invariant Distinct(states)
    {
      var s := new SaveState(images[i]);
      states := states + [s];
      i := i + 1;
    }
  }

  predicate Distinct(states: seq<SaveState>)
  {
    forall j, k :: 0 <= j < k < |states| ==> states[j] != states[k]
  }

  /**
   * A slot after a complete rehydration: it holds a runtime copy for exactly
   * the entries that resolve to an ISaveable asset and have data, and each is
   * that asset renamed with the entry's data restored into it.
   */
  ghost predicate Rehydrated(tt: Table, registry: map<Guid, ObjId>, assets: map<ObjId, Asset>, s: SaveState)
    reads s
  {
    && (forall g :: g in s.runtimeInstances <==> Rehydratable(registry, assets, s.savedData, g))
    && forall g :: g in s.runtimeInstances ==>
         s.runtimeInstances[g] == RuntimeCopy(tt, Lookup(registry, assets, g).value, s.savedData[g].value)
  }

  /** Some entry of the slot resolves to an ISaveable asset whose RestoreState throws. */
  ghost predicate RehydrationThrows(tt: Table, registry: map<Guid, ObjId>, assets: map<ObjId, Asset>, saved: map<Guid, Option<Snapshot>>)
  {
    exists g :: Rehydratable(registry, assets, saved, g) && Restore(tt, Lookup(registry, assets, g).value, saved[g]).threw
  }

  /** The rehydration loop of LoadSaveFile: slots in order, the first exception ending the loop. */
  method RehydrateAll(tt: Table, states: seq<SaveState>, registry: map<Guid, ObjId>, heap: AssetHeap) returns (threw: bool)
    requires Distinct(states)
    modifies set s | s in states
    ensures !threw ==> forall i :: 0 <= i < |states| ==> Rehydrated(tt, registry, heap.assets, states[i])
    ensures threw ==> exists i :: 0 <= i < |states| && RehydrationThrows(tt, registry, heap.assets, states[i].savedData)
  {
    threw := false;
    var i := 0;
    while i < |states|
      invariant 0 <= i <= |states|
      invariant forall j :: 0 <= j < i ==> Rehydrated(tt, registry, heap.assets, states[j])
    {
      var slotThrew := states[i].RehydrateToRuntimeInstances(tt, registry, heap);
      if slotThrew {
        threw := true;
        return;
      }
      i := i + 1;
    }
  }

  /** Saved entry `g` restores asset `id`: the reference resolves to it and it is ISaveable. */
  predicate Targets(registry: map<Guid, ObjId>, assets: map<ObjId, Asset>, saved: SlotImage, g: Guid, id: ObjId)
  {
    g in saved && g in registry && registry[g] == id && id in assets && assets[id].saveable
  }

  /** `data` holds one entry per GUID of a tracked saveable SerializableScriptableObject, its ExtractSaveData snapshot. */
  ghost predicate Captured(tt: Table, assets: map<ObjId, Asset>, tracked: set<ObjId>, data: SlotImage)
  {
    && (forall g :: g in data <==> exists id :: CapturedBy(assets, tracked, g, id))
    && (forall g :: g in data ==>
          exists id :: CapturedBy(assets, tracked, g, id)
                       && data[g] == Some(ExtractSaveData(tt, assets[id].typ, assets[id].fields)))
  }

  /** One callback per id, in set-iteration order. */
  method CallEach(ids: set<ObjId>, onSave: bool) returns (calls: seq<Call>)
    ensures OneCallEach(calls, ids, onSave)
  {
    calls := [];
    var todo := ids;
    while todo != {}
      invariant todo <= ids
      invariant |calls| + |todo| == |ids|
      invariant forall c :: c in calls ==> (if onSave then c.OnSaveCall? else c.OnLoadCall?) && c.id in ids - todo
      invariant forall id :: id in ids - todo ==> (if onSave then OnSaveCall(id) else OnLoadCall(id)) in calls
      decreases todo
    {
      var item :| item in todo;
      calls := calls + [if onSave then OnSaveCall(item) else OnLoadCall(item)];
      todo := todo - {item};
    }
  }

  /** The capture loop of SaveAsync. */
  method Capture(tt: Table, assets: map<ObjId, Asset>, tracked: set<ObjId>) returns (data: SlotImage, captures: seq<Call>)
    ensures Captured(tt, assets, tracked, data)
    ensures forall c :: c in captures ==> c.CaptureCall? && c.id in tracked
  {
    data := map[];
    captures := [];
    var todo := tracked;
    while todo != {}
      invariant todo <= tracked
      invariant forall c :: c in captures ==> c.CaptureCall? && c.id in tracked
      invariant forall g :: g in data <==> exists id :: id !in todo && CapturedBy(assets, tracked, g, id)
      invariant forall g :: g in data ==>
                  exists id :: CapturedBy(assets, tracked, g, id)
                               && data[g] == Some(ExtractSaveData(tt, assets[id].typ, assets[id].fields))
      decreases todo
    {
      var saveable :| saveable in todo;
      todo := todo - {saveable};
      if saveable in assets && assets[saveable].saveable {
        var so := assets[saveable];
        data := data[so.guid := Some(ExtractSaveData(tt, so.typ, so.fields))];
        captures := captures + [CaptureCall(saveable)];
      }
    }
  }

  /**
   * After restoring a slot: an asset no entry targets is untouched, and an
   * asset exactly one entry targets holds that entry's restored fields
   * (the fields RestoreState leaves, also when it threw part-way).
   */
  ghost predicate RestoredSlot(tt: Table, registry: map<Guid, ObjId>, before: map<ObjId, Asset>, saved: SlotImage, after: map<ObjId, Asset>)
  {
    && after.Keys == before.Keys
    && (forall id :: id in before && (forall g :: !Targets(registry, before, saved, g, id)) ==> after[id] == before[id])
    && (forall id, g :: id in before && Targets(registry, before, saved, g, id) && OnlyTarget(registry, before, saved, g, id) ==>
          after[id] == before[id].(fields := Restore(tt, before[id], saved[g]).fields))
  }

  ghost predicate OnlyTarget(registry: map<Guid, ObjId>, assets: map<ObjId, Asset>, saved: SlotImage, g: Guid, id: ObjId)
  {
    forall g' :: Targets(registry, assets, saved, g', id) ==> g' == g
  }

  /** One entry of the restore loop: the asset its GUID resolves to, if saveable, gets its restored fields. */
  function RestoreOne(tt: Table, registry: map<Guid, ObjId>, saved: SlotImage, assets: map<ObjId, Asset>, g: Guid): map<ObjId, Asset>
    requires g in saved
  {
    if g in registry && registry[g] in assets && assets[registry[g]].saveable then
      var id := registry[g];
      assets[id := assets[id].(fields := Restore(tt, assets[id], saved[g]).fields)]
    else assets
  }

  /**
   * The restore loop part-way, with the entries `todo` still to go: the
   * same assets of the same types, an asset no processed entry targets as
   * it was, and one only a processed entry targets restored from it.
   */
  ghost predicate SlotProgress(tt: Table, registry: map<Guid, ObjId>, start: map<ObjId, Asset>, saved: SlotImage,
                               todo: set<Guid>, assets: map<ObjId, Asset>)
  {
    && todo <= saved.Keys
    && SameAssets(start, assets)
    && Untouched(registry, start, saved, todo, assets)
    && RestoredFrom(tt, registry, start, saved, todo, assets)
  }

  ghost predicate SameAssets(start: map<ObjId, Asset>, assets: map<ObjId, Asset>)
  {
    && assets.Keys == start.Keys
    && (forall id :: id in start ==> assets[id].typ == start[id].typ && assets[id].saveable == start[id].saveable)
  }

  ghost predicate Untouched(registry: map<Guid, ObjId>, start: map<ObjId, Asset>, saved: SlotImage,
                            todo: set<Guid>, assets: map<ObjId, Asset>)
    requires assets.Keys == start.Keys
  {
    forall id :: id in start && (forall g :: g in todo || !Targets(registry, start, saved, g, id)) ==> assets[id] == start[id]
  }

  ghost predicate RestoredFrom(tt: Table, registry: map<Guid, ObjId>, start: map<ObjId, Asset>, saved: SlotImage,
                               todo: set<Guid>, assets: map<ObjId, Asset>)
    requires assets.Keys == start.Keys
  {
    forall id, g :: id in start && g !in todo && Targets(registry, start, saved, g, id) && OnlyTarget(registry, start, saved, g, id) ==>
      assets[id] == start[id].(fields := Restore(tt, start[id], saved[g]).fields)
  }

  lemma SlotStep(tt: Table, registry: map<Guid, ObjId>, start: map<ObjId, Asset>, saved: SlotImage,
                 todo: set<Guid>, assets: map<ObjId, Asset>, g: Guid)
    requires SlotProgress(tt, registry, start, saved, todo, assets) && g in todo
    ensures SlotProgress(tt, registry, start, saved, todo - {g}, RestoreOne(tt, registry, saved, assets, g))
  {
    if g in registry && registry[g] in assets && assets[registry[g]].saveable {
      var t := registry[g];
      var next := RestoreOne(tt, registry, saved, assets, g);
      assert start[t].saveable;
      if OnlyTarget(registry, start, saved, g, t) {
        assert forall h :: h in todo || !Targets(registry, start, saved, h, t);
      }
      SlotStepUntouched(registry, start, saved, todo, assets, g, next);
      SlotStepRestored(tt, registry, start, saved, todo, assets, g, next);
    }
  }

  /** Restoring the target of `g` leaves every asset no remaining entry reaches as it was. */
  lemma SlotStepUntouched(registry: map<Guid, ObjId>, start: map<ObjId, Asset>, saved: SlotImage,
                          todo: set<Guid>, assets: map<ObjId, Asset>, g: Guid, next: map<ObjId, Asset>)
    requires assets.Keys == start.Keys && Untouched(registry, start, saved, todo, assets) && g in todo
    requires g in registry && registry[g] in assets && g in saved && start[registry[g]].saveable
    requires next.Keys == assets.Keys && forall id :: id in assets && id != registry[g] ==> next[id] == assets[id]
    ensures Untouched(registry, start, saved, todo - {g}, next)
  {
    var t := registry[g];
    var rest := todo - {g};
    forall id | id in start && (forall h :: h in rest || !Targets(registry, start, saved, h, id))
      ensures next[id] == start[id]
    {
      if id == t {
        assert Targets(registry, start, saved, g, t);
      }
    }
  }

  /** Restoring the target of `g` from `g`'s entry makes `g` a processed entry. */
  lemma SlotStepRestored(tt: Table, registry: map<Guid, ObjId>, start: map<ObjId, Asset>, saved: SlotImage,
                         todo: set<Guid>, assets: map<ObjId, Asset>, g: Guid, next: map<ObjId, Asset>)
    requires assets.Keys == start.Keys && RestoredFrom(tt, registry, start, saved, todo, assets) && g in todo
    requires g in registry && registry[g] in assets && g in saved
    requires next.Keys == assets.Keys && forall id :: id in assets && id != registry[g] ==> next[id] == assets[id]
    requires OnlyTarget(registry, start, saved, g, registry[g]) ==>
               next[registry[g]] == start[registry[g]].(fields := Restore(tt, start[registry[g]], saved[g]).fields)
    ensures RestoredFrom(tt, registry, start, saved, todo - {g}, next)
  {
    var t := registry[g];
    var rest := todo - {g};
    forall id, h | id in start && h !in rest && Targets(registry, start, saved, h, id) && OnlyTarget(registry, start, saved, h, id)
      ensures next[id] == start[id].(fields := Restore(tt, start[id], saved[h]).fields)
    {
      if id == t {
        assert Targets(registry, start, saved, g, t);
      }
    }
  }

  lemma SlotDone(tt: Table, registry: map<Guid, ObjId>, start: map<ObjId, Asset>, saved: SlotImage, assets: map<ObjId, Asset>)
    requires SlotProgress(tt, registry, start, saved, {}, assets)
    ensures RestoredSlot(tt, registry, start, saved, assets)
  {
  }

  method RestoreSlot(tt: Table, saved: SlotImage, registry: map<Guid, ObjId>, heap: AssetHeap)
    modifies heap
    ensures RestoredSlot(tt, registry, old(heap.assets), saved, heap.assets)
  {
    var todo := saved.Keys;
    var start := heap.assets;
    var assets := start;
    while todo != {}
      invariant SlotProgress(tt, registry, start, saved, todo, assets)
      decreases todo
    {
      var g :| g in todo;
      SlotStep(tt, registry, start, saved, todo, assets, g);
      todo := todo - {g};
      if g in registry && registry[g] in assets && assets[registry[g]].saveable {
        var id := registry[g];
        var restored := Restore(tt, assets[id], saved[g]);
        assets := assets[id := assets[id].(fields := restored.fields)];
      }
    }
    SlotDone(tt, registry, start, saved, assets);
    heap.assets := assets;
  }
}

/**
 * The per-slot save manager (SaveDataManager.cs): each ISaveable hands over a
 * SaveDataContainer, stored under its GUID in the map of the current slot and
 * written to that slot's own file.
 *
 * A container's contents are opaque here. The files on disk are `files`
 * (slot key to the stored map); whether a file deserialises is a parameter
 * of LoadAsync. Callbacks and the static events are recorded in `log`.
 */
module SaveManager {
  import opened Wrappers

  type Guid = string
  type ObjId = nat

  /** A SaveDataContainer; what a concrete subclass holds is opaque to the manager. */
  datatype Container = Container(payload: seq<int>)

  type DataMap = map<Guid, Container>

  datatype Event =
    | Wrote(slot: int)
    | OnSaveCall(id: ObjId)
    | DataSaved
    | LoadFailed(id: ObjId)
    | OnLoadCall(id: ObjId)
    | DataLoaded
    | NoSaveFile(slot: int)

  /** The ISaveable objects of the game: each one's GUID and the state GetSaveData reports. */
  class Saveables {
    const guid: map<ObjId, Guid>
    var state: map<ObjId, Container>

    constructor (guid: map<ObjId, Guid>, state: map<ObjId, Container>)
      ensures this.guid == guid && this.state == state
    {
      this.guid := guid;
      this.state := state;
    }

    predicate Covers(ids: seq<ObjId>)
      reads this
    {
      forall id :: id in ids ==> id in guid && id in state
    }
  }

  /**
   * The slot map after collecting `ids` in order into `base`: each saveable's
   * container stored under its GUID, a later saveable overwriting an earlier one.
   */
  function Collect(base: DataMap, ids: seq<ObjId>, guid: map<ObjId, Guid>, state: map<ObjId, Container>): DataMap
    requires forall id :: id in ids ==> id in guid && id in state
  {
    if ids == [] then base
    else
      var last := ids[|ids| - 1];
      Collect(base, ids[..|ids| - 1], guid, state)[guid[last] := state[last]]
  }

  /** The OnSave (or OnLoad) call on one saveable. */
  function Call(id: ObjId, onSave: bool): Event
  {
    if onSave then OnSaveCall(id) else OnLoadCall(id)
  }

  /** Every call of one kind, one per entry of `ids`, in order. */
  function Calls(ids: seq<ObjId>, onSave: bool): seq<Event>
  {
    seq(|ids|, i requires 0 <= i < |ids| => Call(ids[i], onSave))
  }

  class SaveDataManager {
    var availableSaveables: Option<seq<ObjId>>
    var slotKey: int
    var saveSlots: map<int, DataMap>
    var files: map<int, DataMap>
    var log: seq<Event>

    constructor (files: map<int, DataMap>)
      ensures availableSaveables == None && slotKey == 0 && saveSlots == map[]
      ensures this.files == files && log == []
    {
      availableSaveables := None;
      slotKey := 0;
      saveSlots := map[];
      this.files := files;
      log := [];
    }

    /** LocateSaveables: the saveable ScriptableObjects the registry reports, as an array. */
    method LocateSaveables(found: seq<ObjId>)
      modifies this`availableSaveables
      ensures availableSaveables == Some(found)
    {
      availableSaveables := Some(found);
    }

    /** Init only locates the saveables. */
    method Init(found: seq<ObjId>)
      modifies this`availableSaveables
      ensures availableSaveables == Some(found)
    {
      LocateSaveables(found);
    }

    /** OnSceneStopped drops the array; saving or loading before Init throws. */
    method OnSceneStopped()
      modifies this`availableSaveables
      ensures availableSaveables == None
    {
      availableSaveables := None;
    }

    /**
     * SaveAsync: the current slot's map is created if missing; then every
     * saveable's container is stored under its GUID (older entries of other
     * GUIDs are kept), the map is written to the slot's file, OnSave runs on
     * each saveable in order and OnDataSaved is raised. With no array
     * located the collection throws, after the empty slot was created.
     */
    method SaveAsync(heap: Saveables) returns (threw: bool)
      requires availableSaveables.Some? ==> heap.Covers(availableSaveables.value)
      modifies this`saveSlots, this`files, this`log
      ensures slotKey in saveSlots
      ensures threw <==> availableSaveables.None?
      ensures threw ==>
                && saveSlots == old(saveSlots)[slotKey := if slotKey in old(saveSlots) then old(saveSlots)[slotKey] else map[]]
                && files == old(files) && log == old(log)
      ensures !threw ==>
                var base := if slotKey in old(saveSlots) then old(saveSlots)[slotKey] else map[];
                var saved := Collect(base, availableSaveables.value, heap.guid, heap.state);
                && saveSlots == old(saveSlots)[slotKey := saved]
                && files == old(files)[slotKey := saved]
                && log == old(log) + [Wrote(slotKey)] + Calls(availableSaveables.value, true) + [DataSaved]
    {
      var currentSave: DataMap;
      if slotKey in saveSlots {
        currentSave := saveSlots[slotKey];
      } else {
        currentSave := map[];
        saveSlots := saveSlots[slotKey := currentSave];
      }
      if availableSaveables.None? {
        threw := true;
        return;
      }
      threw := false;
      var ids := availableSaveables.value;
      currentSave := CollectInto(currentSave, ids, heap.guid, heap.state);
      OverwriteSlot(old(saveSlots), saveSlots, slotKey, currentSave);
      saveSlots := saveSlots[slotKey := currentSave];
      files := files[slotKey := currentSave];
      log := log + [Wrote(slotKey)];
      var saves := Notify(ids, true);
      log := log + saves + [DataSaved];
    }

    /**
     * LoadAsync: a missing slot file only logs a warning, and a file that
     * does not deserialise stops the load. Otherwise each saveable whose GUID
     * is in the file gets that container through LoadSaveData (a saveable in
     * `failing` throws there, which is caught and leaves it as it was), then
     * OnLoad runs on each saveable in order and OnDataLoaded is raised.
     */
    method LoadAsync(heap: Saveables, decodes: bool, failing: set<ObjId>) returns (threw: bool)
      requires availableSaveables.Some? ==> heap.Covers(availableSaveables.value)
      modifies heap, this`log
      ensures threw <==> slotKey in files && decodes && availableSaveables.None?
      ensures slotKey !in files ==> heap.state == old(heap.state) && log == old(log) + [NoSaveFile(slotKey)]
      ensures slotKey in files && (!decodes || threw) ==> heap.state == old(heap.state) && log == old(log)
      ensures slotKey in files && decodes && !threw ==>
                var ids := availableSaveables.value;
                var loaded := files[slotKey];
                && heap.state.Keys == old(heap.state).Keys
                && (forall id :: id in ids && id !in failing && heap.guid[id] in loaded ==> heap.state[id] == loaded[heap.guid[id]])
                && (forall id :: id in old(heap.state) && (id !in ids || id in failing || heap.guid[id] !in loaded) ==>
                      heap.state[id] == old(heap.state)[id])
                && log == old(log) + Failures(ids, failing, heap.guid, loaded) + Calls(ids, false) + [DataLoaded]
    {
      threw := false;
      if slotKey !in files {
        log := log + [NoSaveFile(slotKey)];
        return;
      }
      if !decodes { return; }
      var loaded := files[slotKey];
      if availableSaveables.None? {
        threw := true;
        return;
      }
      var ids := availableSaveables.value;
      var st, failures := RestoreEach(heap.guid, heap.state, ids, loaded, failing);
      RestoreRestores(heap.state, ids, failing, heap.guid, loaded);
      heap.state := st;
      log := log + failures;
      var loads := Notify(ids, false);
      log := log + loads + [DataLoaded];
    }
  }

  /** Storing a slot again overrides whatever an earlier store of that slot put there. */
  lemma OverwriteSlot(before: map<int, DataMap>, now: map<int, DataMap>, k: int, v: DataMap)
    requires now == before || (k in now && now == before[k := now[k]])
    ensures now[k := v] == before[k := v]
  {
    if now != before {
      assert now[k := v] == before[k := now[k]][k := v];
    }
  }

  /** The collection loop of SaveAsync. */
  method CollectInto(base: DataMap, ids: seq<ObjId>, guid: map<ObjId, Guid>, state: map<ObjId, Container>) returns (m: DataMap)
    requires forall id :: id in ids ==> id in guid && id in state
    ensures m == Collect(base, ids, guid, state)
  {
    m := base;
    var i := 0;
    while i < |ids|
      invariant 0 <= i <= |ids|
      invariant m == Collect(base, ids[..i], guid, state)
    {
      assert ids[..i + 1][..i] == ids[..i];
      m := m[guid[ids[i]] := state[ids[i]]];
      i := i + 1;
    }
    assert ids[..|ids|] == ids;
  }

  /** A notification loop: OnSave (or OnLoad) on each saveable in order. */
  method Notify(ids: seq<ObjId>, onSave: bool) returns (calls: seq<Event>)
    ensures calls == Calls(ids, onSave)
  {
    calls := [];
    var i := 0;
    while i < |ids|
      invariant 0 <= i <= |ids|
      invariant |calls| == i && forall k :: 0 <= k < i ==> calls[k] == Call(ids[k], onSave)
    {
      calls := calls + [if onSave then OnSaveCall(ids[i]) else OnLoadCall(ids[i])];
      i := i + 1;
    }
  }

  /**
   * The restore loop of LoadAsync, each LoadSaveData failure caught and
   * logged: the saveables' states `st0` become `st`.
   */
  method RestoreEach(guid: map<ObjId, Guid>, st0: map<ObjId, Container>, ids: seq<ObjId>, loaded: DataMap, failing: set<ObjId>)
    returns (st: map<ObjId, Container>, failures: seq<Event>)
    requires forall id :: id in ids ==> id in guid && id in st0
    ensures st == Restore(st0, ids, failing, guid, loaded)
    ensures failures == Failures(ids, failing, guid, loaded)
  {
    st := st0;
    failures := [];
    var i := 0;
    while i < |ids|
      invariant 0 <= i <= |ids|
      invariant st == Restore(st0, ids[..i], failing, guid, loaded)
      invariant failures == Failures(ids[..i], failing, guid, loaded)
    {
      var id := ids[i];
      RestoreNext(st0, ids, i, failing, guid, loaded);
      if guid[id] in loaded {
        if id in failing {
          failures := failures + [LoadFailed(id)];
        } else {
          st := st[id := loaded[guid[id]]];
        }
      }
      i := i + 1;
    }
    assert ids[..|ids|] == ids;
  }

  /**
   * The saveables' states after restoring `ids` in order from `loaded`: a
   * saveable whose GUID has data takes it, unless its LoadSaveData fails.
   */
  function Restore(st0: map<ObjId, Container>, ids: seq<ObjId>, failing: set<ObjId>,
                   guid: map<ObjId, Guid>, loaded: DataMap): map<ObjId, Container>
  {
    if ids == [] then st0
    else
      var last := ids[|ids| - 1];
      var st := Restore(st0, ids[..|ids| - 1], failing, guid, loaded);
      if last in guid && guid[last] in loaded && last !in failing then st[last := loaded[guid[last]]] else st
  }

  /** The loop of RestoreEach takes one step of Restore and of Failures. */
  lemma RestoreNext(st0: map<ObjId, Container>, ids: seq<ObjId>, i: nat, failing: set<ObjId>,
                    guid: map<ObjId, Guid>, loaded: DataMap)
    requires i < |ids| && ids[i] in guid
    ensures var id := ids[i];
            var st := Restore(st0, ids[..i], failing, guid, loaded);
            && Restore(st0, ids[..i + 1], failing, guid, loaded)
               == (if guid[id] in loaded && id !in failing then st[id := loaded[guid[id]]] else st)
            && Failures(ids[..i + 1], failing, guid, loaded)
               == Failures(ids[..i], failing, guid, loaded) + (if id in failing && guid[id] in loaded then [LoadFailed(id)] else [])
  {
    assert ids[..i + 1][..i] == ids[..i];
  }

  /**
   * The state after restoring the saveables `done` from `loaded`: same
   * objects, each restored one holds its loaded container, all others
   * (not yet reached, failing, or without data) as they were.
   */
  ghost predicate Restored(st: map<ObjId, Container>, st0: map<ObjId, Container>, done: seq<ObjId>,
                           failing: set<ObjId>, guid: map<ObjId, Guid>, loaded: DataMap)
  {
    && st.Keys == st0.Keys
    && (forall id :: id in done && id !in failing && id in guid && guid[id] in loaded ==> id in st && st[id] == loaded[guid[id]])
    && (forall id :: id in st0 && (id !in done || id in failing || id !in guid || guid[id] !in loaded) ==> st[id] == st0[id])
  }

  /**
   * Restore meets Restored: every saveable with data and a working
   * LoadSaveData holds its loaded container, every other keeps its state.
   */
  lemma {:induction false} RestoreRestores(st0: map<ObjId, Container>, ids: seq<ObjId>, failing: set<ObjId>,
                                           guid: map<ObjId, Guid>, loaded: DataMap)
    requires forall id :: id in ids ==> id in st0
    ensures Restored(Restore(st0, ids, failing, guid, loaded), st0, ids, failing, guid, loaded)
  {
    if ids != [] {
      var init := ids[..|ids| - 1];
      var last := ids[|ids| - 1];
      assert ids == init + [last];
      RestoreRestores(st0, init, failing, guid, loaded);
    }
  }

  /** The caught LoadSaveData failures, in order: saveables in `failing` whose GUID has data. */
  function Failures(ids: seq<ObjId>, failing: set<ObjId>, guid: map<ObjId, Guid>, loaded: DataMap): seq<Event>
  {
    if ids == [] then []
    else
      var last := ids[|ids| - 1];
      Failures(ids[..|ids| - 1], failing, guid, loaded)
        + (if last in failing && last in guid && guid[last] in loaded then [LoadFailed(last)] else [])
  }

  /** Only saveables in `failing` whose GUID has data are logged as failures. */
  lemma {:induction false} FailuresAreCaught(ids: seq<ObjId>, failing: set<ObjId>, guid: map<ObjId, Guid>, loaded: DataMap)
    ensures forall e :: e in Failures(ids, failing, guid, loaded) ==>
              e.LoadFailed? && e.id in ids && e.id in failing && e.id in guid && guid[e.id] in loaded
  {
    if ids != [] {
      var init := ids[..|ids| - 1];
      FailuresAreCaught(init, failing, guid, loaded);
      forall e | e in Failures(ids, failing, guid, loaded)
        ensures e.LoadFailed? && e.id in ids && e.id in failing && e.id in guid && guid[e.id] in loaded
      {
        if e in Failures(init, failing, guid, loaded) {
          assert e.id in init;
        }
      }
    }
  }

  /** The stored map holds the old entries plus one entry per collected saveable's GUID. */
  lemma {:induction false} CollectKeys(base: DataMap, ids: seq<ObjId>, guid: map<ObjId, Guid>, state: map<ObjId, Container>)
    requires forall id :: id in ids ==> id in guid && id in state
    ensures Collect(base, ids, guid, state).Keys == base.Keys + set id | id in ids :: guid[id]
  {
    if ids != [] {
      var init := ids[..|ids| - 1];
      var last := ids[|ids| - 1];
      CollectKeys(base, init, guid, state);
      assert ids == init + [last];
      assert (set id | id in ids :: guid[id]) == (set id | id in init :: guid[id]) + {guid[last]};
    }
  }

  /**
   * Last write wins: the entry under a saveable's GUID is its own container
   * when every later saveable with that GUID reports the same container.
   */
  lemma {:induction false} CollectAt(base: DataMap, ids: seq<ObjId>, guid: map<ObjId, Guid>, state: map<ObjId, Container>, i: nat)
    requires forall id :: id in ids ==> id in guid && id in state
    requires i < |ids|
    requires forall j :: i < j < |ids| && guid[ids[j]] == guid[ids[i]] ==> state[ids[j]] == state[ids[i]]
    ensures guid[ids[i]] in Collect(base, ids, guid, state)
    ensures Collect(base, ids, guid, state)[guid[ids[i]]] == state[ids[i]]
  {
    var init := ids[..|ids| - 1];
    if i < |ids| - 1 {
      CollectAt(base, init, guid, state, i);
    }
  }

  /** An old entry survives when no collected saveable has its GUID. */
  lemma {:induction false} CollectKeepsOld(base: DataMap, ids: seq<ObjId>, guid: map<ObjId, Guid>, state: map<ObjId, Container>, g: Guid)
    requires forall id :: id in ids ==> id in guid && id in state
    requires g in base && forall id :: id in ids ==> guid[id] != g
    ensures g in Collect(base, ids, guid, state) && Collect(base, ids, guid, state)[g] == base[g]
  {
    if ids != [] {
      CollectKeepsOld(base, ids[..|ids| - 1], guid, state, g);
    }
  }

  /** No two different saveables share a GUID. */
  predicate GuidsUnique(ids: seq<ObjId>, guid: map<ObjId, Guid>)
    requires forall id :: id in ids ==> id in guid
  {
    forall i, j :: 0 <= i < |ids| && 0 <= j < |ids| && guid[ids[i]] == guid[ids[j]] ==> ids[i] == ids[j]
  }

  /**
   * Save then load round trip: with unique GUIDs the saved map holds every
   * saveable's own container under its GUID, which LoadAsync hands back to it.
   */
  lemma SavedMapHoldsEachState(base: DataMap, ids: seq<ObjId>, guid: map<ObjId, Guid>, state: map<ObjId, Container>)
    requires forall id :: id in ids ==> id in guid && id in state
    requires GuidsUnique(ids, guid)
    ensures forall id :: id in ids ==>
              guid[id] in Collect(base, ids, guid, state) && Collect(base, ids, guid, state)[guid[id]] == state[id]
  {
    forall id | id in ids
      ensures guid[id] in Collect(base, ids, guid, state) && Collect(base, ids, guid, state)[guid[id]] == state[id]
    {
      var i :| 0 <= i < |ids| && ids[i] == id;
      CollectAt(base, ids, guid, state, i);
    }
  }
}

# Save/restore engine and ScriptableObject framework of a Unity game, in Dafny

This project models the gameplay core of a Unity game. The game's logic sits on a
framework of ScriptableObject assets: event and action channels, runtime sets,
constant-or-variable value references, and missions made of objectives and
requirements. At its centre is a generic engine that saves and restores an
object graph:

- **SaveUtility** turns an object into a nested dictionary of its saveable
  fields and applies such a dictionary back onto an object. It filters
  fields by `[Save]`/`[DontSave]`, writes a `$type` entry, and restores
  lists, dictionaries and nested objects.
- **SaveState** captures one object under its GUID.
- **SaveDataManager** and **SaveDataManagerSO** keep the save slots in a
  save file. They capture every registered object into a slot and restore
  a slot.
- **GUID references** (`ObjectReference`, `MonoBehaviourRegistry`,
  `ScriptableObjectManager`) give each MonoBehaviour and ScriptableObject a
  stable GUID. Restored data finds its objects again through these GUIDs.

Around this core the model covers:

- the inventory and trading of products;
- the mission data manager and the objectives;
- three editor tools:
  - the generic asset-selector drawer;
  - the scene icon database;
  - the ScriptableObject explorer window.

Each source file becomes one Dafny module, in the form the source takes:

- Classes whose fields the source updates in place become Dafny classes.
  Their methods carry `modifies` clauses, and their loops carry invariants.
- Pure logic becomes datatypes and functions.
- What each operation promises is stated against specification functions,
  and lemmas prove it about them.

The engine's services are parameters of the model:

- reflection, as a class table or type table;
- the asset database and the registries, as maps;
- file I/O and serialisation, as the contents of the save file and whether
  it decodes;
- GUID generation, as an oracle.

A thrown exception becomes a flag or an error value, together with the
state reached when it was thrown.

Where the engine's design intent and its code differ, the model follows the code:

- A restored list is cleared and rebuilt in saved order. Existing elements
  are not merged into, so a list of complex elements keeps only the saved
  items that are maps.
- A `$type` that names an abstract or constructor-less type throws, and so
  does a value of the wrong type for its field. Neither is skipped.
- A nested object whose `$type` names another type is not replaced: a
  replacement is filled and its fields are copied onto the existing object.
  When the named type has a field the object's type lacks, as a subclass
  with fields of its own does, that copy throws. List items are created at
  their `$type` directly and are not affected.
- A dictionary is restored shallowly.
- A save file that does not decode leaves the slots unchanged.
- A first run with no save file throws (see Findings).

## Model

| member | source | states |
|---|---|---|
| GuidRegistry.Get | Assets/_Assets/Scripts/SceneManagement/MonoBehaviouRegistry.cs:123 | a bucket lookup succeeds exactly when the bucket holds the GUID, and then returns the object stored under it |
| GuidRegistry.At | Assets/_Assets/Scripts/ScriptableObjectMaagement/ScriptableObjectManager.cs:74-76 | `registry[type][guid]` found only when a bucket of exactly that type stores the object under that GUID |
| GuidRegistry.Assigned | Assets/_Assets/Scripts/ScriptableObjectMaagement/ScriptableObjectManager.cs:56-62 | a scan writes a GUID to exactly the IGuidAssets whose GUID was empty, and every written GUID is the freshly drawn, non-empty one |
| GuidRegistry.FindTyped | Assets/_Assets/Scripts/ScriptableObjectMaagement/ScriptableObjectManager.cs:87-102 | lookup by GUID for T is null exactly when no T-assignable bucket holds the GUID; otherwise it is the entry of such a bucket |
| GuidRegistry.FindAny | Assets/_Assets/Scripts/ScriptableObjectMaagement/ScriptableObjectManager.cs:104-115 | untyped lookup is null exactly when no bucket holds the GUID; otherwise it is some bucket's entry under that GUID |
| GuidRegistry.AllObjects | Assets/_Assets/Scripts/ScriptableObjectMaagement/ScriptableObjectManager.cs:27 | `All` holds exactly the objects stored in some bucket |
| GuidRegistry.OfType | Assets/_Assets/Scripts/ScriptableObjectMaagement/ScriptableObjectManager.cs:117-139 | exactly the objects of buckets whose type is assignable to T |
| GuidRegistry.OfTypeHead | Assets/_Assets/Scripts/SceneManagement/MonoBehaviouRegistry.cs:69-80 | the first object OfType lists is the first entry of the first non-empty T-assignable bucket |
| GuidRegistry.FirstOfAssignable | Assets/_Assets/Scripts/SceneManagement/MonoBehaviouRegistry.cs:67-86 | null exactly when no T-assignable object is registered; otherwise the first entry of the first non-empty T-assignable bucket, every earlier T-assignable bucket being empty |
| GuidRegistry.BucketOf | Assets/_Assets/Scripts/ScriptableObjectMaagement/ScriptableObjectManager.cs:141-150 | the dictionary lookup by exact type finds a bucket exactly when one of that type exists, and it is that bucket |
| GuidRegistry.GetAppend | Assets/_Assets/Scripts/ScriptableObjectMaagement/ScriptableObjectManager.cs:74-81 | adding an entry to a bucket changes a lookup only for a GUID the bucket did not hold yet |
| GuidRegistry.RegisterValid | Assets/_Assets/Scripts/ScriptableObjectMaagement/ScriptableObjectManager.cs:53-83 | registering one object keeps the registry invariant: one bucket per type, none empty, GUIDs unique in a bucket, entries IGuidAssets of the bucket's type |
| GuidRegistry.RegisterTypes | Assets/_Assets/Scripts/ScriptableObjectMaagement/ScriptableObjectManager.cs:65-71 | registering creates a bucket only for the object's runtime type |
| GuidRegistry.RegisterAt | Assets/_Assets/Scripts/ScriptableObjectMaagement/ScriptableObjectManager.cs:73-81 | first wins: a slot `registry[type][guid]` is filled only when it was empty and the object is an IGuidAsset of that type; every other slot is unchanged |
| GuidRegistry.FirstScannedSnoc | Assets/_Assets/Scripts/ScriptableObjectMaagement/ScriptableObjectManager.cs:53-83 | the first scanned object for a type and GUID, extended by one more scanned object, is the earlier one when there was one |
| GuidRegistry.RegisterAllAt | Assets/_Assets/Scripts/ScriptableObjectMaagement/ScriptableObjectManager.cs:48-84 | after a scan each type and GUID resolves to its earlier registration if any, else to the first scanned IGuidAsset of that type with that (possibly assigned) GUID; duplicates are dropped |
| GuidRegistry.RegisterAllValid | Assets/_Assets/Scripts/ScriptableObjectMaagement/ScriptableObjectManager.cs:48-84 | a whole scan keeps the registry invariant |
| GuidRegistry.ScannedIsRegistered | Assets/_Assets/Scripts/ScriptableObjectMaagement/ScriptableObjectManager.cs:56-81 | every scanned IGuidAsset's type and GUID resolves to some object after the scan |
| GuidRegistry.FirstScannedFinds | Assets/_Assets/Scripts/ScriptableObjectMaagement/ScriptableObjectManager.cs:53-83 | every scanned IGuidAsset is found among the scan under its own type and GUID |
| ObjectFinding.FindObjectByGuid | Assets/_Assets/Scripts/SceneManagement/ObjectFinder.cs:7-35 | null for an empty GUID; otherwise the asset registry wins and the scene registry is consulted only when no asset has the GUID; null exactly when neither holds it |
| GuidAssets.AssignIfEmpty | Assets/_Assets/Scripts/Inventory/SerializableScriptableObject.cs:23-26 | an empty GUID becomes the drawn one and a present GUID is kept, so the result is never empty |
| GuidAssets.AssignIfEmptyIdempotent | Assets/_Assets/Scripts/Inventory/SerializableScriptableObject.cs:21-27 | assigning-if-empty twice keeps the GUID of the first call, whatever the second draws |
| GuidAssets.SerializableScriptableObject.constructor | Assets/_Assets/Scripts/Inventory/SerializableScriptableObject.cs:12 | the asset starts with the serialized GUID |
| GuidAssets.SerializableScriptableObject.AssignGuid | Assets/_Assets/Scripts/Inventory/SerializableScriptableObject.cs:15-18 | the GUID is replaced by the fresh one |
| GuidAssets.SerializableScriptableObject.OnValidaete | Assets/_Assets/Scripts/Inventory/SerializableScriptableObject.cs:21-27 | a GUID is assigned only when there is none |
| GuidAssets.SerializableScriptableObject.Reset | Assets/_Assets/Scripts/Inventory/SerializableScriptableObject.cs:30-36 | same as OnValidaete |
| GuidAssets.SerializableMonoBehaviour.constructor | Assets/_Assets/Scripts/Inventory/SerializableMonoBehaviour.cs:7 | the behaviour starts with the serialized GUID |
| GuidAssets.SerializableMonoBehaviour.AssignGuid | Assets/_Assets/Scripts/Inventory/SerializableMonoBehaviour.cs:10-13 | the GUID is replaced by the fresh one |
| GuidAssets.SerializableMonoBehaviour.OnValidate | Assets/_Assets/Scripts/Inventory/SerializableMonoBehaviour.cs:15-21 | a non-empty GUID is kept, an empty one filled |
| GuidAssets.SerializableMonoBehaviour.Reset | Assets/_Assets/Scripts/Inventory/SerializableMonoBehaviour.cs:23-29 | same as OnValidate |
| ScriptableObjectManagement.ScriptableObjectManager.constructor | Assets/_Assets/Scripts/ScriptableObjectMaagement/ScriptableObjectManager.cs:12 | the registry starts empty |
| ScriptableObjectManagement.ScriptableObjectManager.LoadAllAssets | Assets/_Assets/Scripts/ScriptableObjectMaagement/ScriptableObjectManager.cs:48-84 | the new registry is the old one with the loaded assets registered in load order (never cleared), and the GUIDs written are exactly those of IGuidAssets that had none |
| ScriptableObjectManagement.ScriptableObjectManager.GetAssetByGuidOf | Assets/_Assets/Scripts/ScriptableObjectMaagement/ScriptableObjectManager.cs:87-102 | null exactly when no T-assignable bucket holds the GUID; otherwise the entry of such a bucket |
| ScriptableObjectManagement.ScriptableObjectManager.GetAssetByGuid | Assets/_Assets/Scripts/ScriptableObjectMaagement/ScriptableObjectManager.cs:104-115 | null exactly when no bucket holds the GUID; otherwise some bucket's entry under it |
| ScriptableObjectManagement.ScriptableObjectManager.GetAssetsByType | Assets/_Assets/Scripts/ScriptableObjectMaagement/ScriptableObjectManager.cs:117-139 | exactly the registered assets of T-assignable buckets |
| ScriptableObjectManagement.ScriptableObjectManager.GetFirstAssetOfType | Assets/_Assets/Scripts/ScriptableObjectMaagement/ScriptableObjectManager.cs:141-150 | a new instance of T exactly when no bucket has type T; otherwise the first entry of the exact-T bucket |
| ScriptableObjectManagement.ScriptableObjectManager.GetSaveableScriptableObjects | Assets/_Assets/Scripts/ScriptableObjectMaagement/ScriptableObjectManager.cs:31-34 | exactly the registered assets that are ISaveable |
| ScriptableObjectManagement.ScriptableObjectManager.All | Assets/_Assets/Scripts/ScriptableObjectMaagement/ScriptableObjectManager.cs:27 | exactly the registered assets |
| ScriptableObjectManagement.Filter | Assets/_Assets/Scripts/ScriptableObjectMaagement/ScriptableObjectManager.cs:33 | `OfType<ISaveable>` keeps exactly the ISaveable objects |
| ScriptableObjectManagement.LoadKeepsEarlierEntries | Assets/_Assets/Scripts/ScriptableObjectMaagement/ScriptableObjectManager.cs:48-84 | a second load never displaces what the first load registered under a type and GUID |
| MonoRegistry.MonoBehaviouRegistry.constructor | Assets/_Assets/Scripts/SceneManagement/MonoBehaviouRegistry.cs:10 | the registry starts empty |
| MonoRegistry.MonoBehaviouRegistry.FindSerializableMonoBehaviours | Assets/_Assets/Scripts/SceneManagement/MonoBehaviouRegistry.cs:20-53 | the registry is cleared, then holds the scene's IGuidAssets registered in scan order, first GUID wins; the GUIDs written are exactly those of IGuidAssets that had none |
| MonoRegistry.MonoBehaviouRegistry.ClearRegistry | Assets/_Assets/Scripts/SceneManagement/MonoBehaviouRegistry.cs:56-59 | the registry is empty |
| MonoRegistry.MonoBehaviouRegistry.All | Assets/_Assets/Scripts/SceneManagement/MonoBehaviouRegistry.cs:12 | exactly the registered behaviours |
| MonoRegistry.MonoBehaviouRegistry.FindFirstObjectByType | Assets/_Assets/Scripts/SceneManagement/MonoBehaviouRegistry.cs:67-86 | null exactly when every T-assignable bucket is empty; otherwise the first entry of the first non-empty T-assignable bucket, every earlier T-assignable bucket being empty |
| MonoRegistry.MonoBehaviouRegistry.GetMonoByGuidOf | Assets/_Assets/Scripts/SceneManagement/MonoBehaviouRegistry.cs:95-111 | null exactly when no T-assignable bucket holds the GUID; otherwise the entry of such a bucket |
| MonoRegistry.MonoBehaviouRegistry.GetMonoByGuid | Assets/_Assets/Scripts/SceneManagement/MonoBehaviouRegistry.cs:119-131 | null exactly when no bucket holds the GUID; otherwise some bucket's entry under it |
| MonoRegistry.MonoBehaviouRegistry.GetMonosByType | Assets/_Assets/Scripts/SceneManagement/MonoBehaviouRegistry.cs:139-163 | exactly the behaviours of T-assignable buckets |
| MonoRegistry.ScanReplacesRegistry | Assets/_Assets/Scripts/SceneManagement/MonoBehaviouRegistry.cs:22-52 | after a scan a type and GUID resolve to the first object of that scan with them, so nothing from an earlier scene survives |
| MonoRegistry.FirstScannedIn | Assets/_Assets/Scripts/SceneManagement/MonoBehaviouRegistry.cs:24-46 | the object a scan registers under a type and GUID is one of the scanned objects |
| MonoRegistry.OfTypeCoversBucket | Assets/_Assets/Scripts/SceneManagement/MonoBehaviouRegistry.cs:145-153 | a non-empty T-assignable bucket contributes its objects to GetMonosByType<T> |
| GuidReferences.GuidHash | Assets/_Assets/Scripts/Serialization/ScriptableObjectReference.cs:64 | the hash is 0 exactly for a null GUID |
| GuidReferences.GuidComponent | Assets/_Assets/Scripts/SceneManagement/ObjectReference.cs:34 | `TryGetComponent<IGuidAsset>` finds a component of the object that is an IGuidAsset, and fails exactly when none is |
| GuidReferences.ComponentOf | Assets/_Assets/Scripts/Serialization/MonoReference.cs:18 | `GetComponent<T>` finds a T-assignable component of the object, and is null exactly when none is |
| GuidReferences.ScriptableObjectReference.Default | Assets/_Assets/Scripts/Serialization/ScriptableObjectReference.cs:20-24 | a new reference has an empty GUID, no drop-in and T's type name |
| GuidReferences.ScriptableObjectReference.FromValue | Assets/_Assets/Scripts/Serialization/ScriptableObjectReference.cs:41-45 | the reference takes the value's GUID and runtime type name |
| GuidReferences.ScriptableObjectReference.UpdateGUID | Assets/_Assets/Scripts/Serialization/ScriptableObjectReference.cs:27-40 | without a drop-in the GUID is unchanged; with one it becomes the drop-in's GUID |
| GuidReferences.ScriptableObjectReference.Value | Assets/_Assets/Scripts/Serialization/ScriptableObjectReference.cs:16 | the value is GetAssetByGuid<T> of the GUID; a null GUID throws exactly when some bucket is assignable to T |
| GuidReferences.ScriptableObjectReference.Equals | Assets/_Assets/Scripts/Serialization/ScriptableObjectReference.cs:47-50 | a null argument throws; otherwise true exactly when the GUIDs are equal |
| GuidReferences.ScriptableObjectReference.GetHashCode | Assets/_Assets/Scripts/Serialization/ScriptableObjectReference.cs:62-65 | the hash is 0 exactly when the GUID is null |
| GuidReferences.ScriptableObjectReference.EqualsObject | Assets/_Assets/Scripts/Serialization/ScriptableObjectReference.cs:57-60 | true exactly when the argument is a reference with an equal GUID; never throws |
| GuidReferences.ScriptableObjectReference.EqualsValue | Assets/_Assets/Scripts/Serialization/ScriptableObjectReference.cs:52-55 | throws exactly when resolving the value throws; otherwise true exactly when the resolved asset is the argument |
| GuidReferences.ScriptableObjectReference.ToString | Assets/_Assets/Scripts/Serialization/ScriptableObjectReference.cs:67 | the text is T's name followed by the GUID in parentheses, a null GUID printing as nothing |
| GuidReferences.SoReferenceHashConsistent | Assets/_Assets/Scripts/Serialization/ScriptableObjectReference.cs:47-65 | equal references have equal hash codes |
| GuidReferences.ObjectReference.Default | Assets/_Assets/Scripts/SceneManagement/ObjectReference.cs:22-26 | a new reference has an empty GUID, no name and no drop-in |
| GuidReferences.ObjectReference.UpdateGUID | Assets/_Assets/Scripts/SceneManagement/ObjectReference.cs:28-45 | without a drop-in, or with one lacking an IGuidAsset component, nothing changes; otherwise GUID and name are copied from the component and the drop-in |
| GuidReferences.ObjectReference.EqualsObject | Assets/_Assets/Scripts/SceneManagement/ObjectReference.cs:63 | true exactly when the other object is an IGuidAsset whose GUID equals this one |
| GuidReferences.ObjectReference.EqualsGuidAsset | Assets/_Assets/Scripts/SceneManagement/ObjectReference.cs:65 | a null argument throws; otherwise true exactly when the GUIDs are equal |
| GuidReferences.ObjectReference.Value | Assets/_Assets/Scripts/SceneManagement/ObjectReference.cs:61 | as written: the drop-in when set, and otherwise always null, because the lookup yields components, not GameObjects |
| GuidReferences.ObjectReference.ValueIntended | Assets/_Assets/Scripts/SceneManagement/ObjectReference.cs:61 | corrected: without a drop-in, the GameObject owning the MonoBehaviour that the GUID resolves to |
| GuidReferences.NewObjectReference | Assets/_Assets/Scripts/SceneManagement/ObjectReference.cs:47-58 | a null object, or one without an IGuidAsset component, throws; otherwise a fresh reference with the object as drop-in and its component's GUID |
| GuidReferences.ObjectReferenceValueLosesMonoBehaviour | Assets/_Assets/Scripts/SceneManagement/ObjectReference.cs:61 | a reference to a registered MonoBehaviour resolves to null as written but to its GameObject as intended |
| GuidReferences.MonoReference.Default | Assets/_Assets/Scripts/Serialization/MonoReference.cs:14 | a new reference has an empty GUID, no drop-in and nothing cached |
| GuidReferences.MonoReference.UpdateGUID | Assets/_Assets/Scripts/Serialization/MonoReference.cs:28-47 | without a drop-in or a T component nothing changes; otherwise the component is cached and the GUID and name are updated as the base class does |
| GuidReferences.MonoReference.Resolve | Assets/_Assets/Scripts/Serialization/MonoReference.cs:99 | FindObjectByGuid cast to T is non-null exactly for a non-empty GUID that no asset holds and that names a MonoBehaviour of a T-assignable type, and it is then that MonoBehaviour |
| GuidReferences.MonoReference.Value | Assets/_Assets/Scripts/Serialization/MonoReference.cs:83-109 | a cached value is returned unchanged; otherwise the GUID is resolved and the result, null included, is cached and returned |
| GuidReferences.MonoReference.RetrieveValue | Assets/_Assets/Scripts/Serialization/MonoReference.cs:50-72 | the same result and the same cache as the Value getter |
| GuidReferences.MonoReference.Equals | Assets/_Assets/Scripts/Serialization/MonoReference.cs:111-115 | false for null, otherwise true exactly when the GUIDs are equal |
| GuidReferences.MonoReference.GetHashCode | Assets/_Assets/Scripts/Serialization/MonoReference.cs:121 | the hash is 0 exactly when the GUID is null |
| GuidReferences.MonoReferenceHashConsistent | Assets/_Assets/Scripts/Serialization/MonoReference.cs:111-121 | equal references have equal hash codes |
| GuidReferences.NewMonoReference | Assets/_Assets/Scripts/Serialization/MonoReference.cs:16-26 | succeeds exactly for a present object with both an IGuidAsset component and a T component, and then caches that T component |
| GuidReferences.CollisionData.Default | Assets/_Assets/Scripts/Collision/CollisionData.cs:10-14 | a new collision record holds a fresh, empty reference to a ColliderTrigger |
| GuidReferences.CollisionData.SetOtherCollider | Assets/_Assets/Scripts/Collision/CollisionData.cs:15-24 | throws exactly when the collider's object lacks an IGuidAsset or a ColliderTrigger component, leaving the old reference; otherwise a fresh reference to it |
| GuidReferences.CollisionData.GetHashCode | Assets/_Assets/Scripts/Collision/CollisionData.cs:37-40 | 0 without a reference, otherwise the hash of the reference's GUID |
| GuidReferences.CollisionDataEquals | Assets/_Assets/Scripts/Collision/CollisionData.cs:27-30 | throws exactly when either side's reference or the argument is null; otherwise compares the two resolved colliders, filling each cache |
| GuidReferences.CollisionDataEqualsObject | Assets/_Assets/Scripts/Collision/CollisionData.cs:32-35 | false for null without touching anything; otherwise as Equals(CollisionData) |
| Inventory.AddInt | Assets/_Assets/Scripts/Inventory/InventoryDataManager.cs:42 | C# unchecked `+=` on int: the exact sum when it fits in 32 bits, otherwise that sum shifted by 2^32 |
| Inventory.Abs | Assets/_Assets/Scripts/Inventory/Item.cs:63 | Mathf.Abs throws exactly for int.MinValue; otherwise it gives the non-negative one of x and -x |
| Inventory.Item.constructor | Assets/_Assets/Scripts/Inventory/Item.cs:10 | a new item has no manager set and nothing consumed |
| Inventory.Item.SetInventoryToBeAddedTo | Assets/_Assets/Scripts/Inventory/Item.cs:30-33 | the manager is stored as given |
| Inventory.Item.Target | Assets/_Assets/Scripts/Inventory/Item.cs:13-16 | the manager set on the item, or the first loaded manager when none is set |
| Inventory.Item.AddToInventory | Assets/_Assets/Scripts/Inventory/Item.cs:11-25 | with a manager (set or looked up) the quantity is added to its stock as AddItem does; without one the error is logged and nothing else changes |
| Inventory.Item.ValidateQuantity | Assets/_Assets/Scripts/Inventory/Item.cs:36-48 | true exactly when the item's own manager stocks it with at least the quantity; false without a manager |
| Inventory.Item.Consume | Assets/_Assets/Scripts/Inventory/Item.cs:61-67 | throws exactly for int.MinValue; otherwise -abs(quantity) is added through AddToInventory and OnConsumed receives the quantity |
| Inventory.Item.TryConsume | Assets/_Assets/Scripts/Inventory/Item.cs:70-80 | consumes exactly when ValidateQuantity passes for the quantity as given, removing abs(quantity) |
| Inventory.Item.TryConsumeChecked | Assets/_Assets/Scripts/Inventory/Item.cs:70-80 | corrected: consumes exactly when the stock covers abs(quantity), the amount actually removed, so the count cannot go below zero |
| Inventory.NegativeConsumeOverdraws | Assets/_Assets/Scripts/Inventory/Item.cs:72 | as written: TryConsume(-1) on an item stocked at 0 passes the check and leaves the count at -1 |
| Inventory.DefaultValue | Assets/_Assets/Scripts/Inventory/ItemQuantity.cs:26-31 | the parameterless ItemQuantity, ItemTransfer or ItemData has no item, no reference and quantity 0 |
| Inventory.NewValue | Assets/_Assets/Scripts/Inventory/ItemQuantity.cs:33-38 | building from a null item throws; otherwise the value holds the item, a reference to its GUID and the quantity |
| Inventory.ResolveRef | Assets/_Assets/Scripts/Serialization/ScriptableObjectReference.cs:16 | a null reference throws; otherwise the item registered under its GUID, or null when none is |
| Inventory.NewValueResolves | Assets/_Assets/Scripts/Inventory/ItemQuantity.cs:33-38 | a value built from a registered item resolves back to that item |
| Inventory.RefEquals | Assets/_Assets/Scripts/Inventory/ItemQuantity.cs:44 | object.Equals on two references: both null, or both present with equal GUIDs |
| Inventory.Equals | Assets/_Assets/Scripts/Inventory/ItemQuantity.cs:40-45 | false for null; otherwise true exactly when items, references and quantities agree |
| Inventory.EqualsObject | Assets/_Assets/Scripts/Inventory/ItemQuantity.cs:47-53 | false for null and for another runtime class; otherwise as the typed Equals |
| Inventory.HashOf | Assets/_Assets/Scripts/Inventory/ItemQuantity.cs:55-58 | the hash combines item, reference hash and quantity |
| Inventory.EqualsConsistent | Assets/_Assets/Scripts/Inventory/ItemQuantity.cs:40-58 | equality is reflexive and symmetric, and equal values hash alike |
| Inventory.CountOfKeys | Assets/_Assets/Scripts/Inventory/InventoryDataManager.cs:64 | an item has a count exactly when it is a key of the dictionary, and the count is on one of its lines |
| Inventory.AddTo | Assets/_Assets/Scripts/Inventory/InventoryDataManager.cs:40-43 | after TryAdd-or-add the item's count is the old count plus the amount (with 32-bit wrap-around), or the amount when it was absent |
| Inventory.AddToShape | Assets/_Assets/Scripts/Inventory/InventoryDataManager.cs:40-43 | existing items keep their place, and an absent item is appended last |
| Inventory.AddToOthers | Assets/_Assets/Scripts/Inventory/InventoryDataManager.cs:40-43 | adding to one item leaves every other item's count alone |
| Inventory.AddToDistinct | Assets/_Assets/Scripts/Inventory/InventoryDataManager.cs:40-43 | adding keeps one line per item |
| Inventory.AddToIndex | Assets/_Assets/Scripts/Inventory/InventoryDataManager.cs:42 | adding to a present item changes its line alone, to the wrapped sum |
| Inventory.SetCount | Assets/_Assets/Scripts/Inventory/InventoryDataManager.cs:129 | setting a present item's count keeps every line's item, and setting it to its current count changes nothing |
| Inventory.SnapshotMatchesStock | Assets/_Assets/Scripts/Inventory/InventoryDataManager.cs:87-100 | the snapshot has one entry per stocked item in order, with its count and a reference to its GUID, and nothing else |
| Inventory.AddMissingCounts | Assets/_Assets/Scripts/Inventory/InventoryDataManager.cs:138-145 | every listed item is present afterwards; a present item keeps its count, an absent listed one gets 0, nothing else is added, and items stay distinct |
| Inventory.Amount | Assets/_Assets/Scripts/Inventory/Product.cs:30-38 | the amount of a line: the quantity as is, or -abs / +abs of it for a removal or a receipt, which throws exactly for int.MinValue |
| Inventory.Step | Assets/_Assets/Scripts/Inventory/InventoryDataManager.cs:111-113 | one saved line succeeds exactly when its reference is present, its GUID registered and its amount computable, and then adds that amount to that item |
| Inventory.ApplyLinesUnfold | Assets/_Assets/Scripts/Inventory/InventoryDataManager.cs:109-118 | a failing first line stops the run with nothing applied; otherwise it is applied and the rest follows |
| Inventory.StepAsIs | Assets/_Assets/Scripts/Inventory/InventoryDataManager.cs:111-112 | without a sign a line fails only when its reference is null or unregistered |
| Inventory.ApplyLinesInOrder | Assets/_Assets/Scripts/Inventory/InventoryDataManager.cs:109-118 | a run applies the lines in order and stops at the first that throws, leaving the rest unapplied |
| Inventory.ApplyLinesDistinct | Assets/_Assets/Scripts/Inventory/InventoryDataManager.cs:109-118 | a run keeps one line per item |
| Inventory.ApplyLinesUntouched | Assets/_Assets/Scripts/Inventory/InventoryDataManager.cs:109-118 | an item the run never reached keeps its count, and a reached item is present afterwards |
| Inventory.ApplyLinesSum | Assets/_Assets/Scripts/Inventory/InventoryDataManager.cs:109-118 | a reached item ends with its old count (0 if absent) plus everything added to it, modulo 2^32 |
| Inventory.SyncRestoresSnapshot | Assets/_Assets/Scripts/Inventory/InventoryDataManager.cs:159-182 | saving a snapshot and syncing it onto the same items at 0 gives back every count |
| Inventory.ValidateMatchesQuantity | Assets/_Assets/Scripts/Inventory/InventoryDataManager.cs:62-80 | ValidateQuantity agrees with GetQuantity: present with at least the amount |
| Inventory.InventoryDataManager.constructor | Assets/_Assets/Scripts/Inventory/InventoryDataManager.cs:15-17 | a new manager has an empty stock and an empty saved list |
| Inventory.InventoryDataManager.AllItems | Assets/_Assets/Scripts/Inventory/InventoryDataManager.cs:23 | the stocked items, one per line, in enumeration order |
| Inventory.InventoryDataManager.AddItem | Assets/_Assets/Scripts/Inventory/InventoryDataManager.cs:33-48 | a null item throws with nothing changed; otherwise the item is told its manager, the amount is added, the saved stock is re-snapshotted and the value is published |
| Inventory.InventoryDataManager.AddItemQuantity | Assets/_Assets/Scripts/Inventory/InventoryDataManager.cs:52-55 | throws with nothing changed exactly when the reference is null or unregistered; otherwise as AddItem with the resolved item |
| Inventory.InventoryDataManager.GetQuantity | Assets/_Assets/Scripts/Inventory/InventoryDataManager.cs:62-70 | a null item throws; otherwise the stored count, 0 for an absent item |
| Inventory.InventoryDataManager.ValidateQuantity | Assets/_Assets/Scripts/Inventory/InventoryDataManager.cs:77-80 | a null item throws; otherwise true exactly when the item is present with at least the amount |
| Inventory.InventoryDataManager.GetSavedStock | Assets/_Assets/Scripts/Inventory/InventoryDataManager.cs:87-100 | the list is the snapshot of the stock |
| Inventory.InventoryDataManager.SyncStockData | Assets/_Assets/Scripts/Inventory/InventoryDataManager.cs:107-119 | the stock becomes the saved lines applied in order on top of the current counts, up to the first line that throws |
| Inventory.InventoryDataManager.PopulateEmpty | Assets/_Assets/Scripts/Inventory/InventoryDataManager.cs:121-137 | a new stock with every loaded item at 0 |
| Inventory.InventoryDataManager.AddMissingItems | Assets/_Assets/Scripts/Inventory/InventoryDataManager.cs:138-145 | every registered item is present; existing counts are kept |
| Inventory.InventoryDataManager.OnEditorStopped | Assets/_Assets/Scripts/Inventory/InventoryDataManager.cs:159-163 | every loaded item back at 0 and the saved stock empty |
| Inventory.InventoryDataManager.Init | Assets/_Assets/Scripts/Inventory/InventoryDataManager.cs:166-170 | the missing registered items are added with 0 |
| Inventory.InventoryDataManager.OnSave | Assets/_Assets/Scripts/Inventory/InventoryDataManager.cs:174-177 | the saved stock is the snapshot of the stock |
| Inventory.InventoryDataManager.OnLoad | Assets/_Assets/Scripts/Inventory/InventoryDataManager.cs:179-182 | as SyncStockData |
| Inventory.SyncAll | Assets/_Assets/Scripts/Inventory/InventoryDataManager.cs:109-118 | the loop over the saved lines gives the stock of the in-order run, up to the first line that throws |
| Inventory.SyncLine | Assets/_Assets/Scripts/Inventory/InventoryDataManager.cs:111-117 | one line throws with the stock unchanged exactly when its reference is null or unregistered; otherwise its item is told the manager and the quantity added |
| Inventory.SyncStepStops | Assets/_Assets/Scripts/Inventory/InventoryDataManager.cs:111 | a line that does not resolve ends the run where it stands |
| Inventory.SyncStepNext | Assets/_Assets/Scripts/Inventory/InventoryDataManager.cs:111-117 | a line that resolves is added and the run goes on with the next one |
| Trading.ValidateAllLines | Assets/_Assets/Scripts/Inventory/Product.cs:17-18 | validation passes exactly when every trade line passes on its own against the same stock, lines not being added up per item |
| Trading.ValidateThrows | Assets/_Assets/Scripts/Inventory/Product.cs:17-18 | validation throws exactly on reaching a trade line that does not resolve, every earlier line having passed |
| Trading.ThrowingLine | Assets/_Assets/Scripts/Inventory/Product.cs:17-18 | a throwing validation has a first unresolved line, all lines before it passing |
| Trading.ThrowsAt | Assets/_Assets/Scripts/Inventory/Product.cs:17-18 | an unresolved line preceded only by passing lines makes validation throw |
| Trading.PublishedSnoc | Assets/_Assets/Scripts/Inventory/InventoryDataManager.cs:46 | each applied AddItem publishes one more ItemQuantity of its item and amount |
| Trading.TrailStops | Assets/_Assets/Scripts/Inventory/Product.cs:29 | the line that throws ends the loop where it is |
| Trading.TrailNext | Assets/_Assets/Scripts/Inventory/Product.cs:29-31 | a line that does not throw is applied and the loop goes on with the next one |
| Trading.AddEach | Assets/_Assets/Scripts/Inventory/Product.cs:27-41 | each trade loop leaves the stock of the in-order run of its lines with their signed amounts, stopping at the first that throws |
| Trading.AddLine | Assets/_Assets/Scripts/Inventory/Product.cs:29-31 | one line throws with nothing changed exactly when it does not resolve or its amount overflows; otherwise AddItem of the item and amount |
| Trading.DemandNonNegative | Assets/_Assets/Scripts/Inventory/Product.cs:30 | removal lines never add to a count, so an item's total demand is never negative |
| Trading.DemandWitness | Assets/_Assets/Scripts/Inventory/Product.cs:29 | every item with a demand is the item of some resolving removal line |
| Trading.RemovalExact | Assets/_Assets/Scripts/Inventory/Product.cs:27-33 | removals that all resolve, from a stock covering each item's total demand, never throw and take exactly that demand off each item |
| Trading.ResolvingRunsFinish | Assets/_Assets/Scripts/Inventory/Product.cs:27-41 | lines that all resolve never throw, whatever the stock |
| Trading.AffordableCovers | Assets/_Assets/Scripts/Inventory/Product.cs:17-18 | the corrected check's per-item test covers every item with a demand |
| Trading.TradeOversells | Assets/_Assets/Scripts/Inventory/Product.cs:17-18 | as written: two trade lines of 3 for an item stocked at 5 both pass, and the trade leaves -1 |
| Trading.TradeHalfApplied | Assets/_Assets/Scripts/Inventory/Product.cs:35-41 | as written: a receive line with a null reference is never validated, so the trade throws after the traded items are gone |
| Trading.Product.constructor | Assets/_Assets/Scripts/Inventory/Product.cs:10-12 | a product holds its manager, trade lines and receive lines |
| Trading.Product.TradeAsync | Assets/_Assets/Scripts/Inventory/Product.cs:15-42 | a failed or throwing validation changes nothing; otherwise every trade line removes abs(quantity), then every receive line adds abs(quantity), stopping at the first line that throws |
| Trading.Product.TradeChecked | Assets/_Assets/Scripts/Inventory/Product.cs:15-42 | corrected: trades exactly when the whole trade can go through; then every line is applied and each traded item loses exactly its total demand without going below zero |
| SaveUtility.Resolve | Assets/_Assets/Scripts/SaveData/SaveUtility.cs:151 | Type.GetType finds a type exactly when the name is registered for a known type, and it is that type |
| SaveUtility.InitialFields | Assets/_Assets/Scripts/SaveData/SaveUtility.cs:59 | a new instance has an entry for exactly the fields of its type |
| SaveUtility.NewInstance | Assets/_Assets/Scripts/SaveData/SaveUtility.cs:156 | Activator.CreateInstance succeeds only for a known, non-abstract type, and gives a value of exactly that runtime type |
| SaveUtility.Store | Assets/_Assets/Scripts/SaveData/SaveUtility.cs:171 | storing a saved value where a type is expected keeps null and an assignable simple value as they are, and throws for a list, dictionary or map |
| SaveUtility.IsSimple | Assets/_Assets/Scripts/SaveData/SaveUtility.cs:235-241 | in a table whose tags agree with the types (TableTagged), a type is simple exactly when it is primitive, an enum, System.String itself, or UnityEngine.Object or a type derived from it; a simple type is never a delegate |
| SaveUtility.ExtractNested | Assets/_Assets/Scripts/SaveData/SaveUtility.cs:74-120 | null stays null and a simple value is returned as it is; a list gives a list of the same length, a dictionary one with the same keys, and a plain object a map carrying "$type" |
| SaveUtility.ExtractFields | Assets/_Assets/Scripts/SaveData/SaveUtility.cs:106-117 | the field loop of a nested object keeps what it has and adds an entry for every field that is neither [DontSave] nor a delegate |
| SaveUtility.ExtractTop | Assets/_Assets/Scripts/SaveData/SaveUtility.cs:22-29 | the top-level field loop keeps what it has and adds an entry for every [Save] field that is not a delegate |
| SaveUtility.ExtractSaveData | Assets/_Assets/Scripts/SaveData/SaveUtility.cs:17-32 | the snapshot has an entry for every [Save] field that is not a delegate |
| SaveUtility.ApplyNested | Assets/_Assets/Scripts/SaveData/SaveUtility.cs:126-217 | nothing happens when the target or the saved value is null; whatever the branch and whether it throws, the target keeps its runtime type, since it is updated in place |
| SaveUtility.ApplyItems | Assets/_Assets/Scripts/SaveData/SaveUtility.cs:133-160 | the list keeps its type and the elements added so far, and gains at most one element per saved item |
| SaveUtility.RestoreItem | Assets/_Assets/Scripts/SaveData/SaveUtility.cs:145-158 | a restored list element has the item's resolved concrete "$type" (or the element type) as its runtime type, and that type is assignable to the element type |
| SaveUtility.ApplyDict | Assets/_Assets/Scripts/SaveData/SaveUtility.cs:166-174 | the dictionary keeps its type; it succeeds exactly when every saved value can be stored where the value type is expected, and then its keys are exactly the saved keys |
| SaveUtility.ApplyFields | Assets/_Assets/Scripts/SaveData/SaveUtility.cs:192-215 | the nested field loop returns an object of the target's runtime type, whether or not it throws |
| SaveUtility.CopyFields | Assets/_Assets/Scripts/SaveData/SaveUtility.cs:222-230 | the target keeps its runtime type; the copy succeeds exactly when the target is an object of a type that declares or inherits every copied field |
| SaveUtility.ApplyTopField | Assets/_Assets/Scripts/SaveData/SaveUtility.cs:43-64 | one top-level step changes nothing for a field that is not [Save], is a delegate, or is absent from the data, and never touches another field |
| SaveUtility.ApplyTop | Assets/_Assets/Scripts/SaveData/SaveUtility.cs:43-65 | the top-level field loop never removes a field, and changes nothing when no [Save] field is in the data |
| SaveUtilityNested.ApplyFieldsStoresSimple | Assets/_Assets/Scripts/SaveData/SaveUtility.cs:200-203 | unless the nested field loop throws, a simple visible field found in the saved map holds its saved value, stored at the declared type |
| SaveUtilityNested.ExtractFieldsValue | Assets/_Assets/Scripts/SaveData/SaveUtility.cs:106-117 | a visible field's entry in an extracted object is the extraction of that field's value |
| SaveUtilityNested.ApplyTopAt | Assets/_Assets/Scripts/SaveData/SaveUtility.cs:43-65 | unless the top-level loop throws, a field ends with what its own step makes of the value it had before the loop |
| SaveUtilityNested.ObjectRestoresSimpleFields | Assets/_Assets/Scripts/SaveData/SaveUtility.cs:176-215 | applying the extraction of an object to an object of the same type takes no replacement path and, unless it throws, restores every visible simple field |
| SaveUtilityNested.SaveThenApplyRestoresObjectField | Assets/_Assets/Scripts/SaveData/SaveUtility.cs:17-66 | the round trip of a [Save] field holding an object of its concrete declared type: unless an exception escapes, the field holds an object of that type whose visible simple fields are the source's |
| SaveUtilityNested.ListItemTakesTaggedType | Assets/_Assets/Scripts/SaveData/SaveUtility.cs:145-158 | a list item tagged with a concrete type is created at that type, so it is never swapped for a replacement |
| SaveUtilityNested.SwapToWiderTypeThrows | Assets/_Assets/Scripts/SaveData/SaveUtility.cs:183-188 | a "$type" naming a type with a field the target's type lacks makes the copy throw, and the target keeps its own type |
| SaveUtility.Instance.constructor | Assets/_Assets/Scripts/SaveData/SaveUtility.cs:37 | a target object holds its runtime type and field values |
| SaveUtility.ApplySaveData | Assets/_Assets/Scripts/SaveData/SaveUtility.cs:37-66 | nothing happens for a null target or data; otherwise the target's fields become those of the field-by-field application, stopping at the first exception |
| SaveUtilityNested.ListRestoreSimple | Assets/_Assets/Scripts/SaveData/SaveUtility.cs:131-144 | a list of simple elements is cleared and holds exactly the saved items, in saved order |
| SaveUtilityNested.ListRestoreComplex | Assets/_Assets/Scripts/SaveData/SaveUtility.cs:131-163 | a list of complex elements is cleared and its j-th element is the j-th saved map restored into a new instance of its item type, in saved order; other items are dropped; it succeeds exactly when every map can be restored, and otherwise it keeps the elements restored before the first map that cannot be |
| SaveUtilityNested.DictRestoreShallow | Assets/_Assets/Scripts/SaveData/SaveUtility.cs:166-174 | a dictionary is cleared and refilled with the saved entries as they are; it succeeds exactly when every saved value can be stored unchanged |
| SaveUtilityNested.ApplyFieldsFrame | Assets/_Assets/Scripts/SaveData/SaveUtility.cs:192-215 | the nested field loop changes only fields that are neither [DontSave] nor delegates and whose names are in the saved map |
| SaveUtilityNested.NestedNullBecomesInstance | Assets/_Assets/Scripts/SaveData/SaveUtility.cs:206-213 | a null nested complex field gets a fresh instance of its declared type even when its saved value is null |
| SaveUtilityNested.CopyFieldsAll | Assets/_Assets/Scripts/SaveData/SaveUtility.cs:222-230 | without an exception every field of the source is copied onto the target |
| SaveUtilityNested.SwapCopiesEveryField | Assets/_Assets/Scripts/SaveData/SaveUtility.cs:180-189 | when "$type" names another concrete type, a filled replacement's fields are all copied onto the target, which keeps its own runtime type |
| SaveUtilityNested.SwapResetsDontSave | Assets/_Assets/Scripts/SaveData/SaveUtility.cs:185-187 | after that copy a [DontSave] field holds its initial value, whatever the target held there |
| SaveUtilityProofs.ExtractSaveDataSelects | Assets/_Assets/Scripts/SaveData/SaveUtility.cs:17-32 | exactly one entry per [Save] non-delegate field, keyed by its name and holding the nested extraction of its value |
| SaveUtilityProofs.ExtractNestedShape | Assets/_Assets/Scripts/SaveData/SaveUtility.cs:74-120 | null stays null, a simple value is kept, a list keeps length and order, a dictionary keeps its keys, an object becomes a map of "$type" and exactly its non-[DontSave], non-delegate fields |
| SaveUtilityProofs.ApplyTopFrame | Assets/_Assets/Scripts/SaveData/SaveUtility.cs:43-65 | the top-level field loop changes only [Save] non-delegate fields whose names are in the data |
| SaveUtilityProofs.ApplySaveDataFrame | Assets/_Assets/Scripts/SaveData/SaveUtility.cs:37-66 | ApplySaveData leaves every other field as it was |
| SaveUtilityProofs.StoreExtracted | Assets/_Assets/Scripts/SaveData/SaveUtility.cs:52 | storing the extraction of a value gives the value back whenever the store succeeds |
| SaveUtilityProofs.SaveThenApplyRestoresSimpleFields | Assets/_Assets/Scripts/SaveData/SaveUtility.cs:17-66 | applying an extraction of the same type restores every simple [Save] field exactly, unless an exception escaped |
| SaveUtilityProofs.SimpleSnapshotRestores | Assets/_Assets/Scripts/SaveData/SaveUtility.cs:17-66 | when every [Save] field is simple and well-typed, the round trip never throws, so all of them are restored |
| SaveUtilityProofs.TopLevelNullStaysNull | Assets/_Assets/Scripts/SaveData/SaveUtility.cs:56-63 | at the top level a null complex field with a null saved value stays null |
| SaveStates.AssetHeap.constructor | Assets/_Assets/Scripts/SaveData/SaveState.cs:35 | the loaded assets, by object |
| SaveStates.SaveState.constructor | Assets/_Assets/Scripts/SaveData/SaveState.cs:13-18 | a save state holds its saved data and no runtime copies |
| SaveStates.SaveState.RehydrateToRuntimeInstances | Assets/_Assets/Scripts/SaveData/SaveState.cs:24-48 | old copies are discarded; each recorded copy is of a resolving ISaveable asset with data, restored without exception; without an exception every such entry has its copy |
| SaveStates.SaveState.GetRuntimeInstance | Assets/_Assets/Scripts/SaveData/SaveState.cs:53-57 | the recorded copy for the reference, null exactly when there is none |
| SaveManager.Saveables.constructor | Assets/_Assets/Scripts/SaveData/SaveDataManager.cs:12-26 | the saveables' GUIDs and current states |
| SaveManager.SaveDataManager.constructor | Assets/_Assets/Scripts/SaveData/SaveDataManager.cs:52-57 | no saveables located, slot 0, no slots in memory |
| SaveManager.SaveDataManager.LocateSaveables | Assets/_Assets/Scripts/SaveData/SaveDataManager.cs:168-173 | the located array is exactly what the registry reports |
| SaveManager.SaveDataManager.Init | Assets/_Assets/Scripts/SaveData/SaveDataManager.cs:200-204 | Init locates the saveables |
| SaveManager.SaveDataManager.OnSceneStopped | Assets/_Assets/Scripts/SaveData/SaveDataManager.cs:190-193 | the array is dropped |
| SaveManager.SaveDataManager.SaveAsync | Assets/_Assets/Scripts/SaveData/SaveDataManager.cs:60-94 | the slot's map exists afterwards; it throws exactly when no array is located; otherwise the map gains each saveable's container under its GUID, is written to the slot's file, and OnSave then OnDataSaved follow in order |
| SaveManager.SaveDataManager.LoadAsync | Assets/_Assets/Scripts/SaveData/SaveDataManager.cs:111-165 | a missing file only warns; an undecodable file changes nothing; otherwise each saveable with data is restored (its failures caught), then OnLoad on each and OnDataLoaded; it throws exactly when the file decodes but no array is located |
| SaveManager.OverwriteSlot | Assets/_Assets/Scripts/SaveData/SaveDataManager.cs:66 | storing a slot again overrides whatever an earlier store put there |
| SaveManager.CollectInto | Assets/_Assets/Scripts/SaveData/SaveDataManager.cs:70-75 | the collection loop builds the map Collect specifies |
| SaveManager.Notify | Assets/_Assets/Scripts/SaveData/SaveDataManager.cs:87-90 | OnSave (or OnLoad) is called on each saveable in order |
| SaveManager.RestoreEach | Assets/_Assets/Scripts/SaveData/SaveDataManager.cs:134-149 | the restore loop leaves the states Restore specifies and logs exactly the failures Failures lists |
| SaveManager.RestoreNext | Assets/_Assets/Scripts/SaveData/SaveDataManager.cs:136-147 | one saveable more: restored when its GUID has data and loading does not fail, otherwise unchanged |
| SaveManager.RestoreRestores | Assets/_Assets/Scripts/SaveData/SaveDataManager.cs:134-149 | every saveable with data and a working LoadSaveData holds its loaded container; every other keeps its state |
| SaveManager.FailuresAreCaught | Assets/_Assets/Scripts/SaveData/SaveDataManager.cs:139-146 | only saveables whose load fails and whose GUID has data are logged |
| SaveManager.CollectKeys | Assets/_Assets/Scripts/SaveData/SaveDataManager.cs:70-75 | the map's keys are the old keys plus each collected saveable's GUID |
| SaveManager.CollectAt | Assets/_Assets/Scripts/SaveData/SaveDataManager.cs:74 | last write wins: a saveable's own container is stored under its GUID when every later saveable with that GUID reports the same |
| SaveManager.CollectKeepsOld | Assets/_Assets/Scripts/SaveData/SaveDataManager.cs:63-75 | an old entry survives when no collected saveable has its GUID |
| SaveManager.SavedMapHoldsEachState | Assets/_Assets/Scripts/SaveData/SaveDataManager.cs:70-75 | with unique GUIDs the saved map holds every saveable's own container under its GUID, which a load hands back |
| SaveManagerSO.Image | Assets/_Assets/Scripts/SaveData/SaveDataManagerSO.cs:108 | the serialised file holds one slot image per save state, in order, each the state's saved data |
| SaveManagerSO.SaveDataManagerSO.constructor | Assets/_Assets/Scripts/SaveData/SaveDataManagerSO.cs:35-40 | no slots in memory, slot 0, nothing tracked |
| SaveManagerSO.SaveDataManagerSO.SaveSlotCount | Assets/_Assets/Scripts/SaveData/SaveDataManagerSO.cs:179 | the number of slots |
| SaveManagerSO.SaveDataManagerSO.SetSlot | Assets/_Assets/Scripts/SaveData/SaveDataManagerSO.cs:182 | the index is stored without a check |
| SaveManagerSO.SaveDataManagerSO.OnEditorStopped | Assets/_Assets/Scripts/SaveData/SaveDataManagerSO.cs:191-194 | every slot is removed |
| SaveManagerSO.SaveDataManagerSO.RefreshSaveableObjects | Assets/_Assets/Scripts/SaveData/SaveDataManagerSO.cs:51-63 | the tracked set grows by exactly the ISaveable assets among the loaded ones |
| SaveManagerSO.SaveDataManagerSO.SaveToFile | Assets/_Assets/Scripts/SaveData/SaveDataManagerSO.cs:106-110 | the file holds every slot's data |
| SaveManagerSO.SaveDataManagerSO.SaveAsync | Assets/_Assets/Scripts/SaveData/SaveDataManagerSO.cs:68-101 | OnSave on each tracked saveable before any capture, the assets becoming what the callbacks make of them; throws with nothing stored exactly for a negative slot index; otherwise a fresh state of the data captured from the assets after OnSave is appended or replaces the slot, and the file is written |
| SaveManagerSO.SaveDataManagerSO.LoadAsync | Assets/_Assets/Scripts/SaveData/SaveDataManagerSO.cs:116-146 | the index is stored; it throws with nothing restored exactly when the index is out of range; otherwise the slot is restored into its target assets, then OnLoad runs once on each tracked saveable and the assets become what the callbacks make of the restored ones |
| SaveManagerSO.SaveDataManagerSO.LoadSaveFile | Assets/_Assets/Scripts/SaveData/SaveDataManagerSO.cs:152-176 | a missing file becomes an empty written one; an undecodable file changes nothing; otherwise the slots are the file's; without an exception every slot holds a runtime copy for exactly its entries that resolve to an ISaveable asset and have data, each the renamed asset with that data restored; an exception comes from the restore of such an entry |
| SaveManagerSO.SaveDataManagerSO.Init | Assets/_Assets/Scripts/SaveData/SaveDataManagerSO.cs:184-189 | as written: with no save file Init throws, since slot 0 of the empty list is read; when it does not throw the current slot is restored, then the OnLoad callbacks act on the restored assets |
| SaveManagerSO.SaveDataManagerSO.InitChecked | Assets/_Assets/Scripts/SaveData/SaveDataManagerSO.cs:184-189 | corrected: a first run starts from an empty file without an exception and changes no asset; an existing current slot is restored, then the OnLoad callbacks act on the restored assets |
| SaveManagerSO.Stored | Assets/_Assets/Scripts/SaveData/SaveDataManagerSO.cs:92-96 | a state stored at or past the end is appended; otherwise it replaces that slot alone |
| SaveManagerSO.NewStates | Assets/_Assets/Scripts/SaveData/SaveDataManagerSO.cs:164 | deserialising gives one fresh, distinct state per slot image, with that image's data |
| SaveManagerSO.RehydrateAll | Assets/_Assets/Scripts/SaveData/SaveDataManagerSO.cs:172-175 | each slot is rehydrated in order: without an exception every slot holds a runtime copy for exactly its entries that resolve to an ISaveable asset and have data, each the renamed asset with that data restored; an exception comes from the restore of such an entry and ends the loop |
| SaveManagerSO.CallEach | Assets/_Assets/Scripts/SaveData/SaveDataManagerSO.cs:72-75 | one OnSave (or OnLoad) call per tracked saveable |
| SaveManagerSO.Capture | Assets/_Assets/Scripts/SaveData/SaveDataManagerSO.cs:76-89 | the new state holds a capture for each tracked SerializableScriptableObject under its GUID, and capture calls only for tracked ones |
| SaveManagerSO.SlotStep | Assets/_Assets/Scripts/SaveData/SaveDataManagerSO.cs:121-140 | one more entry of the slot keeps the restore invariant |
| SaveManagerSO.SlotStepUntouched | Assets/_Assets/Scripts/SaveData/SaveDataManagerSO.cs:124-128 | restoring one entry's target leaves every asset no remaining entry reaches as it was |
| SaveManagerSO.SlotStepRestored | Assets/_Assets/Scripts/SaveData/SaveDataManagerSO.cs:124-128 | restoring one entry's target gives it that entry's restored fields |
| SaveManagerSO.SlotDone | Assets/_Assets/Scripts/SaveData/SaveDataManagerSO.cs:121-140 | after every entry, an asset no entry targets is untouched and an asset exactly one entry targets holds that entry's restored fields |
| SaveManagerSO.RestoreSlot | Assets/_Assets/Scripts/SaveData/SaveDataManagerSO.cs:121-140 | the restore loop leaves the assets as RestoredSlot states, an exception in RestoreState being caught |
| Subscribers.Subscriber.constructor | Assets/_Assets/Scripts/ActionSO/Template/BaseActionSubscriber.cs:88-93 | the base constructor stores origin, method name and response |
| Subscribers.Subscriber.Message | Assets/_Assets/Scripts/Event/Template/EventSO.cs:146-151 | the message-subscriber constructor sets its own response only, so the base response that equality reads stays null |
| Subscribers.Subscriber.Equals | Assets/_Assets/Scripts/ActionSO/Template/BaseActionSubscriber.cs:96-101 | false for null; otherwise true exactly when origin, method name and base response agree; equal subscribers hash alike |
| Subscribers.Subscriber.EqualsObject | Assets/_Assets/Scripts/ActionSO/Template/BaseActionSubscriber.cs:104-110 | false for null and for another runtime class; true for the same instance; otherwise the three fields decide |
| Subscribers.Subscriber.SetOrigin | Assets/_Assets/Scripts/ActionSO/Template/BaseActionSubscriber.cs:65-69 | the origin is replaced and nothing else changes |
| Subscribers.Subscriber.SetNull | Assets/_Assets/Scripts/ActionSO/Template/BaseActionSubscriber.cs:71-76 | origin and method name are cleared; the response is kept, since only a local is set to null |
| Subscribers.MessageEqualityIgnoresResponse | Assets/_Assets/Scripts/Event/Template/EventSO.cs:146-151 | two message subscribers with the same origin and method name are equal whatever their responses |
| Subscribers.EqualsIsEquivalence | Assets/_Assets/Scripts/ActionSO/Template/BaseActionSubscriber.cs:96-101 | Equals is reflexive, symmetric and transitive on non-null subscribers |
| Subscribers.SweepForwardKeeps | Assets/_Assets/Scripts/Event/Template/EventSO.cs:291-297 | the forward sweep keeps every non-null entry and drops nothing else; a null survives exactly when two nulls were adjacent |
| Subscribers.SweepForwardSkips | Assets/_Assets/Scripts/Event/Template/EventSO.cs:291-297 | as written: on two adjacent nulls the sweep removes the first and leaves the second |
| Subscribers.WithoutNulls | Assets/_Assets/Scripts/Event/Template/EventSO.cs:291-297 | corrected: no null is left, and every non-null entry is kept |
| Subscribers.RemoveNullsForward | Assets/_Assets/Scripts/Event/Template/EventSO.cs:291-297 | the forward RemoveAt loop as written gives the forward sweep |
| Subscribers.RemoveNullsChecked | Assets/_Assets/Scripts/Event/Template/EventSO.cs:291-297 | corrected: the loop advances only past a kept entry and gives the list without nulls |
| Subscribers.Live | Assets/_Assets/Scripts/ActionSO/Template/ActionSO.cs:92-102 | the sweep keeps no more entries than the list has; LiveKeepsAlive and LiveUnchanged state which |
| Subscribers.LiveUnchanged | Assets/_Assets/Scripts/ActionSO/Template/ActionSO.cs:92-102 | the sweep leaves the list as it is exactly when every entry is non-null with a non-null origin |
| Subscribers.LiveKeepsAlive | Assets/_Assets/Scripts/ActionSO/Template/ActionSO.cs:92-102 | exactly the non-null entries with a non-null origin are kept |
| Subscribers.EventBaseSweepIsLive | Assets/_Assets/Scripts/Event/Template/EventSO.cs:206-215 | the event base sweep throws exactly when the list holds a null (its origin is read first), and otherwise keeps the live entries |
| Subscribers.EventBaseRemove | Assets/_Assets/Scripts/Event/Template/EventSO.cs:206-215 | the backward RemoveAt loop gives the event base sweep, its exception included |
| Subscribers.ActionBaseRemove | Assets/_Assets/Scripts/ActionSO/Template/ActionSO.cs:90-103 | the action base loop tests for null first and keeps exactly the live entries |
| Subscribers.CallsBack | Assets/_Assets/Scripts/Event/Template/EventSO.cs:251-262 | at most one call per entry, from the last to the first, exceptions caught |
| Subscribers.CallsBackCallsAll | Assets/_Assets/Scripts/Event/Template/EventSO.cs:251-262 | a response is called with the value exactly when some non-null entry carries it |
| Subscribers.StrictAgrees | Assets/_Assets/Scripts/Event/Template/EventSO.cs:276-279 | with no null entry and no throwing response, the uncaught loop makes the same calls as the caught one |
| Subscribers.StrictThrowsOnNull | Assets/_Assets/Scripts/Event/Template/EventSO.cs:276-279 | a null entry makes the uncaught loop throw |
| Subscribers.NotifyBack | Assets/_Assets/Scripts/Event/Template/EventSO.cs:251-262 | the caught backward loop makes the calls CallsBack lists |
| Subscribers.NotifyBackStrict | Assets/_Assets/Scripts/Event/Template/EventSO.cs:276-279 | the uncaught backward loop makes the calls and throws as CallsBackStrict says |
| EventChannels.LiveStable | Assets/_Assets/Scripts/Event/Template/EventSO.cs:206-215 | a list both base sweeps have swept is kept as it is by a second sweep of either family |
| EventChannels.RemoveNullsBoth | Assets/_Assets/Scripts/Event/Template/EventSO.cs:288-298 | the derived RemoveNullSubscribers sweeps the base list first and the message list only when the base sweep does not throw |
| EventChannels.MarkBackNullsHits | Assets/_Assets/Scripts/Event/Template/EventSO.cs:336-347 | on a null-free list the backward marking loop does not throw and nulls exactly the entries with the origin whose object name is the method name, in place |
| EventChannels.MarkLoop | Assets/_Assets/Scripts/Event/Template/EventSO.cs:338-345 | the backward loop of Unsubscribe nulls the hits and throws on a null entry or on reading a null origin's name |
| EventChannels.SweepOneNull | Assets/_Assets/Scripts/Event/Template/EventSO.cs:291-297 | a forward sweep removes a lone null and leaves a null-free list as it is |
| EventChannels.UnsubscribeAllUnfold | Assets/_Assets/Scripts/Event/Template/EventSO.cs:323-334 | one iteration of UnsubscribeAll drops the current entry exactly when its origin matches and sweeps the base list |
| EventChannels.UnsubscribeAllStep | Assets/_Assets/Scripts/Event/Template/EventSO.cs:323-334 | after the iterations over a prefix, the prefix has lost exactly its entries with the origin and the rest is untouched |
| EventChannels.UnsubscribeAllRemovesOrigin | Assets/_Assets/Scripts/Event/Template/EventSO.cs:323-334 | on a null-free message list whose base sweep does not throw, UnsubscribeAll removes every entry with the origin, keeps the others in order and leaves the live base entries |
| EventChannels.UnsubscribeAllPass | Assets/_Assets/Scripts/Event/Template/EventSO.cs:327-332 | one pass at index i: a null or missing entry ends the loop with an exception; otherwise the entry is nulled when its origin matches, both lists are swept, and the loop goes on below i with the same final outcome, unless the sweep threw |
| EventChannels.UnsubscribeAllLoop | Assets/_Assets/Scripts/Event/Template/EventSO.cs:325-333 | the index loop with a sweep in every iteration ends in the lists UnsubscribeAllFrom describes, exceptions included |
| EventChannels.RaiseStep | Assets/_Assets/Scripts/Event/Template/EventSO.cs:247-266 | Raise(value) sweeps the lists and then calls, from the back, every message subscriber left, one exception at a time caught |
| EventChannels.RaiseStrictStep | Assets/_Assets/Scripts/Event/Template/EventSO.cs:272-282 | Raise() sweeps and calls from the back with nothing caught: the first throwing response ends the loop |
| EventChannels.RaiseTwiceStep | Assets/_Assets/Scripts/ActionSO/Template/ActionSO.cs:178-188 | ActionSO.Raise() as written: an uncaught notification, then a second sweep and a caught notification through the StoredValue setter |
| EventChannels.EventSO.constructor | Assets/_Assets/Scripts/Event/Template/EventSO.cs:222-228 | a new event asset has no subscribers and has not been raised |
| EventChannels.EventSO.OnEditorStopped | Assets/_Assets/Scripts/Event/Template/EventSO.cs:230-235 | both subscriber lists are emptied and the last value raised returns to the default |
| EventChannels.EventSO.OnDisable | Assets/_Assets/Scripts/Event/Template/EventSO.cs:237-240 | only the last value raised is reset to the default |
| EventChannels.EventSO.RemoveNullSubscribers | Assets/_Assets/Scripts/Event/Template/EventSO.cs:288-298 | the lists become the two sweeps; nothing else changes |
| EventChannels.EventSO.Subscribe | Assets/_Assets/Scripts/Event/Template/EventSO.cs:306-321 | one message subscriber with the origin, method name and response is appended; the earlier entries and everything else stay |
| EventChannels.EventSO.Raise | Assets/_Assets/Scripts/Event/Template/EventSO.cs:247-266 | the lists are swept; every surviving message subscriber is called with the value; the value is recorded as raised unless the sweep threw |
| EventChannels.EventSO.RaiseDefault | Assets/_Assets/Scripts/Event/Template/EventSO.cs:272-282 | Raise() sweeps and calls with the default value with nothing caught; the default is recorded only when no exception escaped |
| EventChannels.EventSO.UnsubscribeAll | Assets/_Assets/Scripts/Event/Template/EventSO.cs:323-334 | the lists become what UnsubscribeAllFrom gives; the raised state and calls stay |
| EventChannels.EventSO.Unsubscribe | Assets/_Assets/Scripts/Event/Template/EventSO.cs:336-347 | the hits are nulled from the back and then one sweep runs, unless the marking threw |
| EventChannels.ActionSO.constructor | Assets/_Assets/Scripts/ActionSO/Template/ActionSO.cs:110-115 | a new action asset has no subscribers and holds its stored value |
| EventChannels.ActionSO.StoredValue | Assets/_Assets/Scripts/ActionSO/Template/ActionSO.cs:123-127 | the getter gives the stored value |
| EventChannels.ActionSO.OnEditorStopped | Assets/_Assets/Scripts/ActionSO/Template/ActionSO.cs:133-138 | both lists are emptied and the stored value returns to the default call value |
| EventChannels.ActionSO.OnDisable | Assets/_Assets/Scripts/ActionSO/Template/ActionSO.cs:143-146 | only the stored value is reset |
| EventChannels.ActionSO.RemoveNullSubscribers | Assets/_Assets/Scripts/ActionSO/Template/ActionSO.cs:194-204 | the base list keeps its live entries and the message list is swept forward; this family never throws here |
| EventChannels.ActionSO.Subscribe | Assets/_Assets/Scripts/ActionSO/Template/ActionSO.cs:212-227 | one message subscriber is appended and nothing else changes |
| EventChannels.ActionSO.Raise | Assets/_Assets/Scripts/ActionSO/Template/ActionSO.cs:153-172 | sweeps, calls every surviving message subscriber with the value, and stores the value |
| EventChannels.ActionSO.RaiseDefault | Assets/_Assets/Scripts/ActionSO/Template/ActionSO.cs:178-188 | as written: the subscribers are notified with the default, then swept and notified again through the StoredValue setter |
| EventChannels.ActionSO.RaiseDefaultChecked | Assets/_Assets/Scripts/ActionSO/Template/ActionSO.cs:178-188 | corrected: one sweep, one uncaught notification with the default, and the default stored only when nothing escaped |
| EventChannels.ActionSO.UnsubscribeAll | Assets/_Assets/Scripts/ActionSO/Template/ActionSO.cs:234-245 | the lists become what UnsubscribeAllFrom gives for the action family |
| EventChannels.ActionSO.Unsubscribe | Assets/_Assets/Scripts/ActionSO/Template/ActionSO.cs:252-263 | the hits are nulled from the back and then one sweep runs, unless the marking threw |
| EventChannels.RaiseDefaultNotifiesTwice | Assets/_Assets/Scripts/ActionSO/Template/ActionSO.cs:178-188 | as written: a lone subscriber receives the default value twice from one Raise() |
| EventChannels.UnsubscribeLeavesNull | Assets/_Assets/Scripts/Event/Template/EventSO.cs:336-347 | as written: unsubscribing two adjacent entries of one origin leaves a null in the list |
| EventChannels.UnsubscribeMissesSubscriber | Assets/_Assets/Scripts/Event/Template/EventSO.cs:336-347 | as written: a subscriber added with an object and a method name, where the object's name is not that method name, is left alone by unsubscribing that object and method name and survives the sweep |
| EventChannels.MarkBackByMethodNullsHits | Assets/_Assets/Scripts/Event/Template/EventSO.cs:336-347 | corrected: on a null-free list the backward marking loop does not throw and nulls exactly the entries whose origin and own method name are the ones asked for, in place |
| EventChannels.UnsubscribeByMethodHitsSubscriber | Assets/_Assets/Scripts/Event/Template/EventSO.cs:336-347 | corrected: the last subscriber added with an object and a method name is nulled by unsubscribing them, whatever the object's name |
| VoidChannels.FireBackThrowsOnNull | Assets/_Assets/Scripts/Event/ConcreteImplementation/VoidEventSO.cs:12-20 | Raise throws whenever the subscriber list holds a null entry |
| VoidChannels.FireBackCallsAll | Assets/_Assets/Scripts/Event/ConcreteImplementation/VoidEventSO.cs:12-20 | on a list without nulls or failing responses, Raise completes and invokes every set response, last entry first, and nothing else |
| VoidChannels.FireLoop | Assets/_Assets/Scripts/Event/ConcreteImplementation/VoidEventSO.cs:14-17 | the backward loop invokes the responses and throws as FireBack says |
| VoidChannels.MarkBackThrowsOnNull | Assets/_Assets/Scripts/Event/ConcreteImplementation/VoidEventSO.cs:28-48 | both unsubscribe loops throw whenever the list holds a null entry |
| VoidChannels.UnsubscribeAllBreaksRaise | Assets/_Assets/Scripts/Event/ConcreteImplementation/VoidEventSO.cs:28-37 | as written: once UnsubscribeAll has nulled an entry, the next Raise throws |
| VoidChannels.UnsubscribeAllTwiceThrows | Assets/_Assets/Scripts/Event/ConcreteImplementation/VoidEventSO.cs:28-37 | as written: a second UnsubscribeAll of the same origin throws on the null the first left |
| VoidChannels.RemoveOrigin | Assets/_Assets/Scripts/Event/ConcreteImplementation/VoidEventSO.cs:28-37 | corrected: the entries of the origin are removed, and the list is left without nulls |
| VoidChannels.RemoveOriginKeepsRaise | Assets/_Assets/Scripts/Event/ConcreteImplementation/VoidEventSO.cs:28-37 | corrected: after the removal a Raise without failing responses completes |
| VoidChannels.VoidChannel.constructor | Assets/_Assets/Scripts/Event/ConcreteImplementation/VoidEventSO.cs:10 | a new asset has an empty own list, an empty hidden base list and has not been raised |
| VoidChannels.VoidChannel.Subscribe | Assets/_Assets/Scripts/Event/ConcreteImplementation/VoidEventSO.cs:22-26 | exactly one subscriber with the origin, name and response is appended to the own list; the hidden list is untouched |
| VoidChannels.VoidChannel.Raise | Assets/_Assets/Scripts/Event/ConcreteImplementation/VoidEventSO.cs:12-20 | the responses are invoked from the back as FireBack says; HasRaised is set only when no exception escaped; the lists are unchanged |
| VoidChannels.VoidChannel.UnsubscribeAll | Assets/_Assets/Scripts/Event/ConcreteImplementation/VoidEventSO.cs:28-37 | as written: every entry of the origin is replaced with null in place and the length is kept; a null entry throws |
| VoidChannels.VoidChannel.Unsubscribe | Assets/_Assets/Scripts/Event/ConcreteImplementation/VoidEventSO.cs:39-48 | as written: entries whose origin matches and whose origin's name is the method name are nulled in place |
| VoidChannels.VoidChannel.UnsubscribeAllChecked | Assets/_Assets/Scripts/Event/ConcreteImplementation/VoidEventSO.cs:28-37 | corrected: the entries of the origin are removed from the own list |
| VoidChannels.VoidChannel.RemoveNullSubscribers | Assets/_Assets/Scripts/Event/Template/EventSO.cs:206-215 | the inherited sweep touches only the hidden base list, never the own list |
| VoidChannels.VoidChannel.OnEditorStopped | Assets/_Assets/Scripts/Event/Template/EventSO.cs:183-186 | the inherited reset clears only the hidden base list |
| ValueReferences.ValueReference.constructor | Assets/_Assets/Scripts/ActionSO/Template/ValueReference.cs:22-26 | a new reference holds the default value, no asset, and is in value mode |
| ValueReferences.ValueReference.Value | Assets/_Assets/Scripts/ActionSO/Template/ValueReference.cs:89-101 | the local value in value mode or without an asset, otherwise the asset's stored value; the implicit conversion gives the same |
| ValueReferences.ValueReference.SetValue | Assets/_Assets/Scripts/ActionSO/Template/ValueReference.cs:102-112 | value mode writes the local value; reference mode raises the asset with the value, and throws exactly when the asset is missing; unless it threw, Value then reads the value back |
| ValueReferences.ValueReference.UpdateAsset | Assets/_Assets/Scripts/ActionSO/Template/ValueReference.cs:115-118 | the inspector mirror becomes the asset reference and nothing else changes |
| ValueReferences.ValueReference.SetAsset | Assets/_Assets/Scripts/ActionSO/Template/ValueReference.cs:128-131 | the asset is replaced and the mode is kept, so a value-mode reference reads the same value as before |
| VariableReferences.VariableReference.constructor | Assets/_Assets/Scripts/Event/VariableReference.cs:9-11 | a new reference has no event and follows one by default |
| VariableReferences.VariableReference.CurrentValue | Assets/_Assets/Scripts/Event/VariableReference.cs:23-37 | the event's last raised value when the reference follows an event that is set, the constant otherwise; the catch is unreachable |
| VariableReferences.VariableReference.SetCurrentValue | Assets/_Assets/Scripts/Event/VariableReference.cs:38-42 | the constant is stored before the event is raised, so it is kept even when raising throws; a missing event throws; the value reads back unless the followed event's sweep threw |
| VariableReferences.VariableReference.GetEvent | Assets/_Assets/Scripts/Event/VariableReference.cs:45-48 | gives the event last stored by SetEvent |
| VariableReferences.VariableReference.SetEvent | Assets/_Assets/Scripts/Event/VariableReference.cs:50-53 | GetEvent then returns the event just set; the mode and constant are kept |
| RuntimeSets.RemovedFirst | Assets/_Assets/Scripts/RuntimeSet/RuntimeSet.cs:24-30 | removing an item that is absent leaves the list as it is |
| RuntimeSets.AddedDistinct | Assets/_Assets/Scripts/RuntimeSet/RuntimeSet.cs:16-22 | Add keeps a duplicate-free list duplicate-free, the item is then in it, and nothing is lost |
| RuntimeSets.RemovedFirstDistinct | Assets/_Assets/Scripts/RuntimeSet/RuntimeSet.cs:24-30 | on a duplicate-free list Remove drops the item altogether, keeps every other element and keeps the list duplicate-free |
| RuntimeSets.RemoveUndoesAdd | Assets/_Assets/Scripts/RuntimeSet/RuntimeSet.cs:16-30 | removing an item just added to a list without it gives the list back |
| RuntimeSets.AddAllRegisters | Assets/_Assets/Scripts/RuntimeSet/RuntimeSet.cs:104-114 | registering keeps the set duplicate-free, adds every item and loses nothing that was there |
| RuntimeSets.RemoveAllUnregisters | Assets/_Assets/Scripts/RuntimeSet/RuntimeSet.cs:104-114 | unregistering from a duplicate-free set leaves none of the items and every other element |
| RuntimeSets.RegisterThenUnregister | Assets/_Assets/Scripts/RuntimeSet/RuntimeSet.cs:84-122 | Init then OnDisable leaves exactly the elements that were there before and are not among the items |
| RuntimeSets.WithoutDrops | Assets/_Assets/Scripts/Event/MessageListener/MessageListenerSet.cs:31 | RemoveAll drops exactly the entries equal to the item, and shortens the list exactly when the item was there |
| RuntimeSets.RuntimeSet.constructor | Assets/_Assets/Scripts/RuntimeSet/RuntimeSet.cs:13 | a new set is empty |
| RuntimeSets.RuntimeSet.Add | Assets/_Assets/Scripts/RuntimeSet/RuntimeSet.cs:16-22 | the item is appended unless it is already present |
| RuntimeSets.RuntimeSet.Remove | Assets/_Assets/Scripts/RuntimeSet/RuntimeSet.cs:24-30 | the first occurrence is dropped when present; nothing changes otherwise |
| RuntimeSets.RuntimeSet.Clear | Assets/_Assets/Scripts/RuntimeSet/RuntimeSet.cs:33-36 | the set is emptied |
| RuntimeSets.RuntimeSetInitializer.constructor | Assets/_Assets/Scripts/RuntimeSet/RuntimeSet.cs:79-81 | the initializer holds its set, its items and its children flag |
| RuntimeSets.RuntimeSetInitializer.RegisterItems | Assets/_Assets/Scripts/RuntimeSet/RuntimeSet.cs:89-115 | when adding from the children the items are first replaced by the components found; each item is then added to or removed from the set in order; a missing set throws exactly when there is an item |
| RuntimeSets.RuntimeSetInitializer.Init | Assets/_Assets/Scripts/RuntimeSet/RuntimeSet.cs:118-122 | the items are registered with the set |
| RuntimeSets.RuntimeSetInitializer.OnDisable | Assets/_Assets/Scripts/RuntimeSet/RuntimeSet.cs:84-87 | the same items are unregistered; the item list is not refreshed |
| RuntimeSets.AddObject | Assets/_Assets/Scripts/Event/MessageListener/MessageListenerSet.cs:11-22 | throws exactly when the object has no listener, and otherwise adds the listener as Add does, so no duplicate results |
| RuntimeSets.RemoveObject | Assets/_Assets/Scripts/Event/MessageListener/MessageListenerSet.cs:25-37 | throws exactly when there is no listener or it is not in the set, changing nothing; otherwise every equal entry is removed |
| Requirements.ActionObjective.constructor | Assets/_Assets/Scripts/ActionSO/MessageListener/BaseActionObjective.cs:17-19 | a new objective is not complete and holds no parent, callback or counter |
| Requirements.ActionObjective.HasCompleteAction | Assets/_Assets/Scripts/ActionSO/MessageListener/BaseActionObjective.cs:12 | the getter reads the saved completion flag |
| Requirements.ActionObjective.SetHasCompleteAction | Assets/_Assets/Scripts/ActionSO/MessageListener/BaseActionObjective.cs:12 | the setter makes the getter return the value set, and changes nothing else |
| Requirements.ActionObjective.Complete | Assets/_Assets/Scripts/ActionSO/MessageListener/BaseActionObjective.cs:23-26 | the objective reports complete afterwards; nothing else changes |
| Requirements.ActionObjective.Reset | Assets/_Assets/Scripts/ActionSO/MessageListener/BaseActionObjective.cs:28-32 | the objective reports not complete afterwards; nothing else changes |
| Requirements.ActionObjective.Setup | Assets/_Assets/Scripts/ActionSO/MessageListener/CollisionMessageListener.cs:18-31 | an area objective records the parent, subscribes its response to the collision action and stores the callback; a missing action is logged after the parent is recorded; an item objective does nothing |
| Requirements.ActionObjective.Dispose | Assets/_Assets/Scripts/ActionSO/MessageListener/CollisionMessageListener.cs:43-53 | an area objective calls the collision action's Unsubscribe, whose lists change exactly as the as-written Unsubscribe changes them (see Findings), a missing action or an exception being logged; an item objective does nothing |
| Requirements.ActionObjective.OnEventRaised | Assets/_Assets/Scripts/ActionSO/MessageListener/CollisionMessageListener.cs:34-41 | a collision with another collider is ignored; the target's collision completes the objective and then invokes the stored callback |
| Requirements.CountStep | Assets/_Assets/Scripts/Event/MessageListener/CollisionMessageListener.cs:27-32 | the quantity is added with 32-bit wrap-around; the step completes exactly when the total reaches the target, and then clamps it to the target; the counter never ends above the target |
| Requirements.CountReachesTarget | Assets/_Assets/Scripts/Event/MessageListener/CollisionMessageListener.cs:24-34 | with no wrap-around, non-negative quantities whose total reaches the gap complete the requirement |
| Requirements.Requirement.constructor | Assets/_Assets/Scripts/Event/MessageListener/MessageListener.cs:69-71 | a new requirement is not complete and holds no parent, callback or counter |
| Requirements.Requirement.HasCompleteAction | Assets/_Assets/Scripts/Event/MessageListener/MessageListener.cs:32 | the getter reads the saved completion flag |
| Requirements.Requirement.Reset | Assets/_Assets/Scripts/Event/MessageListener/MessageListener.cs:45-49 | the requirement reports not complete afterwards; nothing else changes |
| Requirements.Requirement.Setup | Assets/_Assets/Scripts/Event/MessageListener/MessageListener.cs:74-86 | the callback is stored, the response subscribed to the event, then the parent recorded; a missing event is logged and leaves the parent as it was |
| Requirements.Requirement.Dispose | Assets/_Assets/Scripts/Event/MessageListener/MessageListener.cs:89-99 | the requirement calls the event's Unsubscribe, whose lists change exactly as the as-written Unsubscribe changes them (which removes nothing unless the origin's name equals the method name, see Findings); a missing event or an exception is logged |
| Requirements.Requirement.Complete | Assets/_Assets/Scripts/Event/MessageListener/MessageListener.cs:101-106 | the flag is set, then the UnityEvent is invoked, then the callback if one is stored |
| Requirements.Requirement.OnEventRaised | Assets/_Assets/Scripts/Event/MessageListener/CollisionMessageListener.cs:11-34 | a plain requirement always completes; a collision requirement only for its target; an item requirement ignores other items, adds the quantity with wrap-around, and on reaching the target clamps and completes |
| MissionObjectives.Steps | Assets/_Assets/Scripts/Mission/MissionObjective.cs:140-154 | SetupActions and DisposeActions make one call per requirement, in list order |
| MissionObjectives.CountComplete | Assets/_Assets/Scripts/Mission/MissionObjective.cs:81-89 | the count of complete requirements is at most the number of requirements |
| MissionObjectives.CountCompleteAll | Assets/_Assets/Scripts/Mission/MissionObjective.cs:79-95 | the count equals the number of requirements exactly when every requirement is complete, so always for none |
| MissionObjectives.ResetAsWritten | Assets/_Assets/Scripts/Mission/MissionObjective.cs:162-173 | as written: the first flag is cleared; a Locked objective keeps every later flag, any other has them all cleared |
| MissionObjectives.ResetLockedKeepsSecond | Assets/_Assets/Scripts/Mission/MissionObjective.cs:162-173 | as written: a Locked objective with two completed requirements keeps the second completed, where the intended reset clears both |
| MissionObjectives.ResetIntendedClears | Assets/_Assets/Scripts/Mission/MissionObjective.cs:158-173 | corrected: the intended reset clears every flag and agrees with the written one when the objective is not Locked |
| MissionObjectives.FindResolving | Assets/_Assets/Scripts/Mission/MissionDataManager.cs:33 | the first ongoing reference whose GUID resolves to the objective, or none when no reference does |
| MissionObjectives.MoveAsWritten | Assets/_Assets/Scripts/Mission/MissionDataManager.cs:33-38 | as written: the completed list gains one entry; the first resolving reference moves there, and without one the ongoing list is kept and a null is appended |
| MissionObjectives.MoveChecked | Assets/_Assets/Scripts/Mission/MissionDataManager.cs:31-48 | corrected: an objective that is not ongoing leaves both lists as they were; otherwise as written |
| MissionObjectives.RemovedFirstAt | Assets/_Assets/Scripts/Mission/MissionDataManager.cs:37 | List.Remove removes exactly the entry at the first position holding it |
| MissionObjectives.CompleteNotOngoingBreaksLoad | Assets/_Assets/Scripts/Mission/MissionDataManager.cs:33-38 | as written: completing an objective that is not ongoing leaves lists on which OnLoad throws |
| MissionObjectives.MoveCheckedKeepsLoad | Assets/_Assets/Scripts/Mission/MissionDataManager.cs:33-38 | corrected: lists that load keep loading after any completion |
| MissionObjectives.Resolved | Assets/_Assets/Scripts/Mission/MissionDataManager.cs:110-114 | every objective a completed entry resolves to is in the set |
| MissionObjectives.MissionObjective.constructor | Assets/_Assets/Scripts/Mission/MissionObjective.cs:25-29 | a new objective is Locked with no manager, and has made no calls |
| MissionObjectives.MissionObjective.ProgressPredicatesExclusive | Assets/_Assets/Scripts/Mission/MissionObjective.cs:192-205 | exactly one of IsLocked, IsInProgress and IsCompleted holds |
| MissionObjectives.MissionObjective.SetProgress | Assets/_Assets/Scripts/Mission/MissionObjective.cs:34-37 | CurrentProgress then returns the value set, and nothing else changes |
| MissionObjectives.MissionObjective.Init | Assets/_Assets/Scripts/Mission/MissionObjective.cs:69-74 | the manager is recorded, the objective is in progress, and every requirement is set up in order |
| MissionObjectives.MissionObjective.SetupActions | Assets/_Assets/Scripts/Mission/MissionObjective.cs:140-146 | one Setup per requirement in order; nothing else changes |
| MissionObjectives.MissionObjective.DisposeActions | Assets/_Assets/Scripts/Mission/MissionObjective.cs:148-154 | one Dispose per requirement in order; nothing else changes |
| MissionObjectives.MissionObjective.Complete | Assets/_Assets/Scripts/Mission/MissionObjective.cs:44-63 | the requirements are disposed, the objective is Finished, the manager is told, and OnComplete runs only when there is a manager |
| MissionObjectives.MissionObjective.CheckRemainingObjectives | Assets/_Assets/Scripts/Mission/MissionObjective.cs:79-95 | the objective completes exactly when every requirement is complete, and otherwise nothing changes |
| MissionObjectives.MissionObjective.ResetEverything | Assets/_Assets/Scripts/Mission/MissionObjective.cs:162-173 | as written: a Locked objective resets only its first requirement; any other resets all of them and is in progress; no requirements change nothing |
| MissionObjectives.MissionObjective.ResetEverythingChecked | Assets/_Assets/Scripts/Mission/MissionObjective.cs:158-173 | corrected: every requirement is reset and a started objective is in progress again |
| MissionObjectives.MissionObjective.MarkAsCompleted | Assets/_Assets/Scripts/Mission/MissionObjective.cs:179-186 | the objective is Finished and every requirement reports complete |
| MissionObjectives.MissionObjective.OnEditorStopped | Assets/_Assets/Scripts/Mission/MissionObjective.cs:129-137 | the objective is Locked with no manager and its requirements disposed; only the first requirement's flag is cleared |
| MissionObjectives.MissionDataManager.constructor | Assets/_Assets/Scripts/Mission/MissionDataManager.cs:16-23 | a new manager has empty ongoing and completed lists |
| MissionObjectives.MissionDataManager.CompleteObjective | Assets/_Assets/Scripts/Mission/MissionDataManager.cs:31-48 | as written: the lists change as MoveAsWritten says, and the objective is published as the last completed one |
| MissionObjectives.MissionDataManager.CompleteObjectiveChecked | Assets/_Assets/Scripts/Mission/MissionDataManager.cs:31-48 | corrected: the lists change as MoveChecked says |
| MissionObjectives.MissionDataManager.AddMission | Assets/_Assets/Scripts/Mission/MissionDataManager.cs:55-64 | a mission already ongoing changes nothing; otherwise its reference is appended, it is initialised with this manager and published as the last started one; the completed list is untouched |
| MissionObjectives.MissionDataManager.InitOngoing | Assets/_Assets/Scripts/Mission/MissionDataManager.cs:104-108 | throws exactly when an ongoing reference does not resolve; otherwise every ongoing objective is initialised with this manager |
| MissionObjectives.MissionDataManager.MarkCompleted | Assets/_Assets/Scripts/Mission/MissionDataManager.cs:110-114 | throws exactly on a null or unresolvable completed entry; otherwise every completed objective is marked complete, and objectives no entry names are untouched |
| MissionObjectives.MissionDataManager.OnLoad | Assets/_Assets/Scripts/Mission/MissionDataManager.cs:102-115 | throws exactly when the lists do not load; otherwise ongoing objectives are initialised with this manager and completed ones marked complete |
| MissionObjectives.MissionDataManager.OnEditorStopped | Assets/_Assets/Scripts/Mission/MissionDataManager.cs:84-88 | both lists are emptied |
| Objectives.StateIsCompleted | Assets/_Assets/Scripts/Mission/Objective.cs:198-201 | reading a missing state throws; otherwise true exactly for the completed state |
| Objectives.AllCompletedTrue | Assets/_Assets/Scripts/Mission/Mission.cs:53-64 | IsCompleted returns true exactly when every objective is present and completed, so also for none |
| Objectives.AllCompletedFalse | Assets/_Assets/Scripts/Mission/Mission.cs:53-64 | IsCompleted returns false exactly when some objective is not completed and every one before it is |
| Objectives.StartedCalls | Assets/_Assets/Scripts/Mission/Mission.cs:75-82 | Mission.Init reports at most one start per objective |
| Objectives.StartedCall | Assets/_Assets/Scripts/Mission/Objective.cs:84-99 | one objective's Init reports at most one start |
| Objectives.StartedCallsSpec | Assets/_Assets/Scripts/Mission/Mission.cs:75-82 | every start reported is of an objective without prerequisites, and every such objective is reported |
| Objectives.FindTracked | Assets/_Assets/Scripts/Mission/FreeformTriggerObjective.cs:97 | List.Find gives the first tracked entry for the trigger, or none when there is none |
| Objectives.AfterSceneStop | Assets/_Assets/Scripts/Mission/FreeformTriggerObjective.cs:47-52 | as written the subscription count on the channel is untouched by a scene stop; disposing as intended drops it to zero |
| Objectives.SubscriptionsPileUp | Assets/_Assets/Scripts/Mission/FreeformTriggerObjective.cs:47-82 | as written every scene cycle adds one subscription to the channel, so after n cycles there are n more |
| Objectives.SubscriptionsDisposed | Assets/_Assets/Scripts/Mission/FreeformTriggerObjective.cs:76-82 | corrected: after any cycle no subscription is left |
| Objectives.NewTracking | Assets/_Assets/Scripts/Mission/FreeformTriggerObjective.cs:59-64 | a fresh array with one entry per trigger of the set, in order, none entered |
| Objectives.Objective.constructor | Assets/_Assets/Scripts/Mission/Objective.cs:19-31 | a new objective has no mission, no state, is inactive and holds no subscriptions |
| Objectives.Objective.IsLocked | Assets/_Assets/Scripts/Mission/Objective.cs:215-218 | reading a missing state throws; otherwise true exactly for the Locked state |
| Objectives.Objective.IsInProgress | Assets/_Assets/Scripts/Mission/Objective.cs:138-141 | reading a missing state throws; otherwise true exactly for the in-progress state |
| Objectives.Objective.StatesExclusive | Assets/_Assets/Scripts/Mission/Objective.cs:138-218 | at most one of IsLocked, IsInProgress and IsCompleted holds, and one does whenever there is a state |
| Objectives.Objective.ValidateContext | Assets/_Assets/Scripts/Mission/Objective.cs:37-40 | a mission is attached and the objective in progress, the state read only when there is a mission; a freeform objective first needs a non-empty trigger set, and a missing set throws |
| Objectives.Objective.ValidatePrerequisites | Assets/_Assets/Scripts/Mission/Objective.cs:237-249 | true when not Locked; when Locked, whether every prerequisite is completed; a missing state throws |
| Objectives.Objective.HasEnteredAllTriggers | Assets/_Assets/Scripts/Mission/FreeformTriggerObjective.cs:116-120 | false while inactive; otherwise true exactly when every tracked entry has been entered; a missing array throws |
| Objectives.Objective.SetActive | Assets/_Assets/Scripts/Mission/Objective.cs:205-208 | IsActive becomes the value and nothing else changes |
| Objectives.Objective.Update | Assets/_Assets/Scripts/Mission/Objective.cs:147-150 | changes nothing, and throws exactly when there is no state |
| Objectives.Objective.InitializeTracking | Assets/_Assets/Scripts/Mission/FreeformTriggerObjective.cs:57-68 | the array is rebuilt with one unentered entry per trigger, and one subscription added to the channel; a missing set or channel throws |
| Objectives.Objective.Init | Assets/_Assets/Scripts/Mission/Objective.cs:84-99 | the mission is attached; with prerequisites the objective is Locked and inactive; without, in progress, active and its start reported; a freeform objective then builds its tracking |
| Objectives.Objective.Unlock | Assets/_Assets/Scripts/Mission/Objective.cs:109-131 | throws when not Locked or without a mission, changing nothing; otherwise in progress and its start reported, and active only when reporting succeeded |
| Objectives.Objective.Complete | Assets/_Assets/Scripts/Mission/Objective.cs:67-78 | the state becomes completed and the mission is told; a missing mission is logged |
| Objectives.Objective.OnObjectiveCompleted | Assets/_Assets/Scripts/Mission/Objective.cs:224-230 | a Locked objective whose prerequisites are all completed unlocks; otherwise nothing changes |
| Objectives.Objective.OnEnable | Assets/_Assets/Scripts/Mission/Objective.cs:52-60 | a missing completion event is loaded, and may still be missing |
| Objectives.Objective.OnDisable | Assets/_Assets/Scripts/Mission/Objective.cs:156-159 | every completion subscription of the objective is removed; a missing event throws |
| Objectives.Objective.OnSceneStarted | Assets/_Assets/Scripts/Mission/Objective.cs:166-172 | IsActive becomes ValidateContext; a Locked-at-start objective subscribes to the completion event; an active freeform objective then builds its tracking |
| Objectives.Objective.SceneDispose | Assets/_Assets/Scripts/Mission/FreeformTriggerObjective.cs:76-82 | the tracking array is emptied; an active objective then drops every channel subscription, and a missing channel throws |
| Objectives.Objective.OnSceneStopped | Assets/_Assets/Scripts/Mission/FreeformTriggerObjective.cs:47-52 | as written: IsActive is cleared first, so the channel subscriptions stay |
| Objectives.Objective.OnSceneStoppedChecked | Assets/_Assets/Scripts/Mission/FreeformTriggerObjective.cs:47-52 | corrected: a freeform objective disposes its channel subscriptions while still active, then IsActive is cleared |
| Objectives.Objective.OnEditorStopped | Assets/_Assets/Scripts/Mission/Objective.cs:184-191 | inactive, with no state and no mission; every completion subscription is removed, and a missing event throws |
| Objectives.Objective.OnTriggerEnterMessage | Assets/_Assets/Scripts/Mission/FreeformTriggerObjective.cs:89-109 | a message for a trigger outside the set, while inactive, or from a collider without the tag is ignored; otherwise the first tracked entry for the trigger is marked entered, the trigger switched off if so configured, and the objective completes once every entry is entered |
| Objectives.Mission.constructor | Assets/_Assets/Scripts/Mission/Mission.cs:11-12 | a new mission has its objectives, no manager, and has sent nothing |
| Objectives.Mission.IsCompleted | Assets/_Assets/Scripts/Mission/Mission.cs:53-64 | the result is AllCompleted of the objectives |
| Objectives.Mission.CompletionCalls | Assets/_Assets/Scripts/Mission/Mission.cs:15-30 | without a manager nothing is sent; otherwise the objective's completion first, and the mission's completion exactly when the mission is then complete |
| Objectives.Mission.StartObjective | Assets/_Assets/Scripts/Mission/Mission.cs:66-69 | the start is reported to the manager; a missing manager throws and sends nothing |
| Objectives.Mission.CompleteMission | Assets/_Assets/Scripts/Mission/Mission.cs:36-46 | the completion is reported when there is a manager; a missing manager is logged |
| Objectives.Mission.CheckRemainingObjectives | Assets/_Assets/Scripts/Mission/Mission.cs:25-30 | CompleteMission runs exactly when IsCompleted returns true; an exception from IsCompleted escapes |
| Objectives.Mission.CompleteObjective | Assets/_Assets/Scripts/Mission/Mission.cs:15-19 | sends what CompletionCalls lists; throws without a manager or when IsCompleted throws |
| Objectives.Mission.InitObjective | Assets/_Assets/Scripts/Mission/Mission.cs:78-81 | the objective is initialised with this mission and its start reported when it has no prerequisites |
| Objectives.Mission.Init | Assets/_Assets/Scripts/Mission/Mission.cs:75-82 | the manager is recorded; unless some objective is null or its Init throws, every objective is initialised with this mission and the starts are reported in order |
| SceneIcons.EnabledScenes | Assets/Editor/ScenePanel/SceneIconDataBase.cs:48-50 | every enabled build scene, and only enabled ones, in build order |
| SceneIcons.FirstWithPath | Assets/Editor/ScenePanel/SceneIconDataBase.cs:57 | the first entry for the path, or none exactly when no entry has it |
| SceneIcons.Reconciled | Assets/Editor/ScenePanel/SceneIconDataBase.cs:53-64 | one entry per enabled scene, in build order, with that scene's path |
| SceneIcons.ReconciledKeepsIcons | Assets/Editor/ScenePanel/SceneIconDataBase.cs:44-82 | after an update GetIcon gives every enabled scene's path the icon it gave before, custom or default, and any other path the default |
| SceneIcons.ReconciledDropsDisabled | Assets/Editor/ScenePanel/SceneIconDataBase.cs:48-66 | a path no enabled scene has gets no entry |
| SceneIcons.SceneIconDatabase.constructor | Assets/Editor/ScenePanel/SceneIconDataBase.cs:16-20 | a new database has its default icon and no entries |
| SceneIcons.SceneIconDatabase.GetIcon | Assets/Editor/ScenePanel/SceneIconDataBase.cs:74-82 | the icon of the first entry for the path when it has one; the default when that entry has none or there is no entry |
| SceneIcons.SceneIconDatabase.UpdateSceneList | Assets/Editor/ScenePanel/SceneIconDataBase.cs:44-69 | the list is replaced by the reconciled one and the default icon is kept |
| AssetSelector.InheritsFromGenericBase | Assets/Editor/AssetSelector/GenericAssetSelectorDrawer.cs:96-109 | true exactly when some type on the chain from the type itself, before object, is the filter definition closed over exactly the expected type |
| AssetSelector.InheritsGenericIsAncestor | Assets/Editor/AssetSelector/GenericAssetSelectorDrawer.cs:96-109 | the closed type found is the type itself or one of its base types |
| AssetSelector.MatchingExactly | Assets/Editor/AssetSelector/GenericAssetSelectorDrawer.cs:62-89 | an asset is offered exactly when it was loaded and is a candidate: assignable to T and admitted by the filter |
| AssetSelector.IndexOf | Assets/Editor/AssetSelector/GenericAssetSelectorDrawer.cs:38 | the first position of the value, or -1 exactly when it is absent |
| AssetSelector.CollectMatching | Assets/Editor/AssetSelector/GenericAssetSelectorDrawer.cs:62-89 | the loop keeps exactly the loaded candidates, in load order |
| AssetSelector.GenericAssetSelectorDrawer.constructor | Assets/Editor/AssetSelector/GenericAssetSelectorDrawer.cs:12-14 | a new drawer is not initialised and holds no entries |
| AssetSelector.GenericAssetSelectorDrawer.InitializeMatchingAssets | Assets/Editor/AssetSelector/GenericAssetSelectorDrawer.cs:52-94 | the entries are a null entry followed by the candidates in load order, with one name per entry, "<None>" for the null one |
| AssetSelector.GenericAssetSelectorDrawer.EnsureInitialized | Assets/Editor/AssetSelector/GenericAssetSelectorDrawer.cs:24-28 | the entries are built on first use only, and kept afterwards |
| AssetSelector.GenericAssetSelectorDrawer.CurrentIndex | Assets/Editor/AssetSelector/GenericAssetSelectorDrawer.cs:37-39 | the first position of the current value among the entries, or the null entry when there is no value or it is not a candidate |
| AssetSelector.GenericAssetSelectorDrawer.Select | Assets/Editor/AssetSelector/GenericAssetSelectorDrawer.cs:43-48 | a value is written back exactly when the picked entry differs from the current one, and it is that entry |
| AssetSelector.Wrap | Assets/Editor/AssetSelector/GenericAssetSelectorDrawer.cs:87 | each candidate becomes a present entry at the same position |
| Explorer.GatheredWellFormed | Assets/Editor/ScriptableObjectExplorer/ScriptableObjectExplorerWindow.cs:300-324 | the gathered dictionary has each type once among its keys and a list for exactly those types |
| Explorer.GatheredLists | Assets/Editor/ScriptableObjectExplorer/ScriptableObjectExplorerWindow.cs:313-322 | the dictionary has a list for a type exactly when some loaded asset of that type is admitted, and the list holds those assets in load order |
| Explorer.AdmittedOfTypeExactly | Assets/Editor/ScriptableObjectExplorer/ScriptableObjectExplorerWindow.cs:311-322 | an asset is gathered under its type exactly when it was loaded, its namespace is enabled and its name contains the search term ignoring case |
| Explorer.FilteredConcreteTypes | Assets/Editor/ScriptableObjectExplorer/ScriptableObjectExplorerWindow.cs:362-368 | a type is offered exactly when it is gathered, not abstract and in an enabled namespace |
| Explorer.ExplorerWindow.constructor | Assets/Editor/ScriptableObjectExplorer/ScriptableObjectExplorerWindow.cs:41-58 | a new window has an empty dictionary and its filters and search term |
| Explorer.ExplorerWindow.GatherScriptableObjects | Assets/Editor/ScriptableObjectExplorer/ScriptableObjectExplorerWindow.cs:300-324 | the dictionary becomes the gathering of the loaded assets under the current filters; the filters are kept |
| Explorer.ExplorerWindow.GetFilteredConcreteTypes | Assets/Editor/ScriptableObjectExplorer/ScriptableObjectExplorerWindow.cs:362-368 | the gathered types that are concrete and in an enabled namespace |
| Explorer.GatherAll | Assets/Editor/ScriptableObjectExplorer/ScriptableObjectExplorerWindow.cs:302-323 | the loop builds exactly the gathered dictionary |
| Explorer.TypeNode.constructor | Assets/Editor/ScriptableObjectExplorer/ScriptableObjectExplorerWindow.cs:490-495 | a new node holds its type and assets, no parent and no children |
| Explorer.KeyIndex | Assets/Editor/ScriptableObjectExplorer/ScriptableObjectExplorerWindow.cs:412 | the position of the type among the keys, or none exactly when it is not a key |
| Explorer.ParentIn | Assets/Editor/ScriptableObjectExplorer/ScriptableObjectExplorerWindow.cs:409-420 | the node found up a chain is one of the nodes |
| Explorer.ParentOf | Assets/Editor/ScriptableObjectExplorer/ScriptableObjectExplorerWindow.cs:409-420 | the node a type is linked under is one of the nodes |
| Explorer.ParentInNearest | Assets/Editor/ScriptableObjectExplorer/ScriptableObjectExplorerWindow.cs:409-420 | the node found is the nearest base type below ScriptableObject that has a node; when none is found no such base type has one |
| Explorer.Parents | Assets/Editor/ScriptableObjectExplorer/ScriptableObjectExplorerWindow.cs:403-421 | the parent of each gathered type, by position |
| Explorer.ChildNodesExactly | Assets/Editor/ScriptableObjectExplorer/ScriptableObjectExplorerWindow.cs:414-415 | with no node twice, a node is among a parent's children exactly when it is linked under that parent |
| Explorer.FindParent | Assets/Editor/ScriptableObjectExplorer/ScriptableObjectExplorerWindow.cs:409-420 | the while loop finds the parent that ParentOf describes |
| Explorer.CreateNodes | Assets/Editor/ScriptableObjectExplorer/ScriptableObjectExplorerWindow.cs:394-400 | one fresh unlinked node per gathered type, holding that type's assets |
| Explorer.SetParent | Assets/Editor/ScriptableObjectExplorer/ScriptableObjectExplorerWindow.cs:414 | one more node has its Parent set to its parent's node |
| Explorer.AddChild | Assets/Editor/ScriptableObjectExplorer/ScriptableObjectExplorerWindow.cs:415 | one more node is appended to its parent's children |
| Explorer.SkipUnlinked | Assets/Editor/ScriptableObjectExplorer/ScriptableObjectExplorerWindow.cs:410-420 | a node with no parent is left alone by the linking loop |
| Explorer.LinkParents | Assets/Editor/ScriptableObjectExplorer/ScriptableObjectExplorerWindow.cs:403-421 | every node with a parent is linked under it, and each parent's children are its child nodes in key order |
| Explorer.Adopt | Assets/Editor/ScriptableObjectExplorer/ScriptableObjectExplorerWindow.cs:429-433 | one more orphan is linked under the root and appended to its children |
| Explorer.SkipLinked | Assets/Editor/ScriptableObjectExplorer/ScriptableObjectExplorerWindow.cs:429 | a node that already has a parent is left alone by the orphan loop |
| Explorer.LinkOrphans | Assets/Editor/ScriptableObjectExplorer/ScriptableObjectExplorerWindow.cs:424-434 | every node still without a parent is linked under the root, in key order |
| Explorer.BuildTypeHierarchy | Assets/Editor/ScriptableObjectExplorer/ScriptableObjectExplorerWindow.cs:392-437 | one node per gathered type, linked under the node of its nearest base type below ScriptableObject that has one, or else under a new ScriptableObject root, and listed among that node's children in key order |
| Explorer.LinksConsistent | Assets/Editor/ScriptableObjectExplorer/ScriptableObjectExplorerWindow.cs:392-437 | a node is among another's children exactly when that other is its parent, and among the root's exactly when the root is its parent |
| Explorer.ForwardSlashes | Assets/Editor/ScriptableObjectExplorer/ScriptableObjectExplorerWindow.cs:236-237 | no backslash is left and every other character is kept in place |
| Explorer.RelativeFolderPathInside | Assets/Editor/ScriptableObjectExplorer/ScriptableObjectExplorerWindow.cs:235-249 | a folder inside the data path comes back as "Assets" followed by its path below the data path |
| Explorer.SiblingFolderAccepted | Assets/Editor/ScriptableObjectExplorer/ScriptableObjectExplorerWindow.cs:240-249 | as written: the sibling folder "/p/AssetsX" of the data path "/p/Assets" is accepted as "AssetsX" |
| Explorer.RelativeFolderPathCheckedInside | Assets/Editor/ScriptableObjectExplorer/ScriptableObjectExplorerWindow.cs:235-249 | corrected: the path is empty, the Assets folder itself, or a path below it |
| Explorer.RelativeFolderPathCheckedAgrees | Assets/Editor/ScriptableObjectExplorer/ScriptableObjectExplorerWindow.cs:235-249 | corrected: folders inside are accepted as before, and the sibling folder is refused |
| Explorer.CreateAssetPath | Assets/Editor/ScriptableObjectExplorer/ScriptableObjectExplorerWindow.cs:373-382 | a blank path or name refuses; otherwise the asset is requested at the path, a slash, the name and ".asset" |

## Left out

- SaveUtility: objects are values. Aliasing between fields, and a reference cycle, are not modelled, because the engine walks a tree of values here.
- SaveUtility: the type table has no array types and no struct (value) types. In the source an array field is an `IList` of fixed size: `Clear()` zeroes its elements, the first `Add` of a saved item throws NotSupportedException, and a null array field makes `Activator.CreateInstance` throw. The model's list kind rebuilds the list from the saved items instead. A struct-typed field is read through `GetValue`, which returns a boxed copy; the source fills that copy and never writes it back, so the field keeps its old value, while the model writes the restored value back in ApplyNested and ApplyTop.
- SaveUtility.ApplyDict: when a saved value cannot be stored, the model returns the cleared dictionary. The source keeps the entries stored before the failing one, and which those are depends on the saved dictionary's enumeration order, which a map does not carry.
- SaveUtility.ApplyDict: a saved list, dictionary or map value always throws in the model. The source's shallow copy stores such a value as it is when the dictionary's value type is `object`; the model has no runtime value for a saved container, so that case is not modelled.
- SaveUtilityNested.DictRestoreShallow: it inherits both limits of ApplyDict. After a throw it states a cleared dictionary where the source keeps the earlier entries, and it states a throw for every nested value, which a Dictionary with value type `object` accepts.
- SaveUtility.Store: storing a null where a value type is expected gives Null. In C#, FieldInfo.SetValue with null on a value-type field stores that type's default, and adding null to a list of a value type throws; neither is modelled.
- SaveUtility: reflection, Activator and Type.GetType are the class table `Table`. Exceptions are the `threw` flag together with the updated value. For lists and objects that value is the partly updated one; for dictionaries see ApplyDict above.
- SaveManager.SaveDataManager: the file I/O and the serialiser are the `files` map and the `decodes` parameter. The asynchronous tasks run to completion in one step. Three exception paths are not modelled: an exception from a saveable's GetSaveData during SaveAsync, an exception from OnSave or OnLoad in the notification loops, and a deserialiser that returns null, which LoadAsync then dereferences. The model treats GetSaveData, OnSave and OnLoad as never throwing and a successful decode as a map.
- SaveManagerSO.SaveDataManagerSO: the save file is the `file` field, writing it always succeeds, and decoding is the `decodes` parameter. The OnSave and OnLoad callbacks (InventoryDataManager's among them) are code outside the manager: their combined effect on the assets is a function parameter, applied once after the OnSave loop and once after the OnLoad loop, so the order in which they run and an exception from one of them are not modelled.
- GuidAssets: System.Guid.NewGuid is an oracle. Each method that may draw a GUID takes the drawn, non-empty string as a parameter (`fresh`, `drawn`).
- ScriptableObjectManagement.ScriptableObjectManager.LoadAllAssets: the order in which Resources.LoadAll returns the assets is a parameter (`loaded`).
- MonoRegistry: the scene scan (FindObjectsOfType) is a parameter listing the scene's components in order.
- GuidReferences: hash codes are modelled by the values they are computed from, so the collision of two distinct inputs is not modelled.
- GuidReferences: a scene object is an id, a name and its components. Unity's destroyed-object null is `None`.
- Subscribers: delegates are response ids, and invoking one appends to a call log. What a response does is not modelled beyond whether it throws (`failing`).
- EventChannels: the two Subscribe overloads of EventSO and ActionSO behave the same for a non-null response, so they are modelled as one method. They differ for a null response: the parameterless overload stores a wrapper that calls the response and throws when invoked, while the typed overload throws NullReferenceException when the subscriber wraps the null response in a new delegate, so nothing is appended.
- EventChannels: BaseEventSO's and BaseActionSO's base subscriber lists are never filled by the source. They are modelled only as far as OnEditorStopped and RemoveNullSubscribers walk them.
- RuntimeSets.MessageListenerSet: it reads the items of its RuntimeSet base, which is modelled as direct access to the `items` field.
- Trading.Product.TradeAsync: the awaited frames between the steps are taken as immediate, so no other code runs between two AddItem calls.
- Inventory: asset references (ItemReference) are GUIDs, resolved through the `assets` map.
- Inventory: C# int overflow is modelled explicitly by `AddInt` (32-bit two's-complement wrap-around). Math.Abs of int.MinValue throws (`Abs`).
- MissionObjectives.MissionObjective.Complete: the delayed CompleteMessage is sent at once.
- MissionObjectives.MissionObjective: the Setup and Dispose calls on its requirements are kept as a log of steps. Requirement lists are taken to be non-null.
- MissionObjectives.MissionDataManager.OnLoad: when it throws, the state of the objectives it has already re-initialised is not stated.
- Objectives: Mission.cs calls StartObjective, CompleteObjective and CompleteMission on a data manager class that does not declare them. Those calls are kept as the mission's `sent` log.
- Objectives.Objective: the progress-state assets come from GetFirstAssetOfType. Each is modelled by its kind, as if the lookup always finds the asset.
- Objectives.Objective: the subscriptions to the objective-completed event and to the trigger channel are counts (`completionSubscriptions`, `channelSubscriptions`), not entries in the subscriber lists of the EventChannels model. The FreeformTrigger finding is stated on these counts, so which entries stay in the channel's list, and what a later Raise then calls, is not modelled.
- Objectives: the [Save]/[DontSave] markings on the mission classes are not modelled here. Field filtering is modelled once, in SaveUtility.
- SceneIcons: the build-settings callback (EditorBuildSettings.sceneListChanged, hooked in OnEnable and OnDisable) is not modelled. The lists are taken to have no null entries.
- AssetSelector: the drop-down itself is editor GUI. The picked index is a parameter of `Select`.
- AssetSelector: the drawer's null checks on its two lists are folded into `initialized`. Assignability covers classes only, not interfaces.
- Explorer: the window's GUI, EditorPrefs, InitializeNamespaceFilters and SaveNamespacePreferences are not modelled.
- Explorer: AssetDatabase lookups (FindAssets, GUIDToAssetPath, LoadAssetAtPath) are the `loaded` parameter. GenerateUniqueAssetPath and CreateAsset are engine calls, left out after the guard.
- Explorer: the folder chosen in the folder panel is a parameter. Case-insensitive search folds ASCII letters only, and a null search term is the empty string. The folder test is an ordinal prefix test, while C# String.StartsWith(string) compares culture-sensitively; the two agree on the ASCII paths the window produces, and other cultures' comparisons are not modelled.
- Explorer.BuildTypeHierarchy: the nodes of the tree it builds are a ghost out-parameter, so the tree's shape is stated about nodes that compiled code does not return.
- Gameplay outside these files (vehicles, nitro boosts, input bindings, scene loading), Odin inspector attributes, asynchronous scheduling and floating point are not part of this model.

## Findings

| source | as written | input that shows it | evidently intended | confidence | as-written member | corrected member |
|---|---|---|---|---|---|---|
| Assets/_Assets/Scripts/Event/Template/EventSO.cs:336-347 | Unsubscribe(origin, methodName) compares the origin's object name with the method name instead of the subscriber's own method name | Subscribe(o, "OnEventRaised", r) followed by Unsubscribe(o, "OnEventRaised"), where o's name is not "OnEventRaised" | remove the subscribers whose origin and method name are the ones given | not executed | EventChannels.UnsubscribeMissesSubscriber | EventChannels.MarkBackByMethodNullsHits |
| Assets/_Assets/Scripts/SaveData/SaveDataManagerSO.cs:184-189 | Init loads slot 0 right after creating an empty save file, so it indexes an empty slot list | a first run, with no save file on disk | load a slot only when it exists | not executed | SaveManagerSO.SaveDataManagerSO.Init | SaveManagerSO.SaveDataManagerSO.InitChecked |
| Assets/_Assets/Scripts/SceneManagement/ObjectReference.cs:61 | Value casts the object the GUID resolves to straight to GameObject, so a registered MonoBehaviour comes back as null | a reference with no drop-in whose GUID names a registered component | return the component's GameObject | not executed | GuidReferences.ObjectReferenceValueLosesMonoBehaviour | GuidReferences.ObjectReference.ValueIntended |
| Assets/_Assets/Scripts/Inventory/Product.cs:15-42 | each line is validated on its own against the stock before the trade, and a receive line with a null item is not validated | two trade lines of 3 for an item stocked at 5; or a receive line with a null item | validate the whole trade first, then apply all of it or none | not executed | Trading.TradeOversells | Trading.Product.TradeChecked |
| Assets/_Assets/Scripts/Inventory/Item.cs:58-78 | TryConsume checks the stock against the signed quantity, then Consume removes its absolute value | TryConsume(-1) on an item stocked at 0 leaves -1 | check the stock against abs(quantity), the amount actually removed | not executed | Inventory.NegativeConsumeOverdraws | Inventory.Item.TryConsumeChecked |
| Assets/_Assets/Scripts/Event/Template/EventSO.cs:291-297 | the forward RemoveAt loop advances past the entry that slides into the removed slot | subscribers [null, null] leave [null] | remove every null entry | not executed | Subscribers.SweepForwardSkips | Subscribers.RemoveNullsChecked |
| Assets/_Assets/Scripts/ActionSO/Template/ActionSO.cs:178-188 | Raise() invokes the subscribers, then assigns StoredValue, whose setter raises a second time | a single subscriber is notified twice | notify each subscriber once | not executed | EventChannels.RaiseDefaultNotifiesTwice | EventChannels.ActionSO.RaiseDefaultChecked |
| Assets/_Assets/Scripts/Event/ConcreteImplementation/VoidEventSO.cs:28-37 | UnsubscribeAll sets entries to null and never removes them, so the next Raise throws | a list holding one subscriber of the origin | remove the origin's entries | not executed | VoidChannels.UnsubscribeAllBreaksRaise | VoidChannels.RemoveOriginKeepsRaise |
| Assets/_Assets/Scripts/Mission/MissionDataManager.cs:33-38 | completing an objective that is not ongoing appends a null (FirstOrDefault) to the completed list, and OnLoad then throws on it | an objective absent from the ongoing list | leave both lists unchanged | not executed | MissionObjectives.CompleteNotOngoingBreaksLoad | MissionObjectives.MoveCheckedKeepsLoad |
| Assets/_Assets/Scripts/Mission/MissionObjective.cs:162-173 | ResetEverything returns from its loop, in state Locked, right after resetting the first requirement | flags [true, true] in state Locked leave the second set | clear every flag | not executed | MissionObjectives.ResetLockedKeepsSecond | MissionObjectives.ResetIntendedClears |
| Assets/_Assets/Scripts/Mission/FreeformTriggerObjective.cs:47-82 | OnSceneStopped lets the base class clear IsActive before calling SceneDispose, which unsubscribes only while active | n scene cycles leave n live subscriptions | dispose while still active | not executed | Objectives.SubscriptionsPileUp | Objectives.Objective.OnSceneStoppedChecked |
| Assets/Editor/ScriptableObjectExplorer/ScriptableObjectExplorerWindow.cs:235-249 | the folder is accepted when it starts with the data path as a string | "/p/AssetsX" against data path "/p/Assets" | accept only the data folder itself or a path below it | not executed | Explorer.SiblingFolderAccepted | Explorer.RelativeFolderPathCheckedAgrees |

/**
 * The inventory: C# int arithmetic, the Item assets (Item.cs), the item value
 * objects (ItemQuantity.cs, ItemTransfer.cs, ItemData.cs), the
 * Dictionary<Item, int> of InventoryDataManager.cs as an insertion-ordered
 * list of lines, and the manager itself. Item and manager share one module
 * because each points at the other.
 */
module Inventory {
  import opened Wrappers
  import GuidReferences

  /** A C# int. */
  type Int32 = x: int | -0x8000_0000 <= x < 0x8000_0000

  const Modulus: int := 0x1_0000_0000

  /** Unchecked C# int addition: the exact sum wrapped into 32 bits. */
  function AddInt(a: Int32, b: Int32): (r: Int32)
    ensures -0x8000_0000 <= a + b < 0x8000_0000 ==> r == a + b
    ensures r == a + b || r == a + b + Modulus || r == a + b - Modulus
  {
    var s := a + b;
    if s < -0x8000_0000 then s + Modulus else if s >= 0x8000_0000 then s - Modulus else s
  }

  /** Mathf.Abs on an int, which is Math.Abs and throws for int.MinValue. */
  function Abs(x: Int32): (r: Outcome<Int32>)
    ensures r.Threw? <==> x == -0x8000_0000
    ensures r.Returned? ==> r.value >= 0 && (r.value == x || r.value == -x)
  {
    if x == -0x8000_0000 then Threw else if x < 0 then Returned(-x) else Returned(x)
  }

  /**
   * An Item asset. Its GUID is fixed once the asset exists; the manager it
   * adds itself to is the one field the game changes.
   */
  class Item {
    const guid: string
    var inventoryToBeAddedTo: InventoryDataManager?
    /** The quantities OnConsumed was invoked with, oldest first. */
    var consumed: seq<Int32>

    constructor (guid: string)
      ensures this.guid == guid && inventoryToBeAddedTo == null && consumed == []
    {
      this.guid := guid;
      inventoryToBeAddedTo := null;
      consumed := [];
    }

    /** SetInventoryToBeAddedTo: the manager is stored as given. */
    method SetInventoryToBeAddedTo(m: InventoryDataManager?)
      modifies this`inventoryToBeAddedTo
      ensures inventoryToBeAddedTo == m
    {
      inventoryToBeAddedTo := m;
    }

    /** The manager AddToInventory uses: the one set, else the first InventoryDataManager asset (`first`). */
    function Target(first: InventoryDataManager?): (m: InventoryDataManager?)
      reads this
      ensures inventoryToBeAddedTo != null ==> m == inventoryToBeAddedTo
      ensures inventoryToBeAddedTo == null ==> m == first
    {
      if inventoryToBeAddedTo != null then inventoryToBeAddedTo else first
    }

    /**
     * AddToInventory: a manager is looked up only when none is set; then
     * AddItem(this, quantity). With no manager at all AddItem throws, which
     * is caught and logged, so the call never throws.
     */
    method AddToInventory(quantity: Int32, first: InventoryDataManager?) returns (logged: bool)
      requires Target(first) != null ==> Target(first).Valid()
      modifies this, Target(first)
      ensures inventoryToBeAddedTo == old(Target(first)) && consumed == old(consumed)
      ensures logged <==> old(Target(first)) == null
      ensures var m := old(Target(first));
              m != null ==> && m.Valid()
                            && m.inventory == old(AddTo(m.inventory, this, quantity))
                            && m.savedStock == Snapshot(m.inventory)
                            && m.lastAdded == old(m.lastAdded) + [NewValue(QuantityKind, this, quantity).value]
    {
      if inventoryToBeAddedTo == null {
        inventoryToBeAddedTo := first;
      }
      var m := inventoryToBeAddedTo;
      if m == null {
        return true;
      }
      var _ := m.AddItem(this, quantity);
      return false;
    }

    /**
     * ValidateQuantity: the manager set on this item holds it with at least
     * `quantity`; without a manager the lookup throws and the answer is false.
     * No manager is looked up here.
     */
    function ValidateQuantity(quantity: Int32): (r: bool)
      reads this, inventoryToBeAddedTo
      ensures r <==> inventoryToBeAddedTo != null && CountOf(inventoryToBeAddedTo.inventory, this).Some?
                     && CountOf(inventoryToBeAddedTo.inventory, this).value >= quantity
    {
      inventoryToBeAddedTo != null && inventoryToBeAddedTo.ValidateQuantity(this, quantity) == Returned(true)
    }

    /**
     * Consumable.Consume: -|quantity| is added to the inventory, then
     * OnConsumed is invoked with the quantity. Mathf.Abs throws for
     * int.MinValue before anything happens.
     */
    method Consume(quantity: Int32, first: InventoryDataManager?) returns (threw: bool)
      requires Target(first) != null ==> Target(first).Valid()
      modifies this, Target(first)
      ensures threw <==> quantity == -0x8000_0000
      ensures threw ==> inventoryToBeAddedTo == old(inventoryToBeAddedTo) && consumed == old(consumed)
      ensures !threw ==> inventoryToBeAddedTo == old(Target(first)) && consumed == old(consumed) + [quantity]
      ensures var m := old(Target(first));
              !threw && m != null ==>
                && m.Valid()
                && m.inventory == old(AddTo(m.inventory, this, Amount(quantity, Removal).value))
                && m.savedStock == Snapshot(m.inventory)
      ensures var m := old(Target(first));
              threw && m != null ==> m.inventory == old(m.inventory)
    {
      match Abs(quantity)
      case Threw =>
        return true;
      case Returned(a) =>
        var _ := AddToInventory(-a, first);
        consumed := consumed + [quantity];
        return false;
    }

    /**
     * Consumable.TryConsume: nothing is consumed unless ValidateQuantity
     * holds for the quantity as given; then Consume runs with the manager
     * already set. A negative quantity passes the check whenever the item
     * is stocked at all, and Consume still removes |quantity|.
     */
    method TryConsume(quantity: Int32) returns (consumedIt: bool, threw: bool)
      requires inventoryToBeAddedTo != null ==> inventoryToBeAddedTo.Valid()
      modifies this, inventoryToBeAddedTo
      ensures consumedIt <==> old(ValidateQuantity(quantity))
      ensures threw <==> consumedIt && quantity == -0x8000_0000
      ensures inventoryToBeAddedTo == old(inventoryToBeAddedTo)
      ensures consumed == if consumedIt && !threw then old(consumed) + [quantity] else old(consumed)
      ensures var m := old(inventoryToBeAddedTo);
              m != null ==> m.Valid() && m.inventory == if consumedIt && !threw then old(AddTo(m.inventory, this, Amount(quantity, Removal).value)) else old(m.inventory)
    {
      if !ValidateQuantity(quantity) {
        return false, false;
      }
      threw := Consume(quantity, null);
      consumedIt := true;
    }

    /**
     * TryConsume as evidently intended: the check asks for |quantity|, the
     * amount Consume removes, so a consumption never takes a non-negative
     * count below zero.
     */
    method TryConsumeChecked(quantity: Int32) returns (consumedIt: bool)
      requires inventoryToBeAddedTo != null ==> inventoryToBeAddedTo.Valid()
      modifies this, inventoryToBeAddedTo
      ensures consumedIt <==> quantity != -0x8000_0000 && old(ValidateQuantity(Abs(quantity).value))
      ensures inventoryToBeAddedTo == old(inventoryToBeAddedTo)
      ensures var m := old(inventoryToBeAddedTo);
              consumedIt ==> && m != null && m.Valid()
                             && CountOf(m.inventory, this) == Some(old(CountOf(m.inventory, this).value) - Abs(quantity).value)
                             && CountOf(m.inventory, this).value >= 0
      ensures var m := old(inventoryToBeAddedTo);
              !consumedIt && m != null ==> m.inventory == old(m.inventory)
    {
      if quantity == -0x8000_0000 || !ValidateQuantity(Abs(quantity).value) {
        return false;
      }
      var _ := Consume(quantity, null);
      consumedIt := true;
    }
  }

  /** The runtime class of an item value object; the three share fields and equality. */
  datatype ValueKind = QuantityKind | TransferKind | DataKind

  /** A ScriptableObjectReference<Item>, as far as equality and resolution read it: its GUID. */
  datatype ItemRef = ItemRef(guid: string)

  /** An ItemQuantity, ItemTransfer or ItemData: item, GUID reference and quantity. */
  datatype ItemValue = ItemValue(kind: ValueKind, item: Item?, reference: Option<ItemRef>, quantity: Int32)

  /** The parameterless constructors: no item, no reference, quantity 0. */
  function DefaultValue(kind: ValueKind): (r: ItemValue)
    ensures r.kind == kind && r.item == null && r.reference.None? && r.quantity == 0
  {
    ItemValue(kind, null, None, 0)
  }

  /**
   * The constructors from an item and a quantity: the reference is built from
   * the item, which reads its GUID and so throws for a null item.
   */
  function NewValue(kind: ValueKind, item: Item?, quantity: Int32): (r: Outcome<ItemValue>)
    ensures r.Threw? <==> item == null
    ensures r.Returned? ==> r.value.kind == kind && r.value.item == item && r.value.quantity == quantity
    ensures r.Returned? ==> r.value.reference == Some(ItemRef(item.guid))
  {
    if item == null then Threw else Returned(ItemValue(kind, item, Some(ItemRef(item.guid)), quantity))
  }

  /**
   * ItemReference.Value: GetAssetByGuid<Item> over the registered items,
   * which `assets` gives by GUID. A null reference throws; an unknown GUID
   * gives null.
   */
  function ResolveRef(reference: Option<ItemRef>, assets: map<string, Item>): (r: Outcome<Item?>)
    ensures r.Threw? <==> reference.None?
    ensures r.Returned? ==> (r.value != null <==> reference.value.guid in assets)
    ensures r.Returned? && r.value != null ==> r.value == assets[reference.value.guid]
  {
    match reference
    case None => Threw
    case Some(ref) => if ref.guid in assets then Returned(assets[ref.guid]) else Returned(null)
  }

  /** A value built from a registered item resolves back to that item. */
  lemma NewValueResolves(kind: ValueKind, item: Item, quantity: Int32, assets: map<string, Item>)
    requires item.guid in assets && assets[item.guid] == item
    ensures ResolveRef(NewValue(kind, item, quantity).value.reference, assets) == Returned(item as Item?)
  {
  }

  /** object.Equals on two references: both null, or equal GUIDs. */
  function RefEquals(a: Option<ItemRef>, b: Option<ItemRef>): (r: bool)
    ensures r <==> (a.None? && b.None?) || (a.Some? && b.Some? && a.value.guid == b.value.guid)
  {
    match a
    case None => b.None?
    case Some(x) => b.Some? && x.guid == b.value.guid
  }

  /**
   * Equals(ItemQuantity) and its twins: false for null, true for the same
   * instance, otherwise item, reference and quantity compared.
   */
  function Equals(a: ItemValue, other: Option<ItemValue>): (r: bool)
    requires other.Some? ==> other.value.kind == a.kind
    ensures r <==> other.Some? && a.item == other.value.item && RefEquals(a.reference, other.value.reference)
                   && a.quantity == other.value.quantity
  {
    other.Some? && (a == other.value || (a.item == other.value.item && RefEquals(a.reference, other.value.reference) && a.quantity == other.value.quantity))
  }

  /** Equals(object): false for null and for another runtime class. */
  function EqualsObject(a: ItemValue, other: Option<ItemValue>): (r: bool)
    ensures r <==> other.Some? && other.value.kind == a.kind && Equals(a, other)
  {
    other.Some? && other.value.kind == a.kind && Equals(a, other)
  }

  /** HashCode.Combine(item, itemReference, quantity), kept as the triple it combines. */
  datatype ValueHash = ValueHash(item: Item?, reference: GuidReferences.Hash, quantity: Int32)

  function HashOf(a: ItemValue): (h: ValueHash)
    ensures h.item == a.item && h.quantity == a.quantity
    ensures h.reference.Zero? <==> a.reference.None?
  {
    ValueHash(a.item, if a.reference.None? then GuidReferences.Zero else GuidReferences.GuidHash(Some(a.reference.value.guid)), a.quantity)
  }

  /** Equal values hash alike, and equality is reflexive and symmetric. */
  lemma EqualsConsistent(a: ItemValue, b: ItemValue)
    ensures EqualsObject(a, Some(a))
    ensures EqualsObject(a, Some(b)) ==> HashOf(a) == HashOf(b)
    ensures EqualsObject(a, Some(b)) <==> EqualsObject(b, Some(a))
  {
  }

  // ---------------------------------------------------------------------
  // Dictionary<Item, int>: lines in insertion order, one per item
  // ---------------------------------------------------------------------

  datatype Line = Line(item: Item, count: Int32)

  /** The dictionary's keys in enumeration order. */
  function Keys(lines: seq<Line>): seq<Item>
  {
    seq(|lines|, i requires 0 <= i < |lines| => lines[i].item)
  }

  predicate DistinctItems(lines: seq<Line>)
  {
    forall i, j :: 0 <= i < j < |lines| ==> lines[i].item != lines[j].item
  }

  /** TryGetValue: the count stored for an item, if any. */
  function CountOf(lines: seq<Line>, item: Item): Option<Int32>
  {
    if lines == [] then None
    else if lines[0].item == item then Some(lines[0].count)
    else CountOf(lines[1..], item)
  }

  /** TryGetValue finds an item exactly when it is one of the keys, and then on its first line. */
  lemma {:induction false} CountOfKeys(lines: seq<Line>, item: Item)
    ensures CountOf(lines, item).Some? <==> item in Keys(lines)
    ensures CountOf(lines, item).Some? ==> exists i :: 0 <= i < |lines| && lines[i] == Line(item, CountOf(lines, item).value)
  {
    if lines != [] {
      assert Keys(lines) == [lines[0].item] + Keys(lines[1..]);
      if lines[0].item != item {
        CountOfKeys(lines[1..], item);
        if CountOf(lines, item).Some? {
          var i :| 0 <= i < |lines[1..]| && lines[1..][i] == Line(item, CountOf(lines, item).value);
          assert lines[i + 1] == lines[1..][i];
        }
      } else {
        assert lines[0] == Line(item, CountOf(lines, item).value);
      }
    }
  }

  /** In a list without duplicate items, each line is what CountOf finds. */
  lemma {:induction false} CountAt(lines: seq<Line>, k: nat)
    requires DistinctItems(lines) && k < |lines|
    ensures CountOf(lines, lines[k].item) == Some(lines[k].count)
  {
    if k > 0 {
      assert DistinctItems(lines[1..]) by {
        forall i, j | 0 <= i < j < |lines[1..]| ensures lines[1..][i].item != lines[1..][j].item {
          assert lines[1..][i] == lines[i + 1] && lines[1..][j] == lines[j + 1];
        }
      }
      CountAt(lines[1..], k - 1);
    }
  }

  /** Appending a line for an absent item leaves every other count alone. */
  lemma {:induction false} CountAppend(lines: seq<Line>, item: Item, c: Int32, x: Item)
    ensures CountOf(lines + [Line(item, c)], x) == if CountOf(lines, x).Some? then CountOf(lines, x) else if x == item then Some(c) else None
  {
    if lines != [] {
      assert (lines + [Line(item, c)])[1..] == lines[1..] + [Line(item, c)];
      CountAppend(lines[1..], item, c, x);
    }
  }

  lemma DistinctAppend(lines: seq<Line>, item: Item, c: Int32)
    requires DistinctItems(lines) && CountOf(lines, item).None?
    ensures DistinctItems(lines + [Line(item, c)])
  {
    CountOfKeys(lines, item);
    var r := lines + [Line(item, c)];
    forall i, j | 0 <= i < j < |r| ensures r[i].item != r[j].item {
      assert r[i] == lines[i] && Keys(lines)[i] == lines[i].item;
      if j < |lines| {
        assert r[j] == lines[j];
      }
    }
  }

  /** Every key has a count. */
  lemma KeysAreCounted(lines: seq<Line>)
    ensures forall x :: x in Keys(lines) ==> CountOf(lines, x).Some?
  {
    forall x | x in Keys(lines) ensures CountOf(lines, x).Some? {
      CountOfKeys(lines, x);
    }
  }

  /**
   * TryAdd(item, amount), or `dict[item] += amount` when the item is already
   * there: a new item goes last, an existing one keeps its place.
   */
  function AddTo(lines: seq<Line>, item: Item, amount: Int32): (r: seq<Line>)
    ensures CountOf(r, item) == Some(if CountOf(lines, item).Some? then AddInt(CountOf(lines, item).value, amount) else amount)
  {
    if lines == [] then [Line(item, amount)]
    else if lines[0].item == item then [Line(item, AddInt(lines[0].count, amount))] + lines[1..]
    else [lines[0]] + AddTo(lines[1..], item, amount)
  }

  /** Adding keeps every line's item in place and appends a line for an absent item. */
  lemma {:induction false} AddToShape(lines: seq<Line>, item: Item, amount: Int32)
    ensures var r := AddTo(lines, item, amount);
            && |r| == |lines| + (if CountOf(lines, item).None? then 1 else 0)
            && (forall k :: 0 <= k < |lines| ==> r[k].item == lines[k].item)
            && (CountOf(lines, item).None? ==> r[|lines|].item == item)
  {
    if lines != [] && lines[0].item != item {
      AddToShape(lines[1..], item, amount);
      var rest := AddTo(lines[1..], item, amount);
      assert AddTo(lines, item, amount) == [lines[0]] + rest;
      forall k | 0 < k < |lines| ensures ([lines[0]] + rest)[k].item == lines[k].item {
        assert ([lines[0]] + rest)[k] == rest[k - 1] && lines[1..][k - 1] == lines[k];
      }
    }
  }

  /** Adding to one item leaves every other item's count alone. */
  lemma {:induction false} AddToOthers(lines: seq<Line>, item: Item, amount: Int32, x: Item)
    requires x != item
    ensures CountOf(AddTo(lines, item, amount), x) == CountOf(lines, x)
  {
    if lines != [] && lines[0].item != item {
      AddToOthers(lines[1..], item, amount, x);
    }
  }

  /** Without duplicates, the tail has none either. */
  lemma DistinctTail(lines: seq<Line>)
    requires DistinctItems(lines) && lines != []
    ensures DistinctItems(lines[1..])
  {
    forall i, j | 0 <= i < j < |lines[1..]| ensures lines[1..][i].item != lines[1..][j].item {
      assert lines[1..][i] == lines[i + 1] && lines[1..][j] == lines[j + 1];
    }
  }

  lemma DistinctCons(l: Line, rest: seq<Line>)
    requires DistinctItems(rest) && l.item !in Keys(rest)
    ensures DistinctItems([l] + rest)
  {
    forall i, j | 0 <= i < j < |[l] + rest| ensures ([l] + rest)[i].item != ([l] + rest)[j].item {
      if i == 0 {
        assert ([l] + rest)[j] == rest[j - 1];
        assert Keys(rest)[j - 1] == rest[j - 1].item;
      } else {
        assert ([l] + rest)[i] == rest[i - 1] && ([l] + rest)[j] == rest[j - 1];
      }
    }
  }

  /** Adding keeps the items distinct. */
  lemma {:induction false} AddToDistinct(lines: seq<Line>, item: Item, amount: Int32)
    requires DistinctItems(lines)
    ensures DistinctItems(AddTo(lines, item, amount))
  {
    if lines != [] {
      DistinctTail(lines);
      if lines[0].item == item {
        var r := AddTo(lines, item, amount);
        assert r == [Line(item, AddInt(lines[0].count, amount))] + lines[1..];
        assert lines[0].item !in Keys(lines[1..]) by {
          forall k | 0 <= k < |lines[1..]| ensures Keys(lines[1..])[k] != lines[0].item {
            assert lines[1..][k] == lines[k + 1];
          }
        }
        DistinctCons(Line(item, AddInt(lines[0].count, amount)), lines[1..]);
      } else {
        AddToDistinct(lines[1..], item, amount);
        var rest := AddTo(lines[1..], item, amount);
        assert lines[0].item !in Keys(lines[1..]) by {
          forall k | 0 <= k < |lines[1..]| ensures Keys(lines[1..])[k] != lines[0].item {
            assert lines[1..][k] == lines[k + 1];
          }
        }
        AddToShape(lines[1..], item, amount);
        assert lines[0].item !in Keys(rest) by {
          forall k | 0 <= k < |rest| ensures Keys(rest)[k] != lines[0].item {
            if k < |lines[1..]| {
              assert rest[k].item == lines[1..][k].item;
            }
          }
        }
        DistinctCons(lines[0], rest);
      }
    }
  }

  /** `dict[item] = c` on a present item: the first line for it gets the new count. */
  function SetCount(lines: seq<Line>, item: Item, c: Int32): (r: seq<Line>)
    ensures |r| == |lines| && forall k :: 0 <= k < |lines| ==> r[k].item == lines[k].item
    ensures CountOf(lines, item) == Some(c) ==> r == lines
  {
    if lines == [] then []
    else if lines[0].item == item then [Line(item, c)] + lines[1..]
    else [lines[0]] + SetCount(lines[1..], item, c)
  }

  /** One ItemQuantity per line, in enumeration order, with the line's count. */
  function Snapshot(lines: seq<Line>): (r: seq<ItemValue>)
  {
    seq(|lines|, i requires 0 <= i < |lines| => ItemValue(QuantityKind, lines[i].item, Some(ItemRef(lines[i].item.guid)), lines[i].count))
  }

  /**
   * A snapshot has exactly one entry per stocked item, carrying that item's
   * count and a reference to it, and no entry for anything else.
   */
  lemma SnapshotMatchesStock(lines: seq<Line>)
    requires DistinctItems(lines)
    ensures |Snapshot(lines)| == |lines|
    ensures forall k :: 0 <= k < |lines| ==> Snapshot(lines)[k].item == lines[k].item
    ensures forall k :: 0 <= k < |lines| ==> Some(Snapshot(lines)[k].quantity) == CountOf(lines, lines[k].item)
    ensures forall k :: 0 <= k < |lines| ==> Snapshot(lines)[k].reference == Some(ItemRef(lines[k].item.guid))
    ensures forall k, l :: 0 <= k < l < |lines| ==> Snapshot(lines)[k].item != Snapshot(lines)[l].item
    ensures forall x: Item :: CountOf(lines, x).Some? <==> exists k :: 0 <= k < |lines| && Snapshot(lines)[k].item == x
  {
    forall k | 0 <= k < |lines| ensures Some(Snapshot(lines)[k].quantity) == CountOf(lines, lines[k].item) {
      CountAt(lines, k);
    }
    forall x: Item ensures CountOf(lines, x).Some? <==> exists k :: 0 <= k < |lines| && Snapshot(lines)[k].item == x {
      CountOfKeys(lines, x);
      if CountOf(lines, x).Some? {
        var i :| 0 <= i < |Keys(lines)| && Keys(lines)[i] == x;
        assert Snapshot(lines)[i].item == x;
      }
    }
  }

  /**
   * TryAdd(item, 0) for each listed item in turn: absent items are added
   * with 0 at the end, present ones keep their count.
   */
  function AddMissing(lines: seq<Line>, items: seq<Item>): seq<Line>
    decreases |items|
  {
    if items == [] then lines
    else AddMissing(if CountOf(lines, items[0]).Some? then lines else lines + [Line(items[0], 0)], items[1..])
  }

  /**
   * After AddMissing every listed item is present; an item that was present
   * keeps its count, a listed absent one has 0, and nothing else is added.
   */
  lemma {:induction false} AddMissingCounts(lines: seq<Line>, items: seq<Item>, x: Item)
    ensures CountOf(AddMissing(lines, items), x) ==
              if CountOf(lines, x).Some? then CountOf(lines, x) else if x in items then Some(0) else None
    ensures DistinctItems(lines) ==> DistinctItems(AddMissing(lines, items))
    decreases |items|
  {
    if items != [] {
      var next := if CountOf(lines, items[0]).Some? then lines else lines + [Line(items[0], 0)];
      if CountOf(lines, items[0]).None? {
        CountAppend(lines, items[0], 0, x);
        if DistinctItems(lines) {
          DistinctAppend(lines, items[0], 0);
        }
      }
      AddMissingCounts(next, items[1..], x);
    }
  }

  // ---------------------------------------------------------------------
  // Applying a list of value objects one AddItem / TryAdd at a time
  // ---------------------------------------------------------------------

  /** How a line's quantity becomes the amount added: as is, -|q| or |q|. */
  datatype Sign = AsIs | Removal | Receipt

  function Amount(q: Int32, sign: Sign): (r: Outcome<Int32>)
    ensures sign.AsIs? ==> r == Returned(q)
    ensures !sign.AsIs? ==> (r.Threw? <==> q == -0x8000_0000)
    ensures r.Returned? && sign.Removal? ==> r.value <= 0 && (r.value == q || r.value == -q)
    ensures r.Returned? && sign.Receipt? ==> r.value >= 0 && (r.value == q || r.value == -q)
  {
    match sign
    case AsIs => Returned(q)
    case Removal => (match Abs(q) case Threw => Threw case Returned(a) => Returned(-a))
    case Receipt => Abs(q)
  }

  /** One applied line: the item it resolved to and the amount added. */
  datatype Added = Added(item: Item, amount: Int32)

  /**
   * What one line does: its reference is resolved (a null reference throws),
   * the amount is computed (Abs may throw), and a null item throws as soon as
   * it is told its manager.
   */
  function Step(v: ItemValue, assets: map<string, Item>, sign: Sign): (r: Outcome<Added>)
    ensures r.Returned? <==> v.reference.Some? && v.reference.value.guid in assets && Amount(v.quantity, sign).Returned?
    ensures r.Returned? ==> r.value == Added(assets[v.reference.value.guid], Amount(v.quantity, sign).value)
  {
    match ResolveRef(v.reference, assets)
    case Threw => Threw
    case Returned(it) =>
      if it == null then Threw
      else match Amount(v.quantity, sign)
        case Threw => Threw
        case Returned(a) => Returned(Added(it, a))
  }

  /** A run that already applied `done` before reaching the state of `rest`. */
  function After(done: seq<Added>, rest: Run): (r: Run)
    ensures r.lines == rest.lines && r.threw == rest.threw && r.steps == done + rest.steps
  {
    Run(rest.lines, done + rest.steps, rest.threw)
  }

  /** One step of ApplyLines: a failing first line stops the run, otherwise it is applied and the rest follows. */
  lemma ApplyLinesUnfold(lines: seq<Line>, vals: seq<ItemValue>, assets: map<string, Item>, sign: Sign)
    requires vals != []
    ensures Step(vals[0], assets, sign).Threw? ==> ApplyLines(lines, vals, assets, sign) == Run(lines, [], true)
    ensures Step(vals[0], assets, sign).Returned? ==>
              var s := Step(vals[0], assets, sign).value;
              ApplyLines(lines, vals, assets, sign) == After([s], ApplyLines(AddTo(lines, s.item, s.amount), vals[1..], assets, sign))
  {
  }

  /** Without a sign the amount is the quantity itself, so a step fails only on resolution. */
  lemma StepAsIs(v: ItemValue, assets: map<string, Item>)
    ensures Step(v, assets, AsIs).Threw? <==> v.reference.None? || v.reference.value.guid !in assets
    ensures Step(v, assets, AsIs).Returned? ==> Step(v, assets, AsIs).value == Added(assets[v.reference.value.guid], v.quantity)
  {
  }

  /** The lines after a run, the steps applied in order, and whether it stopped on a throw. */
  datatype Run = Run(lines: seq<Line>, steps: seq<Added>, threw: bool)

  function ApplyLines(lines: seq<Line>, vals: seq<ItemValue>, assets: map<string, Item>, sign: Sign): Run
    decreases |vals|
  {
    if vals == [] then Run(lines, [], false)
    else match Step(vals[0], assets, sign)
      case Threw => Run(lines, [], true)
      case Returned(s) =>
        var rest := ApplyLines(AddTo(lines, s.item, s.amount), vals[1..], assets, sign);
        Run(rest.lines, [s] + rest.steps, rest.threw)
  }

  /**
   * A run applies the lines in order and stops at the first one that
   * throws: the steps are exactly the successful prefix, and a throw leaves
   * the rest unapplied.
   */
  lemma {:induction false} ApplyLinesInOrder(lines: seq<Line>, vals: seq<ItemValue>, assets: map<string, Item>, sign: Sign)
    ensures var r := ApplyLines(lines, vals, assets, sign);
            && |r.steps| <= |vals|
            && (forall k :: 0 <= k < |r.steps| ==> Step(vals[k], assets, sign) == Returned(r.steps[k]))
            && (r.threw <==> |r.steps| < |vals|)
            && (r.threw ==> Step(vals[|r.steps|], assets, sign).Threw?)
    decreases |vals|
  {
    if vals != [] && Step(vals[0], assets, sign).Returned? {
      var s := Step(vals[0], assets, sign).value;
      ApplyLinesInOrder(AddTo(lines, s.item, s.amount), vals[1..], assets, sign);
    }
  }

  /** The items a run touched. */
  function ItemsOf(steps: seq<Added>): (r: set<Item>)
    ensures forall k :: 0 <= k < |steps| ==> steps[k].item in r
  {
    if steps == [] then {} else {steps[0].item} + ItemsOf(steps[1..])
  }

  /** Every touched item was touched by some step. */
  lemma {:induction false} ItemsOfWitness(steps: seq<Added>, it: Item)
    requires it in ItemsOf(steps)
    ensures exists k :: 0 <= k < |steps| && steps[k].item == it
  {
    if steps[0].item != it {
      ItemsOfWitness(steps[1..], it);
      var k :| 0 <= k < |steps[1..]| && steps[1..][k].item == it;
      assert steps[k + 1].item == it;
    }
  }

  /** Appending a step adds exactly its item to the items a run touched. */
  lemma {:induction false} ItemsOfAppend(steps: seq<Added>, s: Added)
    ensures ItemsOf(steps + [s]) == ItemsOf(steps) + {s.item}
  {
    if steps != [] {
      assert (steps + [s])[1..] == steps[1..] + [s];
      ItemsOfAppend(steps[1..], s);
    }
  }

  /** The sum of the amounts a run added to one item, in unbounded arithmetic. */
  function SumFor(steps: seq<Added>, x: Item): int
  {
    if steps == [] then 0 else (if steps[0].item == x then steps[0].amount else 0) + SumFor(steps[1..], x)
  }

  function CountOrZero(lines: seq<Line>, x: Item): int
  {
    if CountOf(lines, x).Some? then CountOf(lines, x).value else 0
  }

  /** A run keeps the items distinct. */
  lemma {:induction false} ApplyLinesDistinct(lines: seq<Line>, vals: seq<ItemValue>, assets: map<string, Item>, sign: Sign)
    requires DistinctItems(lines)
    ensures DistinctItems(ApplyLines(lines, vals, assets, sign).lines)
    decreases |vals|
  {
    if vals != [] && Step(vals[0], assets, sign).Returned? {
      var s := Step(vals[0], assets, sign).value;
      AddToDistinct(lines, s.item, s.amount);
      ApplyLinesDistinct(AddTo(lines, s.item, s.amount), vals[1..], assets, sign);
    }
  }

  /** An item a run never touched keeps its count; a touched item is present afterwards. */
  lemma {:induction false} ApplyLinesUntouched(lines: seq<Line>, vals: seq<ItemValue>, assets: map<string, Item>, sign: Sign, x: Item)
    ensures var r := ApplyLines(lines, vals, assets, sign);
            && (x !in ItemsOf(r.steps) ==> CountOf(r.lines, x) == CountOf(lines, x))
            && (x in ItemsOf(r.steps) ==> CountOf(r.lines, x).Some?)
    decreases |vals|
  {
    if vals != [] && Step(vals[0], assets, sign).Returned? {
      var s := Step(vals[0], assets, sign).value;
      var next := AddTo(lines, s.item, s.amount);
      ApplyLinesUntouched(next, vals[1..], assets, sign, x);
      var rest := ApplyLines(next, vals[1..], assets, sign);
      assert ApplyLines(lines, vals, assets, sign).steps == [s] + rest.steps;
      assert ItemsOf([s] + rest.steps) == {s.item} + ItemsOf(rest.steps) by {
        assert ([s] + rest.steps)[1..] == rest.steps;
      }
      if x != s.item {
        AddToOthers(lines, s.item, s.amount, x);
      }
    }
  }

  /**
   * A touched item ends with its old count (0 if absent) plus everything the
   * run added to it, modulo the 32-bit wrap-around.
   */
  lemma {:induction false} ApplyLinesSum(lines: seq<Line>, vals: seq<ItemValue>, assets: map<string, Item>, sign: Sign, x: Item)
    ensures var r := ApplyLines(lines, vals, assets, sign);
            exists wraps: int :: CountOrZero(r.lines, x) == CountOrZero(lines, x) + SumFor(r.steps, x) + wraps * Modulus
    decreases |vals|
  {
    var r := ApplyLines(lines, vals, assets, sign);
    if vals == [] || Step(vals[0], assets, sign).Threw? {
      assert CountOrZero(r.lines, x) == CountOrZero(lines, x) + SumFor(r.steps, x) + 0 * Modulus;
    } else {
      var s := Step(vals[0], assets, sign).value;
      var next := AddTo(lines, s.item, s.amount);
      ApplyLinesSum(next, vals[1..], assets, sign, x);
      var rest := ApplyLines(next, vals[1..], assets, sign);
      var all := [s] + rest.steps;
      assert all[1..] == rest.steps;
      assert SumFor(all, x) == (if s.item == x then s.amount else 0) + SumFor(rest.steps, x);
      var w :| CountOrZero(rest.lines, x) == CountOrZero(next, x) + SumFor(rest.steps, x) + w * Modulus;
      if x == s.item {
        var d :| d in {-1, 0, 1} && CountOrZero(next, x) == CountOrZero(lines, x) + s.amount + d * Modulus;
        assert CountOrZero(r.lines, x) == CountOrZero(lines, x) + SumFor(r.steps, x) + (w + d) * Modulus;
      } else {
        AddToOthers(lines, s.item, s.amount, x);
        assert CountOrZero(r.lines, x) == CountOrZero(lines, x) + SumFor(r.steps, x) + w * Modulus;
      }
    }
  }

  /** The ItemQuantity values AddItem publishes for each step of a run. */
  function Published(steps: seq<Added>): seq<ItemValue>
  {
    seq(|steps|, k requires 0 <= k < |steps| => ItemValue(QuantityKind, steps[k].item, Some(ItemRef(steps[k].item.guid)), steps[k].amount))
  }

  // ---------------------------------------------------------------------
  // InventoryDataManager
  // ---------------------------------------------------------------------

  class InventoryDataManager {
    var inventory: seq<Line>
    /** The [Save] field: the stock as ItemQuantity values. */
    var savedStock: seq<ItemValue>
    /** The values published through lastAddedItemData, oldest first. */
    var lastAdded: seq<ItemValue>

    /** The dictionary holds each item at most once. */
    predicate Valid()
      reads this
    {
      DistinctItems(inventory)
    }

    constructor ()
      ensures Valid() && inventory == [] && savedStock == [] && lastAdded == []
    {
      inventory := [];
      savedStock := [];
      lastAdded := [];
    }

    /** allItems: the stocked items in enumeration order. */
    function AllItems(): (r: seq<Item>)
      reads this
      ensures |r| == |inventory|
      ensures forall x :: x in r ==> CountOf(inventory, x).Some?
      ensures forall k :: 0 <= k < |inventory| ==> r[k] == inventory[k].item
    {
      KeysAreCounted(inventory);
      Keys(inventory)
    }

    /**
     * AddItem(Item, int): the item is told its manager, then inserted with the
     * amount or has the amount added to its count (no lower bound, C# int
     * wrap-around); the saved stock is re-snapshotted and an ItemQuantity of
     * the item and amount is published. A null item throws before any change.
     */
    method AddItem(item: Item?, amount: Int32) returns (threw: bool)
      requires Valid()
      modifies this, item
      ensures threw <==> item == null
      ensures threw ==> inventory == old(inventory) && savedStock == old(savedStock) && lastAdded == old(lastAdded)
      ensures !threw ==> && Valid()
                         && item.inventoryToBeAddedTo == this && item.consumed == old(item.consumed)
                         && inventory == AddTo(old(inventory), item, amount)
                         && savedStock == Snapshot(inventory)
                         && lastAdded == old(lastAdded) + [NewValue(QuantityKind, item, amount).value]
    {
      if item == null { return true; }
      item.inventoryToBeAddedTo := this;
      AddToDistinct(inventory, item, amount);
      inventory := AddTo(inventory, item, amount);
      savedStock := GetSavedStock();
      lastAdded := lastAdded + [ItemValue(QuantityKind, item, Some(ItemRef(item.guid)), amount)];
      return false;
    }

    /** AddItem(ItemQuantity): the value's reference is resolved and added; a null reference or an unknown GUID throws. */
    method AddItemQuantity(v: ItemValue, assets: map<string, Item>) returns (threw: bool)
      requires Valid()
      modifies this, set it | it in assets.Values
      ensures threw <==> v.reference.None? || v.reference.value.guid !in assets
      ensures threw ==> inventory == old(inventory) && savedStock == old(savedStock) && lastAdded == old(lastAdded)
      ensures !threw ==> && Valid()
                         && inventory == AddTo(old(inventory), assets[v.reference.value.guid], v.quantity)
                         && savedStock == Snapshot(inventory)
    {
      var item := ResolveRef(v.reference, assets);
      if item.Threw? || item.value == null { return true; }
      threw := AddItem(item.value, v.quantity);
    }

    /** GetQuantity: the stored count, 0 for an absent item; a null item throws (ContainsKey). */
    function GetQuantity(item: Item?): (r: Outcome<Int32>)
      reads this
      ensures r.Threw? <==> item == null
      ensures item != null && CountOf(inventory, item).Some? ==> r == Returned(CountOf(inventory, item).value)
      ensures item != null && CountOf(inventory, item).None? ==> r == Returned(0)
    {
      if item == null then Threw else Returned(CountOf(inventory, item).GetOr(0))
    }

    /** ValidateQuantity: the item is present with at least `amount`; a null item throws. */
    function ValidateQuantity(item: Item?, amount: Int32): (r: Outcome<bool>)
      reads this
      ensures r.Threw? <==> item == null
      ensures r.Returned? ==> (r.value <==> CountOf(inventory, item).Some? && CountOf(inventory, item).value >= amount)
    {
      if item == null then Threw else Returned(CountOf(inventory, item).Some? && CountOf(inventory, item).value >= amount)
    }

    /** GetSavedStock: one ItemQuantity per entry, in enumeration order. */
    method GetSavedStock() returns (list: seq<ItemValue>)
      ensures list == Snapshot(inventory)
    {
      list := [];
      var i := 0;
      while i < |inventory|
        invariant 0 <= i <= |inventory|
        invariant list == Snapshot(inventory[..i])
      {
        list := list + [ItemValue(QuantityKind, inventory[i].item, Some(ItemRef(inventory[i].item.guid)), inventory[i].count)];
        i := i + 1;
      }
      assert inventory[..i] == inventory;
    }

    /**
     * SyncStockData: each saved entry is resolved and its quantity added on
     * top of the current count (TryAdd or +=); the first entry whose
     * reference is null or does not resolve throws and ends the sync.
     */
    method SyncStockData(assets: map<string, Item>, ghost items: set<Item>) returns (threw: bool)
      requires Valid()
      requires forall g | g in assets :: assets[g] in items
      modifies this`inventory, items`inventoryToBeAddedTo
      ensures Valid()
      ensures var r := ApplyLines(old(inventory), savedStock, assets, AsIs);
              && inventory == r.lines && threw == r.threw
              && forall it | it in items ::
                   it.inventoryToBeAddedTo == if it in ItemsOf(r.steps) then this else old(it.inventoryToBeAddedTo)
    {
      threw := SyncAll(this, savedStock, assets, items);
    }

    /**
     * PopulateEmpty: a new dictionary with every loaded item at 0 (a repeated
     * item is set to 0 again).
     */
    method PopulateEmpty(registryItems: seq<Item>)
      modifies this`inventory
      ensures Valid()
      ensures inventory == AddMissing([], registryItems)
    {
      inventory := [];
      var i := 0;
      while i < |registryItems|
        invariant 0 <= i <= |registryItems|
        invariant DistinctItems(inventory)
        invariant forall k :: 0 <= k < |inventory| ==> inventory[k].count == 0
        invariant AddMissing(inventory, registryItems[i..]) == AddMissing([], registryItems)
      {
        assert registryItems[i..][1..] == registryItems[i + 1..];
        var item := registryItems[i];
        CountOfKeys(inventory, item);
        if CountOf(inventory, item).Some? {
          inventory := SetCount(inventory, item, 0);
        } else {
          DistinctAppend(inventory, item, 0);
          inventory := inventory + [Line(item, 0)];
        }
        i := i + 1;
      }
      assert registryItems[i..] == [];
    }

    /** AddMissingItems: TryAdd(item, 0) for each registered item; existing counts are untouched. */
    method AddMissingItems(registryItems: seq<Item>)
      requires Valid()
      modifies this`inventory
      ensures Valid()
      ensures inventory == AddMissing(old(inventory), registryItems)
    {
      var i := 0;
      while i < |registryItems|
        invariant 0 <= i <= |registryItems|
        invariant DistinctItems(inventory)
        invariant AddMissing(inventory, registryItems[i..]) == AddMissing(old(inventory), registryItems)
      {
        assert registryItems[i..][1..] == registryItems[i + 1..];
        var item := registryItems[i];
        if CountOf(inventory, item).None? {
          DistinctAppend(inventory, item, 0);
          inventory := inventory + [Line(item, 0)];
        }
        i := i + 1;
      }
      assert registryItems[i..] == [];
    }

    /** OnEditorStopped: every loaded item back to 0 and the saved stock cleared. */
    method OnEditorStopped(loadAll: seq<Item>)
      modifies this`inventory, this`savedStock
      ensures Valid()
      ensures inventory == AddMissing([], loadAll) && savedStock == []
    {
      PopulateEmpty(loadAll);
      savedStock := [];
    }

    /** Init: the registered items that are missing are added with 0. */
    method Init(registryItems: seq<Item>)
      requires Valid()
      modifies this`inventory
      ensures Valid()
      ensures inventory == AddMissing(old(inventory), registryItems)
    {
      AddMissingItems(registryItems);
    }

    /** OnSave: the stock is snapshotted into the [Save] list. */
    method OnSave()
      modifies this`savedStock
      ensures savedStock == Snapshot(inventory)
    {
      savedStock := GetSavedStock();
    }

    /** OnLoad: the restored saved stock is added on top of the current counts. */
    method OnLoad(assets: map<string, Item>) returns (threw: bool)
      requires Valid()
      modifies this`inventory, set it | it in assets.Values
      ensures Valid()
      ensures var r := ApplyLines(old(inventory), savedStock, assets, AsIs);
              inventory == r.lines && threw == r.threw
    {
      threw := SyncStockData(assets, assets.Values);
    }
  }

  /**
   * The managers the items point to: `m` for the items in `told`, the
   * manager recorded in `before` for every other item.
   */
  ghost predicate ManagerLinks(items: set<Item>, told: set<Item>, m: InventoryDataManager, before: map<Item, InventoryDataManager?>)
    reads items
  {
    forall it | it in items :: it in before && it.inventoryToBeAddedTo == if it in told then m else before[it]
  }

  /** A saved entry that does not resolve ends the run where it stands. */
  lemma SyncStepStops(whole: Run, done: seq<Added>, lines: seq<Line>, stock: seq<ItemValue>, i: nat, assets: map<string, Item>)
    requires i < |stock| && whole == After(done, ApplyLines(lines, stock[i..], assets, AsIs))
    requires stock[i].reference.None? || stock[i].reference.value.guid !in assets
    ensures whole == Run(lines, done, true)
  {
    StepAsIs(stock[i], assets);
    ApplyLinesUnfold(lines, stock[i..], assets, AsIs);
  }

  /** A saved entry that resolves is added, and the run goes on with the next one. */
  lemma SyncStepNext(whole: Run, done: seq<Added>, lines: seq<Line>, stock: seq<ItemValue>, i: nat, assets: map<string, Item>)
    requires i < |stock| && whole == After(done, ApplyLines(lines, stock[i..], assets, AsIs))
    requires stock[i].reference.Some? && stock[i].reference.value.guid in assets
    ensures var s := Added(assets[stock[i].reference.value.guid], stock[i].quantity);
            whole == After(done + [s], ApplyLines(AddTo(lines, s.item, s.amount), stock[i + 1..], assets, AsIs))
  {
    var s := Added(assets[stock[i].reference.value.guid], stock[i].quantity);
    StepAsIs(stock[i], assets);
    ApplyLinesUnfold(lines, stock[i..], assets, AsIs);
    assert stock[i..][1..] == stock[i + 1..];
    var rest := ApplyLines(AddTo(lines, s.item, s.amount), stock[i + 1..], assets, AsIs);
    assert done + [s] + rest.steps == done + ([s] + rest.steps);
  }

  /** The loop of InventoryDataManager.SyncStockData over the saved entries `stock`. */
  method SyncAll(m: InventoryDataManager, stock: seq<ItemValue>, assets: map<string, Item>, ghost items: set<Item>) returns (threw: bool)
    requires m.Valid()
    requires forall g | g in assets :: assets[g] in items
    modifies m`inventory, items`inventoryToBeAddedTo
    ensures m.Valid()
    ensures var r := ApplyLines(old(m.inventory), stock, assets, AsIs);
            && m.inventory == r.lines && threw == r.threw
            && forall it | it in items ::
                 it.inventoryToBeAddedTo == if it in ItemsOf(r.steps) then m else old(it.inventoryToBeAddedTo)
  {
    ghost var before := map it | it in items :: it.inventoryToBeAddedTo;
    ghost var whole := ApplyLines(m.inventory, stock, assets, AsIs);
    ghost var done: seq<Added> := [];
    var i := 0;
    while i < |stock|
      invariant 0 <= i <= |stock|
      invariant m.Valid()
      invariant whole == After(done, ApplyLines(m.inventory, stock[i..], assets, AsIs))
      invariant ManagerLinks(items, ItemsOf(done), m, before)
    {
      var v := stock[i];
      ghost var inv := m.inventory;
      var failed, told := SyncLine(m, v, assets, items, ItemsOf(done), before);
      if failed {
        SyncStepStops(whole, done, inv, stock, i, assets);
        return true;
      }
      ghost var s := Added(told, v.quantity);
      SyncStepNext(whole, done, inv, stock, i, assets);
      ItemsOfAppend(done, s);
      done := done + [s];
      i := i + 1;
    }
    assert whole == Run(m.inventory, done, false) by {
      assert stock[i..] == [];
    }
    return false;
  }

  /** One saved entry of InventoryDataManager.SyncStockData: resolve it, tell the item its manager, add the quantity. */
  method SyncLine(m: InventoryDataManager, v: ItemValue, assets: map<string, Item>, ghost items: set<Item>,
                  ghost toldBefore: set<Item>, ghost before: map<Item, InventoryDataManager?>)
    returns (threw: bool, ghost told: Item?)
    requires m.Valid()
    requires forall g | g in assets :: assets[g] in items
    requires ManagerLinks(items, toldBefore, m, before)
    modifies m`inventory, items`inventoryToBeAddedTo
    ensures m.Valid()
    ensures threw <==> v.reference.None? || v.reference.value.guid !in assets
    ensures threw ==> told == null && m.inventory == old(m.inventory)
    ensures !threw ==> told == assets[v.reference.value.guid]
                       && m.inventory == AddTo(old(m.inventory), told, v.quantity)
    ensures ManagerLinks(items, if told == null then toldBefore else toldBefore + {told}, m, before)
  {
    var item := ResolveRef(v.reference, assets);
    if item.Threw? || item.value == null {
      return true, null;
    }
    var it := item.value;
    it.inventoryToBeAddedTo := m;
    AddToDistinct(m.inventory, it, v.quantity);
    m.inventory := AddTo(m.inventory, it, v.quantity);
    return false, it;
  }

  /**
   * TryConsume(-1) on an item stocked at 0: the check (count >= -1) passes,
   * and Consume then removes |-1|, leaving the count at -1.
   */
  lemma NegativeConsumeOverdraws(lines: seq<Line>, it: Item)
    requires CountOf(lines, it) == Some(0)
    ensures CountOf(lines, it).value >= -1
    ensures CountOf(AddTo(lines, it, Amount(-1, Removal).value), it) == Some(-1)
  {
  }

  /** Validating with an amount agrees with the quantity: present and at least that many. */
  lemma ValidateMatchesQuantity(m: InventoryDataManager, item: Item, amount: Int32)
    ensures m.ValidateQuantity(item, amount) == Returned(CountOf(m.inventory, item).Some? && m.GetQuantity(item).value >= amount)
  {
  }

  /** Adding to the item on line k of a list without duplicates changes that line alone. */
  lemma {:induction false} AddToIndex(p: seq<Line>, k: nat, amount: Int32)
    requires DistinctItems(p) && k < |p|
    ensures AddTo(p, p[k].item, amount) == p[k := Line(p[k].item, AddInt(p[k].count, amount))]
  {
    if k > 0 {
      assert p[0].item != p[k].item;
      DistinctTail(p);
      AddToIndex(p[1..], k - 1, amount);
      assert p[k := Line(p[k].item, AddInt(p[k].count, amount))]
          == [p[0]] + p[1..][k - 1 := Line(p[k].item, AddInt(p[k].count, amount))];
    }
  }

  /** The same items, every count 0. */
  function Zeroed(lines: seq<Line>): (r: seq<Line>)
    ensures |r| == |lines|
    ensures forall k :: 0 <= k < |lines| ==> r[k] == Line(lines[k].item, 0)
  {
    seq(|lines|, k requires 0 <= k < |lines| => Line(lines[k].item, 0))
  }

  /** The first k lines restored, the rest still 0. */
  function Partly(lines: seq<Line>, k: nat): (r: seq<Line>)
    requires k <= |lines|
    ensures |r| == |lines|
    ensures forall j :: 0 <= j < k ==> r[j] == lines[j]
    ensures forall j :: k <= j < |lines| ==> r[j] == Line(lines[j].item, 0)
  {
    seq(|lines|, j requires 0 <= j < |lines| => if j < k then lines[j] else Line(lines[j].item, 0))
  }

  lemma {:induction false} SyncRestoresFrom(lines: seq<Line>, k: nat, assets: map<string, Item>)
    requires DistinctItems(lines) && k <= |lines|
    requires forall j :: 0 <= j < |lines| ==> lines[j].item.guid in assets && assets[lines[j].item.guid] == lines[j].item
    ensures var r := ApplyLines(Partly(lines, k), Snapshot(lines)[k..], assets, AsIs);
            !r.threw && r.lines == lines
    decreases |lines| - k
  {
    var p := Partly(lines, k);
    if k == |lines| {
      assert p == lines;
      assert Snapshot(lines)[k..] == [];
    } else {
      var v := Snapshot(lines)[k];
      var it := lines[k].item;
      assert Step(v, assets, AsIs) == Returned(Added(it, lines[k].count));
      assert Snapshot(lines)[k..][1..] == Snapshot(lines)[k + 1..];
      assert DistinctItems(p) by {
        assert forall j :: 0 <= j < |p| ==> p[j].item == lines[j].item;
      }
      AddToIndex(p, k, lines[k].count);
      assert p[k := Line(it, AddInt(0, lines[k].count))] == Partly(lines, k + 1);
      SyncRestoresFrom(lines, k + 1, assets);
    }
  }

  /**
   * OnSave then OnLoad onto the same items zeroed (as OnEditorStopped
   * leaves them) gives back every count: syncing a snapshot onto zeros
   * restores the lines it was taken from.
   */
  lemma SyncRestoresSnapshot(lines: seq<Line>, assets: map<string, Item>)
    requires DistinctItems(lines)
    requires forall k :: 0 <= k < |lines| ==> lines[k].item.guid in assets && assets[lines[k].item.guid] == lines[k].item
    ensures var r := ApplyLines(Zeroed(lines), Snapshot(lines), assets, AsIs);
            !r.threw && r.lines == lines
  {
    assert Partly(lines, 0) == Zeroed(lines);
    assert Snapshot(lines)[0..] == Snapshot(lines);
    SyncRestoresFrom(lines, 0, assets);
  }
}

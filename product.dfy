/**
 * Product.TradeAsync: the trade lines are validated against the current
 * stock, then each trade line removes |quantity| and each receive line adds
 * |quantity|, one AddItem at a time. The awaited frames between the steps
 * are taken as immediate.
 */
module Trading {
  import opened Wrappers
  import opened Inventory

  /** One trade line passes validation: it resolves to an item stocked with at least its quantity. */
  predicate LinePasses(lines: seq<Line>, v: ItemValue, assets: map<string, Item>)
  {
    v.reference.Some? && v.reference.value.guid in assets
    && var it := assets[v.reference.value.guid];
       CountOf(lines, it).Some? && CountOf(lines, it).value >= v.quantity
  }

  /**
   * itemsToTrade.TrueForAll(ValidateQuantity(ItemReference.Value, Quantity)):
   * the first failing line answers false; a null reference throws, and so
   * does an unknown GUID, whose null item ContainsKey rejects.
   */
  function Validate(lines: seq<Line>, trade: seq<ItemValue>, assets: map<string, Item>): Outcome<bool>
  {
    if trade == [] then Returned(true)
    else match ResolveRef(trade[0].reference, assets)
      case Threw => Threw
      case Returned(it) =>
        if it == null then Threw
        else if CountOf(lines, it).Some? && CountOf(lines, it).value >= trade[0].quantity then Validate(lines, trade[1..], assets)
        else Returned(false)
  }

  /**
   * Validation passes exactly when every line passes on its own, against
   * the same stock: lines are not added up per item.
   */
  lemma {:induction false} ValidateAllLines(lines: seq<Line>, trade: seq<ItemValue>, assets: map<string, Item>)
    ensures Validate(lines, trade, assets) == Returned(true) <==> forall k :: 0 <= k < |trade| ==> LinePasses(lines, trade[k], assets)
  {
    if trade != [] {
      ValidateAllLines(lines, trade[1..], assets);
      if LinePasses(lines, trade[0], assets) {
        assert forall k :: 1 <= k < |trade| ==> trade[k] == trade[1..][k - 1];
      }
    }
  }

  /** A line whose reference is null or names no registered item: resolving it throws. */
  predicate Unresolved(v: ItemValue, assets: map<string, Item>)
  {
    v.reference.None? || v.reference.value.guid !in assets
  }

  /**
   * Validation throws exactly on reaching a line that does not resolve:
   * every earlier line passed.
   */
  lemma ValidateThrows(lines: seq<Line>, trade: seq<ItemValue>, assets: map<string, Item>)
    ensures Validate(lines, trade, assets).Threw? <==>
              exists k :: 0 <= k < |trade| && Unresolved(trade[k], assets) && forall j :: 0 <= j < k ==> LinePasses(lines, trade[j], assets)
  {
    if Validate(lines, trade, assets).Threw? {
      var k := ThrowingLine(lines, trade, assets);
    }
    forall k | 0 <= k < |trade| && Unresolved(trade[k], assets) && forall j :: 0 <= j < k ==> LinePasses(lines, trade[j], assets)
      ensures Validate(lines, trade, assets).Threw?
    {
      ThrowsAt(lines, trade, assets, k);
    }
  }

  lemma {:induction false} ThrowingLine(lines: seq<Line>, trade: seq<ItemValue>, assets: map<string, Item>) returns (k: nat)
    requires Validate(lines, trade, assets).Threw?
    ensures k < |trade| && Unresolved(trade[k], assets) && forall j :: 0 <= j < k ==> LinePasses(lines, trade[j], assets)
  {
    if Unresolved(trade[0], assets) {
      return 0;
    }
    var i := ThrowingLine(lines, trade[1..], assets);
    k := i + 1;
    assert trade[k] == trade[1..][i];
    forall j | 0 <= j < k ensures LinePasses(lines, trade[j], assets) {
      if j > 0 {
        assert trade[j] == trade[1..][j - 1];
      }
    }
  }

  lemma {:induction false} ThrowsAt(lines: seq<Line>, trade: seq<ItemValue>, assets: map<string, Item>, k: nat)
    requires k < |trade| && Unresolved(trade[k], assets) && forall j :: 0 <= j < k ==> LinePasses(lines, trade[j], assets)
    ensures Validate(lines, trade, assets).Threw?
    decreases k
  {
    if k > 0 {
      assert LinePasses(lines, trade[0], assets);
      forall j | 0 <= j < k - 1 ensures LinePasses(lines, trade[1..][j], assets) {
        assert trade[1..][j] == trade[j + 1];
      }
      ThrowsAt(lines, trade[1..], assets, k - 1);
    }
  }

  /** The ItemQuantity values published by a run grow by one per applied step. */
  lemma PublishedSnoc(steps: seq<Added>, s: Added)
    ensures Published(steps + [s]) == Published(steps) + [NewValue(QuantityKind, s.item, s.amount).value]
  {
    var l := Published(steps + [s]);
    var r := Published(steps) + [NewValue(QuantityKind, s.item, s.amount).value];
    forall k | 0 <= k < |l| ensures l[k] == r[k] {
      if k < |steps| {
        assert (steps + [s])[k] == steps[k];
      }
    }
  }

  /**
   * A trade loop part-way, with the lines `rest` still to go: the whole run
   * is `done` followed by the run over `rest` from the current lines, and
   * every applied step has published its value and re-snapshotted the stock.
   */
  ghost predicate Trail(whole: Run, done: seq<Added>, rest: seq<ItemValue>, assets: map<string, Item>, sign: Sign,
                        lines: seq<Line>, published: seq<ItemValue>, saved: seq<ItemValue>,
                        published0: seq<ItemValue>, saved0: seq<ItemValue>)
  {
    && whole == After(done, ApplyLines(lines, rest, assets, sign))
    && published == published0 + Published(done)
    && saved == if done == [] then saved0 else Snapshot(lines)
  }

  /** The line that throws ends the run where it is. */
  lemma TrailStops(whole: Run, done: seq<Added>, rest: seq<ItemValue>, assets: map<string, Item>, sign: Sign,
                   lines: seq<Line>, published: seq<ItemValue>, saved: seq<ItemValue>,
                   published0: seq<ItemValue>, saved0: seq<ItemValue>)
    requires Trail(whole, done, rest, assets, sign, lines, published, saved, published0, saved0)
    requires rest != [] && Step(rest[0], assets, sign).Threw?
    ensures whole == Run(lines, done, true)
  {
    ApplyLinesUnfold(lines, rest, assets, sign);
  }

  /** A line that does not throw is applied, and the run goes on with the next one. */
  lemma TrailNext(whole: Run, done: seq<Added>, rest: seq<ItemValue>, assets: map<string, Item>, sign: Sign,
                  lines: seq<Line>, published: seq<ItemValue>, saved: seq<ItemValue>,
                  published0: seq<ItemValue>, saved0: seq<ItemValue>)
    requires Trail(whole, done, rest, assets, sign, lines, published, saved, published0, saved0)
    requires rest != [] && Step(rest[0], assets, sign).Returned?
    ensures var s := Step(rest[0], assets, sign).value;
            var next := AddTo(lines, s.item, s.amount);
            Trail(whole, done + [s], rest[1..], assets, sign, next,
                  published + [NewValue(QuantityKind, s.item, s.amount).value], Snapshot(next), published0, saved0)
  {
    var s := Step(rest[0], assets, sign).value;
    ApplyLinesUnfold(lines, rest, assets, sign);
    var tail := ApplyLines(AddTo(lines, s.item, s.amount), rest[1..], assets, sign);
    assert done + [s] + tail.steps == done + ([s] + tail.steps);
    PublishedSnoc(done, s);
  }

  /**
   * A trade loop: AddItem for each line in order with the amount its sign
   * gives, stopping at the first line that throws.
   */
  method AddEach(m: InventoryDataManager, vals: seq<ItemValue>, assets: map<string, Item>, sign: Sign, ghost items: set<Item>)
    returns (threw: bool)
    requires m.Valid()
    requires forall g | g in assets :: assets[g] in items
    modifies m, items
    ensures m.Valid()
    ensures var r := ApplyLines(old(m.inventory), vals, assets, sign);
            && m.inventory == r.lines && threw == r.threw
            && m.lastAdded == old(m.lastAdded) + Published(r.steps)
            && m.savedStock == if r.steps == [] then old(m.savedStock) else Snapshot(m.inventory)
  {
    ghost var whole := ApplyLines(m.inventory, vals, assets, sign);
    ghost var done: seq<Added> := [];
    var rest := vals;
    while rest != []
      invariant m.Valid()
      invariant Trail(whole, done, rest, assets, sign, m.inventory, m.lastAdded, m.savedStock, old(m.lastAdded), old(m.savedStock))
    {
      ghost var step := Step(rest[0], assets, sign);
      ghost var lines, pub, sav := m.inventory, m.lastAdded, m.savedStock;
      var failed := AddLine(m, rest[0], assets, sign, items);
      if failed {
        TrailStops(whole, done, rest, assets, sign, lines, m.lastAdded, m.savedStock, old(m.lastAdded), old(m.savedStock));
        return true;
      }
      TrailNext(whole, done, rest, assets, sign, lines, pub, sav, old(m.lastAdded), old(m.savedStock));
      done := done + [step.value];
      rest := rest[1..];
    }
    return false;
  }

  /** One line of a trade loop: resolve it, compute the amount, AddItem. */
  method AddLine(m: InventoryDataManager, v: ItemValue, assets: map<string, Item>, sign: Sign, ghost items: set<Item>)
    returns (threw: bool)
    requires m.Valid()
    requires forall g | g in assets :: assets[g] in items
    modifies m, items
    ensures m.Valid()
    ensures threw <==> Step(v, assets, sign).Threw?
    ensures threw ==> m.inventory == old(m.inventory) && m.lastAdded == old(m.lastAdded) && m.savedStock == old(m.savedStock)
    ensures !threw ==>
              var s := Step(v, assets, sign).value;
              && m.inventory == AddTo(old(m.inventory), s.item, s.amount)
              && m.lastAdded == old(m.lastAdded) + [NewValue(QuantityKind, s.item, s.amount).value]
              && m.savedStock == Snapshot(m.inventory)
  {
    var item := ResolveRef(v.reference, assets);
    if item.Threw? || item.value == null {
      return true;
    }
    var amount := Amount(v.quantity, sign);
    if amount.Threw? {
      return true;
    }
    var _ := m.AddItem(item.value, amount.value);
    return false;
  }

  // ---------------------------------------------------------------------
  // What a trade removes per item, and the trade as evidently intended
  // ---------------------------------------------------------------------

  /** The total the removal lines take from item `x`: the sum of |quantity| over the lines resolving to it. */
  function Demand(vals: seq<ItemValue>, assets: map<string, Item>, x: Item): int
  {
    if vals == [] then 0
    else
      var here := Step(vals[0], assets, Removal);
      (if here.Returned? && here.value.item == x then -here.value.amount else 0) + Demand(vals[1..], assets, x)
  }

  /** No line adds to a count: a demand is never negative. */
  lemma {:induction false} DemandNonNegative(vals: seq<ItemValue>, assets: map<string, Item>, x: Item)
    ensures Demand(vals, assets, x) >= 0
  {
    if vals != [] {
      DemandNonNegative(vals[1..], assets, x);
    }
  }

  /** Every line of `vals` goes through without throwing. */
  predicate AllResolve(vals: seq<ItemValue>, assets: map<string, Item>, sign: Sign)
  {
    forall k :: 0 <= k < |vals| ==> Step(vals[k], assets, sign).Returned?
  }

  /** Every item with a demand is one some removal line resolves to. */
  lemma {:induction false} DemandWitness(vals: seq<ItemValue>, assets: map<string, Item>, x: Item)
    requires Demand(vals, assets, x) > 0
    ensures exists k :: 0 <= k < |vals| && Step(vals[k], assets, Removal).Returned? && Step(vals[k], assets, Removal).value.item == x
  {
    var here := Step(vals[0], assets, Removal);
    if !(here.Returned? && here.value.item == x) {
      DemandWitness(vals[1..], assets, x);
      var k :| 0 <= k < |vals[1..]| && Step(vals[1..][k], assets, Removal).Returned? && Step(vals[1..][k], assets, Removal).value.item == x;
      assert vals[k + 1] == vals[1..][k];
    }
  }

  /**
   * Removals that all resolve, from a stock that covers every item's total
   * demand, never throw and take exactly the demand off each item: no
   * count wraps around and none drops below zero.
   */
  lemma {:induction false} RemovalExact(lines: seq<Line>, vals: seq<ItemValue>, assets: map<string, Item>)
    requires AllResolve(vals, assets, Removal)
    requires forall y: Item :: Demand(vals, assets, y) > 0 ==> CountOrZero(lines, y) >= Demand(vals, assets, y)
    ensures !ApplyLines(lines, vals, assets, Removal).threw
    ensures forall x: Item :: CountOrZero(ApplyLines(lines, vals, assets, Removal).lines, x) == CountOrZero(lines, x) - Demand(vals, assets, x)
    decreases |vals|
  {
    if vals != [] {
      assert Step(vals[0], assets, Removal).Returned?;
      var s := Step(vals[0], assets, Removal).value;
      var next := AddTo(lines, s.item, s.amount);
      var rest := vals[1..];
      assert AllResolve(rest, assets, Removal) by {
        forall k | 0 <= k < |rest| ensures Step(rest[k], assets, Removal).Returned? {
          assert rest[k] == vals[k + 1];
        }
      }
      DemandNonNegative(rest, assets, s.item);
      assert Demand(vals, assets, s.item) == -s.amount + Demand(rest, assets, s.item);
      assert CountOrZero(next, s.item) == CountOrZero(lines, s.item) + s.amount;
      forall y: Item ensures CountOrZero(next, y) == CountOrZero(lines, y) - (if y == s.item then -s.amount else 0) {
        if y != s.item {
          AddToOthers(lines, s.item, s.amount, y);
        }
      }
      RemovalExact(next, rest, assets);
    }
  }

  /** Lines that all resolve never throw, whatever the stock. */
  lemma {:induction false} ResolvingRunsFinish(lines: seq<Line>, vals: seq<ItemValue>, assets: map<string, Item>, sign: Sign)
    requires AllResolve(vals, assets, sign)
    ensures !ApplyLines(lines, vals, assets, sign).threw
    decreases |vals|
  {
    if vals != [] {
      var s := Step(vals[0], assets, sign).value;
      assert AllResolve(vals[1..], assets, sign) by {
        forall k | 0 <= k < |vals[1..]| ensures Step(vals[1..][k], assets, sign).Returned? {
          assert vals[1..][k] == vals[k + 1];
        }
      }
      ResolvingRunsFinish(AddTo(lines, s.item, s.amount), vals[1..], assets, sign);
    }
  }

  /**
   * The check an all-or-nothing trade needs: every line resolves with a
   * representable |quantity|, and each traded item is stocked with at least
   * the total the trade lines take from it.
   */
  predicate Affordable(lines: seq<Line>, trade: seq<ItemValue>, receive: seq<ItemValue>, assets: map<string, Item>)
  {
    && AllResolve(trade, assets, Removal)
    && AllResolve(receive, assets, Receipt)
    && forall k :: 0 <= k < |trade| ==>
         var x := Step(trade[k], assets, Removal).value.item;
         CountOrZero(lines, x) >= Demand(trade, assets, x)
  }

  /** The per-line check of Affordable covers every item with a demand. */
  lemma AffordableCovers(lines: seq<Line>, trade: seq<ItemValue>, receive: seq<ItemValue>, assets: map<string, Item>)
    requires Affordable(lines, trade, receive, assets)
    ensures forall y: Item :: Demand(trade, assets, y) > 0 ==> CountOrZero(lines, y) >= Demand(trade, assets, y)
  {
    forall y: Item | Demand(trade, assets, y) > 0 ensures CountOrZero(lines, y) >= Demand(trade, assets, y) {
      DemandWitness(trade, assets, y);
    }
  }

  /**
   * Two trade lines for the same item each pass against a stock of 5 but
   * remove 6 together: TradeAsync leaves the count at -1.
   */
  lemma TradeOversells(it: Item)
    ensures var lines := [Line(it, 5)];
            var assets := map[it.guid := it];
            var v := ItemValue(QuantityKind, it, Some(ItemRef(it.guid)), 3);
            && Validate(lines, [v, v], assets) == Returned(true)
            && ApplyLines(lines, [v, v], assets, Removal) == Run([Line(it, -1)], [Added(it, -3), Added(it, -3)], false)
  {
    var lines := [Line(it, 5)];
    var assets := map[it.guid := it];
    var v := ItemValue(QuantityKind, it, Some(ItemRef(it.guid)), 3);
    assert [v, v][1..] == [v];
    assert [v][1..] == [];
    assert CountOf(lines, it) == Some(5);
    assert Validate(lines, [v], assets) == Returned(true);
    assert ApplyLines([Line(it, -1)], [], assets, Removal) == Run([Line(it, -1)], [], false);
    assert ApplyLines([Line(it, 2)], [v], assets, Removal) == Run([Line(it, -1)], [Added(it, -3)], false);
  }

  /**
   * A receive line with a null reference is not validated: TradeAsync has
   * already removed the traded items when it throws on that line.
   */
  lemma TradeHalfApplied(it: Item)
    ensures var lines := [Line(it, 5)];
            var assets := map[it.guid := it];
            var give := ItemValue(QuantityKind, it, Some(ItemRef(it.guid)), 3);
            var take := ItemValue(QuantityKind, null, None, 1);
            var out := ApplyLines(lines, [give], assets, Removal);
            && Validate(lines, [give], assets) == Returned(true)
            && out == Run([Line(it, 2)], [Added(it, -3)], false)
            && ApplyLines(out.lines, [take], assets, Receipt) == Run([Line(it, 2)], [], true)
  {
    var assets := map[it.guid := it];
    var give := ItemValue(QuantityKind, it, Some(ItemRef(it.guid)), 3);
    assert ApplyLines([Line(it, 2)], [], assets, Removal) == Run([Line(it, 2)], [], false);
  }

  class Product {
    const inventoryDataManager: InventoryDataManager
    var itemsToTrade: seq<ItemValue>
    var itemsToReceive: seq<ItemValue>

    constructor (m: InventoryDataManager, trade: seq<ItemValue>, receive: seq<ItemValue>)
      ensures inventoryDataManager == m && itemsToTrade == trade && itemsToReceive == receive
    {
      inventoryDataManager := m;
      itemsToTrade := trade;
      itemsToReceive := receive;
    }

    /**
     * TradeAsync: a failed validation changes nothing. Otherwise every trade
     * line removes |quantity|, in order, and only then every receive line
     * adds |quantity|. A line that throws ends the trade where it is, with
     * the earlier lines applied.
     */
    method TradeAsync(assets: map<string, Item>, ghost items: set<Item>) returns (threw: bool)
      requires inventoryDataManager.Valid()
      requires forall g | g in assets :: assets[g] in items
      modifies inventoryDataManager, items
      ensures inventoryDataManager.Valid()
      ensures var m := inventoryDataManager;
              var v := Validate(old(m.inventory), itemsToTrade, assets);
              && (v.Threw? ==> threw && m.inventory == old(m.inventory))
              && (v == Returned(false) ==> !threw && m.inventory == old(m.inventory))
              && (v == Returned(true) ==>
                    var out := ApplyLines(old(m.inventory), itemsToTrade, assets, Removal);
                    var back := ApplyLines(out.lines, itemsToReceive, assets, Receipt);
                    if out.threw then threw && m.inventory == out.lines
                    else threw == back.threw && m.inventory == back.lines
                         && m.lastAdded == old(m.lastAdded) + Published(out.steps) + Published(back.steps))
    {
      var m := inventoryDataManager;
      var v := Validate(m.inventory, itemsToTrade, assets);
      if v.Threw? {
        return true;
      }
      if !v.value {
        return false;
      }
      threw := AddEach(m, itemsToTrade, assets, Removal, items);
      if threw {
        return;
      }
      threw := AddEach(m, itemsToReceive, assets, Receipt, items);
    }

    /**
     * TradeAsync as evidently intended: nothing changes unless the whole
     * trade can go through; then every line is applied, each traded item
     * loses exactly its total demand and stays at or above zero.
     */
    method TradeChecked(assets: map<string, Item>, ghost items: set<Item>) returns (traded: bool)
      requires inventoryDataManager.Valid()
      requires forall g | g in assets :: assets[g] in items
      modifies inventoryDataManager, items
      ensures inventoryDataManager.Valid()
      ensures traded <==> old(Affordable(inventoryDataManager.inventory, itemsToTrade, itemsToReceive, assets))
      ensures !traded ==> inventoryDataManager.inventory == old(inventoryDataManager.inventory)
      ensures var m := inventoryDataManager;
              var out := ApplyLines(old(m.inventory), itemsToTrade, assets, Removal);
              traded ==>
                && !out.threw
                && !ApplyLines(out.lines, itemsToReceive, assets, Receipt).threw
                && m.inventory == ApplyLines(out.lines, itemsToReceive, assets, Receipt).lines
                && (forall x: Item :: CountOrZero(out.lines, x) == CountOrZero(old(m.inventory), x) - Demand(itemsToTrade, assets, x))
                && (forall x: Item :: Demand(itemsToTrade, assets, x) > 0 ==> CountOrZero(out.lines, x) >= 0)
    {
      var m := inventoryDataManager;
      if !Affordable(m.inventory, itemsToTrade, itemsToReceive, assets) {
        return false;
      }
      ghost var before := m.inventory;
      var _ := AddEach(m, itemsToTrade, assets, Removal, items);
      ResolvingRunsFinish(m.inventory, itemsToReceive, assets, Receipt);
      var _ := AddEach(m, itemsToReceive, assets, Receipt, items);
      AffordableCovers(before, itemsToTrade, itemsToReceive, assets);
      RemovalExact(before, itemsToTrade, assets);
      return true;
    }
  }
}

/**
 * GenericAssetSelectorDrawer<T> (Editor/AssetSelector/GenericAssetSelectorDrawer.cs):
 * the candidate list of a drop-down that picks a ScriptableObject asset of
 * type T, optionally narrowed by a filter type, and the choice of the
 * drop-down's current entry. The drawing itself is not modelled.
 */
module AssetSelector {
  import opened Wrappers
  import opened EditorTypes

  /** The test InheritsFromGenericBase makes on one type: a closed form of `definition` over exactly `argument`. */
  predicate Closes(types: TypeTable, t: TypeId, definition: TypeId, argument: TypeId)
  {
    t in types && types[t].genericDefinition == Some(definition) && types[t].genericArguments == [argument]
  }

  /** The types InheritsFromGenericBase visits: the type itself, then its BaseType chain. */
  function Walk(types: TypeTable, t: TypeId): seq<TypeId>
  {
    [t] + Bases(types, t)
  }

  /**
   * Some type of the walk, reached before object, closes the definition
   * over the argument.
   */
  predicate InheritsGeneric(types: TypeTable, t: TypeId, definition: TypeId, argument: TypeId)
  {
    var chain := Walk(types, t);
    exists k :: 0 <= k < |chain| && Closes(types, chain[k], definition, argument)
                && forall j :: 0 <= j <= k ==> chain[j] != ObjectType
  }

  /**
   * InheritsFromGenericBase: up the chain from the type itself until
   * object or the end, true at the first closed form of the definition
   * with the single expected argument.
   */
  method InheritsFromGenericBase(types: TypeTable, t: TypeId, definition: TypeId, argument: TypeId) returns (r: bool)
    ensures r <==> InheritsGeneric(types, t, definition, argument)
  {
    var chain := Walk(types, t);
    var i := 0;
    while i < |chain| && chain[i] != ObjectType
      invariant 0 <= i <= |chain|
      invariant forall k :: 0 <= k < i ==> chain[k] != ObjectType && !Closes(types, chain[k], definition, argument)
    {
      if Closes(types, chain[i], definition, argument) {
        return true;
      }
      i := i + 1;
    }
    return false;
  }

  /** The closed generic type InheritsGeneric finds is the type itself or one of its base types. */
  lemma InheritsGenericIsAncestor(types: TypeTable, t: TypeId, definition: TypeId, argument: TypeId)
    requires InheritsGeneric(types, t, definition, argument)
    ensures exists u :: Assignable(types, u, t) && Closes(types, u, definition, argument)
  {
    var chain := Walk(types, t);
    var k :| 0 <= k < |chain| && Closes(types, chain[k], definition, argument)
             && forall j :: 0 <= j <= k ==> chain[j] != ObjectType;
    if k > 0 {
      assert chain[k] == Bases(types, t)[k - 1];
    }
    assert Assignable(types, chain[k], t);
  }

  /** Whether the filter is a generic type definition. */
  predicate IsGenericDefinition(types: TypeTable, f: TypeId)
  {
    f in types && types[f].isGenericDefinition
  }

  /**
   * An asset the drawer offers: assignable to T, and admitted by the
   * filter, which admits everything when absent, tests the base chain when
   * it is a generic definition, and tests assignability otherwise.
   */
  predicate Candidate(types: TypeTable, expected: TypeId, filter: Option<TypeId>, a: Asset)
  {
    Assignable(types, expected, a.typ)
    && (filter.None?
        || (IsGenericDefinition(types, filter.value) && InheritsGeneric(types, a.typ, filter.value, expected))
        || (!IsGenericDefinition(types, filter.value) && Assignable(types, filter.value, a.typ)))
  }

  /** The candidates among the loaded assets, in load order; null entries are skipped. */
  function Matching(types: TypeTable, expected: TypeId, filter: Option<TypeId>, all: seq<Option<Asset>>): (r: seq<Asset>)
  {
    if all == [] then []
    else Matching(types, expected, filter, all[..|all| - 1])
         + (if all[|all| - 1].Some? && Candidate(types, expected, filter, all[|all| - 1].value) then [all[|all| - 1].value] else [])
  }

  /** Exactly the loaded candidates are offered. */
  lemma {:induction false} MatchingExactly(types: TypeTable, expected: TypeId, filter: Option<TypeId>, all: seq<Option<Asset>>)
    ensures forall a :: a in Matching(types, expected, filter, all) <==> Some(a) in all && Candidate(types, expected, filter, a)
  {
    if all != [] {
      var p := all[..|all| - 1];
      MatchingExactly(types, expected, filter, p);
      assert all == p + [all[|all| - 1]];
    }
  }

  /** The drop-down label of an entry: the asset's name, or "<None>" for the null entry. */
  function NameOf(x: Option<Asset>): string
  {
    if x.Some? then x.value.name else "<None>"
  }

  /** List.IndexOf: the first position of `x`, or -1. */
  function IndexOf<T(==)>(s: seq<T>, x: T): (r: int)
    ensures -1 <= r < |s|
    ensures r >= 0 ==> s[r] == x && forall k :: 0 <= k < r ==> s[k] != x
    ensures r == -1 <==> x !in s
  {
    if s == [] then -1
    else if s[0] == x then 0
    else var i := IndexOf(s[1..], x); if i == -1 then -1 else i + 1
  }

  /** Mathf.Clamp on integers. */
  function Clamp(value: int, min: int, max: int): int
  {
    if value < min then min else if value > max then max else value
  }

  /** The loop of InitializeMatchingAssets: each loaded asset in turn, kept when it is a candidate. */
  method CollectMatching(types: TypeTable, expected: TypeId, filter: Option<TypeId>, all: seq<Option<Asset>>)
    returns (found: seq<Asset>)
    ensures found == Matching(types, expected, filter, all)
  {
    found := [];
    for i := 0 to |all|
      invariant found == Matching(types, expected, filter, all[..i])
    {
      assert all[..i + 1] == all[..i] + [all[i]];
      assert all[..i + 1][..i] == all[..i];
      if all[i].None? {
        continue;
      }
      var so := all[i].value;
      if !Assignable(types, expected, so.typ) {
        continue;
      }
      var admitted := false;
      if filter.None? {
        admitted := true;
      } else if IsGenericDefinition(types, filter.value) {
        admitted := InheritsFromGenericBase(types, so.typ, filter.value, expected);
      } else if Assignable(types, filter.value, so.typ) {
        admitted := true;
      }
      if admitted {
        found := found + [so];
      }
    }
    assert all[..|all|] == all;
  }

  class GenericAssetSelectorDrawer {
    /** typeof(T) and the attribute's TargetGenericType. */
    const expected: TypeId
    const filter: Option<TypeId>
    var matchingAssets: seq<Option<Asset>>
    var assetNames: seq<string>
    var initialized: bool

    constructor (expected: TypeId, filter: Option<TypeId>)
      ensures this.expected == expected && this.filter == filter && !initialized
      ensures matchingAssets == [] && assetNames == []
    {
      this.expected := expected;
      this.filter := filter;
      matchingAssets := [];
      assetNames := [];
      initialized := false;
    }

    /** Once initialised, the names match the candidates one for one, and there is at least the null entry. */
    predicate Valid()
      reads this
    {
      initialized ==> |assetNames| == |matchingAssets| > 0
    }

    /**
     * InitializeMatchingAssets: the candidates among the loaded assets in
     * load order, behind a null entry, and one name per entry.
     */
    method InitializeMatchingAssets(types: TypeTable, all: seq<Option<Asset>>)
      modifies this
      ensures matchingAssets == [None] + Wrap(Matching(types, expected, filter, all))
      ensures |assetNames| == |matchingAssets| && assetNames[0] == "<None>"
      ensures forall k :: 0 <= k < |assetNames| ==> assetNames[k] == NameOf(matchingAssets[k])
      ensures initialized == old(initialized)
    {
      var found := CollectMatching(types, expected, filter, all);
      var entries := [None] + Wrap(found);
      matchingAssets := entries;
      assetNames := seq(|entries|, k requires 0 <= k < |entries| => NameOf(entries[k]));
    }

    /** The first part of DrawPropertyLayout: the candidates are built once, on first use. */
    method EnsureInitialized(types: TypeTable, all: seq<Option<Asset>>)
      requires Valid()
      modifies this
      ensures Valid() && initialized
      ensures old(initialized) ==> matchingAssets == old(matchingAssets) && assetNames == old(assetNames)
      ensures !old(initialized) ==> matchingAssets == [None] + Wrap(Matching(types, expected, filter, all))
    {
      if !initialized {
        InitializeMatchingAssets(types, all);
        initialized := true;
      }
    }

    /**
     * The drop-down's current entry: the position of the current value
     * among the candidates, clamped into the list, so the null entry when
     * there is no value or the value is not a candidate.
     */
    function CurrentIndex(current: Option<Asset>): (r: int)
      reads this
      requires Valid() && initialized
      ensures 0 <= r < |assetNames|
      ensures current.Some? && current in matchingAssets ==>
                matchingAssets[r] == current && forall k :: 0 <= k < r ==> matchingAssets[k] != current
      ensures current.None? || current !in matchingAssets ==> r == 0
    {
      Clamp(if current.Some? then IndexOf(matchingAssets, current) else 0, 0, |assetNames| - 1)
    }

    /**
     * The last part of DrawPropertyLayout: the entry picked in the
     * drop-down is written back as the value only when it differs from the
     * current entry.
     */
    method Select(current: Option<Asset>, selected: nat) returns (written: Option<Option<Asset>>)
      requires Valid() && initialized && selected < |assetNames|
      ensures written.Some? <==> selected != CurrentIndex(current)
      ensures written.Some? ==> written.value == matchingAssets[selected]
    {
      var currentIndex := CurrentIndex(current);
      if selected != currentIndex {
        return Some(matchingAssets[selected]);
      }
      return None;
    }
  }

  /** Each asset as a present entry. */
  function Wrap(s: seq<Asset>): (r: seq<Option<Asset>>)
    ensures |r| == |s| && forall k :: 0 <= k < |s| ==> r[k] == Some(s[k])
  {
    seq(|s|, k requires 0 <= k < |s| => Some(s[k]))
  }
}

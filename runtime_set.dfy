/**
 * RuntimeSet<T> and RuntimeSetInitializer<T> (RuntimeSet.cs), and
 * MessageListenerSet (MessageListenerSet.cs), the runtime set of message
 * listeners.
 *
 * A runtime set is a list that Add keeps free of duplicates and that
 * enumerates in insertion order. An initializer registers its items with
 * a set when initialised and unregisters them when disabled. Listeners are
 * compared by identity, so a listener is its id here.
 */
module RuntimeSets {
  import opened Wrappers

  type ListenerId = nat

  /** No element occurs twice. */
  predicate Distinct<T(==)>(s: seq<T>)
  {
    forall i, j :: 0 <= i < j < |s| ==> s[i] != s[j]
  }

  /** List.Remove: the first occurrence of `x` dropped, if there is one. */
  function RemovedFirst<T(==)>(s: seq<T>, x: T): (r: seq<T>)
    ensures x !in s ==> r == s
  {
    if s == [] then []
    else if s[0] == x then s[1..]
    else [s[0]] + RemovedFirst(s[1..], x)
  }

  /** Add: `x` appended unless it is already there. */
  function Added<T(==)>(s: seq<T>, x: T): seq<T>
  {
    if x in s then s else s + [x]
  }

  /** Add keeps a list without duplicates so, and the item is then in it. */
  lemma AddedDistinct<T>(s: seq<T>, x: T)
    requires Distinct(s)
    ensures Distinct(Added(s, x)) && x in Added(s, x)
    ensures forall y :: y in s ==> y in Added(s, x)
  {
  }

  /**
   * On a list without duplicates, Remove drops the item altogether, keeps
   * every other element, and keeps the list without duplicates.
   */
  lemma {:induction false} RemovedFirstDistinct<T>(s: seq<T>, x: T)
    requires Distinct(s)
    ensures var r := RemovedFirst(s, x);
            && x !in r && Distinct(r)
            && (forall y :: y in r <==> y in s && y != x)
  {
    if s != [] {
      assert Distinct(s[1..]) by {
        forall i, j | 0 <= i < j < |s[1..]|
          ensures s[1..][i] != s[1..][j]
        {
          assert s[1..][i] == s[i + 1] && s[1..][j] == s[j + 1];
        }
      }
      if s[0] == x {
        assert forall k :: 0 <= k < |s[1..]| ==> s[1..][k] == s[k + 1];
        assert forall y :: y in s <==> y == s[0] || y in s[1..];
      } else {
        RemovedFirstDistinct(s[1..], x);
        var r := RemovedFirst(s[1..], x);
        assert s[0] !in s[1..] by {
          forall k | 0 <= k < |s[1..]|
            ensures s[1..][k] != s[0]
          {
            assert s[1..][k] == s[k + 1];
          }
        }
        assert Distinct([s[0]] + r) by {
          forall i, j | 0 <= i < j < |[s[0]] + r|
            ensures ([s[0]] + r)[i] != ([s[0]] + r)[j]
          {
            if i > 0 {
              assert ([s[0]] + r)[i] == r[i - 1] && ([s[0]] + r)[j] == r[j - 1];
            } else {
              assert ([s[0]] + r)[j] == r[j - 1];
              assert r[j - 1] in r;
            }
          }
        }
        assert forall y :: y in s <==> y == s[0] || y in s[1..];
      }
    }
  }

  /** Removing an item that was just added to a list without it gives the list back. */
  lemma {:induction false} RemoveUndoesAdd<T>(s: seq<T>, x: T)
    requires x !in s
    ensures RemovedFirst(Added(s, x), x) == s
  {
    if s != [] {
      assert (s + [x])[1..] == s[1..] + [x];
      assert x !in s[1..];
      RemoveUndoesAdd(s[1..], x);
    } else {
      assert [x][1..] == [];
    }
  }

  /** The set after each of `xs` is added in turn. */
  function AddAll<T(==)>(s: seq<T>, xs: seq<T>): seq<T>
    decreases |xs|
  {
    if xs == [] then s else AddAll(Added(s, xs[0]), xs[1..])
  }

  /** The set after each of `xs` is removed in turn. */
  function RemoveAll<T(==)>(s: seq<T>, xs: seq<T>): seq<T>
    decreases |xs|
  {
    if xs == [] then s else RemoveAll(RemovedFirst(s, xs[0]), xs[1..])
  }

  /**
   * Registering keeps the set without duplicates, adds every item, and
   * loses nothing that was there.
   */
  lemma {:induction false} AddAllRegisters<T>(s: seq<T>, xs: seq<T>)
    requires Distinct(s)
    ensures var r := AddAll(s, xs);
            && Distinct(r)
            && (forall y :: y in r <==> y in s || y in xs)
    decreases |xs|
  {
    if xs != [] {
      AddedDistinct(s, xs[0]);
      AddAllRegisters(Added(s, xs[0]), xs[1..]);
      assert forall y :: y in xs <==> y == xs[0] || y in xs[1..];
    }
  }

  /**
   * Unregistering from a set without duplicates leaves none of the items
   * and every other element.
   */
  lemma {:induction false} RemoveAllUnregisters<T>(s: seq<T>, xs: seq<T>)
    requires Distinct(s)
    ensures var r := RemoveAll(s, xs);
            && Distinct(r)
            && (forall y :: y in r <==> y in s && y !in xs)
    decreases |xs|
  {
    if xs != [] {
      RemovedFirstDistinct(s, xs[0]);
      RemoveAllUnregisters(RemovedFirst(s, xs[0]), xs[1..]);
      assert forall y :: y in xs <==> y == xs[0] || y in xs[1..];
    }
  }

  /**
   * Init then OnDisable: the set ends without any of the registered items
   * and with everything else it held before.
   */
  lemma RegisterThenUnregister<T>(s: seq<T>, xs: seq<T>)
    requires Distinct(s)
    ensures forall y :: y in RemoveAll(AddAll(s, xs), xs) <==> y in s && y !in xs
  {
    AddAllRegisters(s, xs);
    RemoveAllUnregisters(AddAll(s, xs), xs);
  }

  /** List.RemoveAll with the listener's Equals: every entry equal to `x` dropped. */
  function Without<T(==)>(s: seq<T>, x: T): (r: seq<T>)
  {
    if s == [] then []
    else (if s[0] == x then [] else [s[0]]) + Without(s[1..], x)
  }

  /** Without drops exactly the entries equal to `x` and keeps the others in order. */
  lemma {:induction false} WithoutDrops<T>(s: seq<T>, x: T)
    ensures x !in Without(s, x)
    ensures forall y :: y in Without(s, x) <==> y in s && y != x
    ensures |Without(s, x)| <= |s|
    ensures |Without(s, x)| < |s| <==> x in s
  {
    if s != [] {
      WithoutDrops(s[1..], x);
      assert forall y :: y in s <==> y == s[0] || y in s[1..];
    }
  }

  class RuntimeSet<T(==)> {
    /** items, in insertion order: what the enumerator yields. */
    var items: seq<T>

    constructor ()
      ensures items == []
    {
      items := [];
    }

    /** Add: the item appended unless already present. */
    method Add(item: T)
      modifies this
      ensures items == Added(old(items), item)
    {
      if item !in items {
        items := items + [item];
      }
    }

    /** Remove: the first occurrence dropped if the item is present, nothing otherwise. */
    method Remove(item: T)
      modifies this
      ensures items == RemovedFirst(old(items), item)
    {
      if item in items {
        items := RemovedFirst(items, item);
      }
    }

    /** Clear: the set emptied. */
    method Clear()
      modifies this
      ensures items == []
    {
      items := [];
    }
  }

  class RuntimeSetInitializer<T(==)> {
    var runtimeSet: RuntimeSet?<T>
    var itemsToRegister: seq<T>
    const useChildrenComponents: bool

    constructor (runtimeSet: RuntimeSet?<T>, itemsToRegister: seq<T>, useChildrenComponents: bool)
      ensures this.runtimeSet == runtimeSet && this.itemsToRegister == itemsToRegister
      ensures this.useChildrenComponents == useChildrenComponents
    {
      this.runtimeSet := runtimeSet;
      this.itemsToRegister := itemsToRegister;
      this.useChildrenComponents := useChildrenComponents;
    }

    /**
     * RegisterItems: when adding from the children, the item list is first
     * replaced by the components found (`children`); then each item is added
     * to, or removed from, the set in order. A missing set throws on the
     * first item.
     */
    method RegisterItems(add: bool, children: seq<T>) returns (threw: bool)
      modifies this, runtimeSet
      ensures runtimeSet == old(runtimeSet)
      ensures itemsToRegister == if useChildrenComponents && add then children else old(itemsToRegister)
      ensures threw <==> runtimeSet == null && itemsToRegister != []
      ensures runtimeSet != null ==>
                runtimeSet.items == if add then AddAll(old(runtimeSet.items), itemsToRegister)
                                    else RemoveAll(old(runtimeSet.items), itemsToRegister)
    {
      if useChildrenComponents && add {
        itemsToRegister := children;
      }
      if runtimeSet == null {
        return itemsToRegister != [];
      }
      var rest := itemsToRegister;
      while rest != []
        invariant runtimeSet != null && runtimeSet == old(runtimeSet)
        invariant (if add then AddAll(runtimeSet.items, rest) else RemoveAll(runtimeSet.items, rest))
                  == (if add then AddAll(old(runtimeSet.items), itemsToRegister) else RemoveAll(old(runtimeSet.items), itemsToRegister))
        modifies runtimeSet
      {
        if add {
          runtimeSet.Add(rest[0]);
        } else {
          runtimeSet.Remove(rest[0]);
        }
        rest := rest[1..];
      }
      return false;
    }

    /** Init: the items registered. */
    method Init(children: seq<T>) returns (threw: bool)
      modifies this, runtimeSet
      ensures runtimeSet == old(runtimeSet)
      ensures itemsToRegister == if useChildrenComponents then children else old(itemsToRegister)
      ensures threw <==> runtimeSet == null && itemsToRegister != []
      ensures runtimeSet != null ==> runtimeSet.items == AddAll(old(runtimeSet.items), itemsToRegister)
    {
      threw := RegisterItems(true, children);
    }

    /** OnDisable: the same items unregistered; the item list is not refreshed. */
    method OnDisable() returns (threw: bool)
      modifies this, runtimeSet
      ensures runtimeSet == old(runtimeSet) && itemsToRegister == old(itemsToRegister)
      ensures threw <==> runtimeSet == null && itemsToRegister != []
      ensures runtimeSet != null ==> runtimeSet.items == RemoveAll(old(runtimeSet.items), itemsToRegister)
    {
      threw := RegisterItems(false, []);
    }
  }

  /**
   * MessageListenerSet.Add(Object): `component` is what GetComponent finds
   * on the object. Without a listener it throws InvalidCastException;
   * otherwise the listener is added as RuntimeSet.Add does.
   */
  method AddObject(s: RuntimeSet<ListenerId>, component: Option<ListenerId>) returns (threw: bool)
    modifies s
    ensures threw <==> component.None?
    ensures threw ==> s.items == old(s.items)
    ensures !threw ==> s.items == Added(old(s.items), component.value)
  {
    if component.None? {
      return true;
    }
    s.Add(component.value);
    return false;
  }

  /**
   * MessageListenerSet.Remove(Object): without a listener reading its
   * Equals throws; a listener not in the set throws
   * InvalidOperationException; otherwise every entry equal to it is
   * removed.
   */
  method RemoveObject(s: RuntimeSet<ListenerId>, component: Option<ListenerId>) returns (threw: bool)
    modifies s
    ensures threw <==> component.None? || component.value !in old(s.items)
    ensures threw ==> s.items == old(s.items)
    ensures !threw ==> s.items == Without(old(s.items), component.value)
  {
    if component.None? {
      return true;
    }
    var listener := component.value;
    if listener !in s.items {
      return true;
    }
    s.items := Without(s.items, listener);
    return false;
  }
}

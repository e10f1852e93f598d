/**
 * The algorithms of the ScriptableObject explorer window
 * (Editor/ScriptableObjectExplorer/ScriptableObjectExplorerWindow.cs):
 * gathering the project's ScriptableObjects by type under the namespace
 * and name filters, listing the concrete types that can be created, the
 * inheritance tree of the gathered types, turning a chosen folder into a
 * project-relative path, and the guard before creating an asset. The
 * window's drawing is not modelled.
 */
module Explorer {
  import opened Wrappers
  import opened EditorTypes

  // Gathering

  /** The ScriptableObjects gathered, by runtime type, the types in first-seen order (the dictionary's order). */
  datatype Grouped = Grouped(keys: seq<TypeId>, lists: map<TypeId, seq<Asset>>)

  /** Every key once, and the keys are exactly the types that have a list. */
  ghost predicate WellFormed(g: Grouped)
  {
    (forall i, j :: 0 <= i < j < |g.keys| ==> g.keys[i] != g.keys[j])
    && (forall t :: t in g.lists <==> t in g.keys)
  }

  /** StringComparison.OrdinalIgnoreCase on one character, for the ASCII letters. */
  function Upper(c: char): char
  {
    if 'a' <= c <= 'z' then (c as int - 32) as char else c
  }

  /** `s.Contains(term, StringComparison.OrdinalIgnoreCase)`. */
  predicate ContainsIgnoreCase(s: string, term: string)
  {
    exists i :: 0 <= i <= |s| - |term| && MatchesAt(s, term, i)
  }

  /** The term occurs at position i of s, ignoring case. */
  predicate MatchesAt(s: string, term: string, i: nat)
    requires i + |term| <= |s|
  {
    forall k :: 0 <= k < |term| ==> Upper(s[i + k]) == Upper(term[k])
  }

  /**
   * An asset GatherScriptableObjects keeps: its namespace is known to the
   * filters and enabled, and, when a search term is set, its name contains
   * the term whatever the case.
   */
  predicate Admitted(types: TypeTable, filters: map<string, bool>, term: string, a: Asset)
  {
    var ns := NamespaceOf(types, a.typ);
    ns in filters && filters[ns] && (term == "" || ContainsIgnoreCase(a.name, term))
  }

  /** The dictionary GatherScriptableObjects builds from the loaded assets, a missing one being skipped. */
  function Gathered(types: TypeTable, filters: map<string, bool>, term: string, loaded: seq<Option<Asset>>): (g: Grouped)
  {
    if loaded == [] then Grouped([], map[])
    else
      var g := Gathered(types, filters, term, loaded[..|loaded| - 1]);
      var last := loaded[|loaded| - 1];
      if last.None? || !Admitted(types, filters, term, last.value) then g
      else if last.value.typ in g.lists then Grouped(g.keys, g.lists[last.value.typ := g.lists[last.value.typ] + [last.value]])
      else Grouped(g.keys + [last.value.typ], g.lists[last.value.typ := [last.value]])
  }

  /** The admitted assets of one type, in load order. */
  function AdmittedOfType(types: TypeTable, filters: map<string, bool>, term: string, loaded: seq<Option<Asset>>, t: TypeId): seq<Asset>
  {
    if loaded == [] then []
    else
      var last := loaded[|loaded| - 1];
      AdmittedOfType(types, filters, term, loaded[..|loaded| - 1], t)
      + (if last.Some? && Admitted(types, filters, term, last.value) && last.value.typ == t then [last.value] else [])
  }

  /** The gathered dictionary has each type once among its keys, and a list for exactly those types. */
  lemma {:induction false} GatheredWellFormed(types: TypeTable, filters: map<string, bool>, term: string, loaded: seq<Option<Asset>>)
    ensures WellFormed(Gathered(types, filters, term, loaded))
  {
    if loaded != [] {
      GatheredWellFormed(types, filters, term, loaded[..|loaded| - 1]);
    }
  }

  /**
   * The gathered dictionary has a list for exactly the types of admitted
   * assets, and each list holds that type's admitted assets in load order.
   */
  lemma {:induction false} GatheredLists(types: TypeTable, filters: map<string, bool>, term: string, loaded: seq<Option<Asset>>, t: TypeId)
    ensures t in Gathered(types, filters, term, loaded).lists <==> AdmittedOfType(types, filters, term, loaded, t) != []
    ensures t in Gathered(types, filters, term, loaded).lists ==>
              Gathered(types, filters, term, loaded).lists[t] == AdmittedOfType(types, filters, term, loaded, t)
  {
    if loaded != [] {
      GatheredLists(types, filters, term, loaded[..|loaded| - 1], t);
    }
  }

  /** An asset is gathered under its type exactly when it was loaded and is admitted. */
  lemma {:induction false} AdmittedOfTypeExactly(types: TypeTable, filters: map<string, bool>, term: string, loaded: seq<Option<Asset>>, a: Asset)
    ensures a in AdmittedOfType(types, filters, term, loaded, a.typ) <==> Some(a) in loaded && Admitted(types, filters, term, a)
  {
    if loaded != [] {
      var p := loaded[..|loaded| - 1];
      AdmittedOfTypeExactly(types, filters, term, p, a);
      assert loaded == p + [loaded[|loaded| - 1]];
    }
  }

  /** A type is concrete and its namespace known to the filters and enabled. */
  predicate Creatable(types: TypeTable, filters: map<string, bool>, t: TypeId)
  {
    !IsAbstract(types, t) && NamespaceOf(types, t) in filters && filters[NamespaceOf(types, t)]
  }

  /** GetFilteredConcreteTypes: the gathered types that are concrete and in an enabled namespace, in key order. */
  function FilteredConcreteTypes(types: TypeTable, filters: map<string, bool>, keys: seq<TypeId>): (r: seq<TypeId>)
    ensures |r| <= |keys|
    ensures forall t :: t in r <==> t in keys && Creatable(types, filters, t)
  {
    if keys == [] then []
    else (if Creatable(types, filters, keys[0]) then [keys[0]] else []) + FilteredConcreteTypes(types, filters, keys[1..])
  }

  class ExplorerWindow {
    var soDictionary: Grouped
    var namespaceFilters: map<string, bool>
    var instanceSearchTerm: string

    constructor (namespaceFilters: map<string, bool>, instanceSearchTerm: string)
      ensures soDictionary == Grouped([], map[]) && this.namespaceFilters == namespaceFilters
      ensures this.instanceSearchTerm == instanceSearchTerm
    {
      soDictionary := Grouped([], map[]);
      this.namespaceFilters := namespaceFilters;
      this.instanceSearchTerm := instanceSearchTerm;
    }

    /**
     * GatherScriptableObjects: a new dictionary, then each loaded asset
     * that the filters admit appended to its type's list.
     */
    method GatherScriptableObjects(types: TypeTable, loaded: seq<Option<Asset>>)
      modifies this
      ensures soDictionary == Gathered(types, namespaceFilters, instanceSearchTerm, loaded)
      ensures namespaceFilters == old(namespaceFilters) && instanceSearchTerm == old(instanceSearchTerm)
    {
      soDictionary := GatherAll(types, namespaceFilters, instanceSearchTerm, loaded);
    }

    /** GetFilteredConcreteTypes over the gathered types. */
    function GetFilteredConcreteTypes(types: TypeTable): (r: seq<TypeId>)
      reads this
      ensures forall t :: t in r <==> t in soDictionary.keys && Creatable(types, namespaceFilters, t)
    {
      FilteredConcreteTypes(types, namespaceFilters, soDictionary.keys)
    }
  }

  /** The loop of GatherScriptableObjects. */
  method GatherAll(types: TypeTable, filters: map<string, bool>, term: string, loaded: seq<Option<Asset>>) returns (g: Grouped)
    ensures g == Gathered(types, filters, term, loaded)
  {
    g := Grouped([], map[]);
    for i := 0 to |loaded|
      invariant g == Gathered(types, filters, term, loaded[..i])
    {
      assert loaded[..i + 1][..i] == loaded[..i] && loaded[..i + 1][i] == loaded[i];
      var so := loaded[i];
      if so.None? {
        continue;
      }
      var ns := NamespaceOf(types, so.value.typ);
      if ns !in filters || !filters[ns] {
        continue;
      }
      if term != "" && !ContainsIgnoreCase(so.value.name, term) {
        continue;
      }
      var t := so.value.typ;
      if t in g.lists {
        g := g.(lists := g.lists[t := g.lists[t] + [so.value]]);
      } else {
        // a new list for the type, holding this asset
        g := Grouped(g.keys + [t], g.lists[t := [so.value]]);
      }
    }
    assert loaded[..|loaded|] == loaded;
  }

  // The type tree

  /** TypeNode: a type, its gathered objects, and the tree links. */
  class TypeNode {
    const typ: TypeId
    const objects: seq<Asset>
    var parent: TypeNode?
    var children: seq<TypeNode>

    constructor (typ: TypeId, objects: seq<Asset>)
      ensures this.typ == typ && this.objects == objects && parent == null && children == []
    {
      this.typ := typ;
      this.objects := objects;
      parent := null;
      children := [];
    }
  }

  /** The first position of `t` among the keys: the typeNodes lookup. */
  function KeyIndex(keys: seq<TypeId>, t: TypeId): (r: Option<nat>)
    ensures r.Some? ==> r.value < |keys| && keys[r.value] == t
    ensures r.None? <==> t !in keys
  {
    if keys == [] then None
    else if keys[0] == t then Some(0)
    else match KeyIndex(keys[1..], t)
      case None => None
      case Some(i) => Some(i + 1)
  }

  /** Up a BaseType chain until ScriptableObject or its end: the first type that has a node. */
  function ParentIn(keys: seq<TypeId>, chain: seq<TypeId>): (r: Option<nat>)
    ensures r.Some? ==> r.value < |keys|
  {
    if chain == [] || chain[0] == ScriptableObjectType then None
    else if KeyIndex(keys, chain[0]).Some? then KeyIndex(keys, chain[0])
    else ParentIn(keys, chain[1..])
  }

  /** The node a type is linked under: its nearest base type below ScriptableObject that has a node. */
  function ParentOf(types: TypeTable, keys: seq<TypeId>, t: TypeId): (r: Option<nat>)
    ensures r.Some? ==> r.value < |keys|
  {
    ParentIn(keys, Bases(types, t))
  }

  /**
   * ParentOf picks a base type of `t` that has a node, below every
   * ScriptableObject on the chain, and no base type nearer to `t` has a
   * node.
   */
  lemma {:induction false} ParentInNearest(keys: seq<TypeId>, chain: seq<TypeId>)
    ensures ParentIn(keys, chain).Some? ==>
              exists m :: 0 <= m < |chain| && chain[m] == keys[ParentIn(keys, chain).value]
                          && forall l :: 0 <= l < m ==> chain[l] !in keys && chain[l] != ScriptableObjectType
    ensures ParentIn(keys, chain).None? ==>
              forall m :: (0 <= m < |chain| && (forall l :: 0 <= l < m ==> chain[l] != ScriptableObjectType)
                           && chain[m] != ScriptableObjectType) ==> chain[m] !in keys
  {
    if chain != [] && chain[0] != ScriptableObjectType && KeyIndex(keys, chain[0]).None? {
      var t := chain[1..];
      ParentInNearest(keys, t);
      assert forall m :: 0 <= m < |t| ==> t[m] == chain[m + 1];
      if ParentIn(keys, t).Some? {
        var m :| 0 <= m < |t| && t[m] == keys[ParentIn(keys, t).value]
                 && forall l :: 0 <= l < m ==> t[l] !in keys && t[l] != ScriptableObjectType;
        assert chain[m + 1] == t[m];
        assert forall l :: 1 <= l < m + 1 ==> chain[l] == t[l - 1];
      } else {
        forall m | 0 <= m < |chain| && (forall l :: 0 <= l < m ==> chain[l] != ScriptableObjectType)
                   && chain[m] != ScriptableObjectType
          ensures chain[m] !in keys
        {
          if m > 0 {
            assert chain[m] == t[m - 1];
            assert forall l :: 0 <= l < m - 1 ==> t[l] == chain[l + 1];
          }
        }
      }
    }
  }

  /** The node each gathered type is linked under, by position: ParentOf of each key. */
  function Parents(types: TypeTable, keys: seq<TypeId>): (r: seq<Option<nat>>)
    ensures |r| == |keys|
    ensures forall k :: 0 <= k < |keys| ==> r[k] == ParentOf(types, keys, keys[k])
  {
    seq(|keys|, k requires 0 <= k < |keys| => ParentOf(types, keys, keys[k]))
  }

  /** `parents` holds ParentOf of each of the first n keys. */
  ghost predicate ListsParents(types: TypeTable, keys: seq<TypeId>, parents: seq<Option<nat>>, n: nat)
    requires n <= |keys| == |parents|
  {
    n == 0 || (ListsParents(types, keys, parents, n - 1) && parents[n - 1] == ParentOf(types, keys, keys[n - 1]))
  }

  lemma {:induction false} ListsParentsAt(types: TypeTable, keys: seq<TypeId>, parents: seq<Option<nat>>, n: nat, i: nat)
    requires n <= |keys| == |parents| && ListsParents(types, keys, parents, n) && i < n
    ensures parents[i] == ParentOf(types, keys, keys[i])
  {
    if i < n - 1 {
      ListsParentsAt(types, keys, parents, n - 1, i);
    }
  }

  lemma {:induction false} ParentsListed(types: TypeTable, keys: seq<TypeId>, n: nat)
    requires n <= |keys|
    ensures ListsParents(types, keys, Parents(types, keys), n)
  {
    if n > 0 {
      ParentsListed(types, keys, n - 1);
    }
  }

  /** Every parent position names a node. */
  ghost predicate InRange(parents: seq<Option<nat>>)
  {
    forall k :: 0 <= k < |parents| && parents[k].Some? ==> parents[k].value < |parents|
  }

  /** The nodes among the first n whose parent position is `p` (None for the root), in key order. */
  function ChildNodes(nodes: seq<TypeNode>, parents: seq<Option<nat>>, p: Option<nat>, n: nat): seq<TypeNode>
    requires n <= |parents| == |nodes|
  {
    if n == 0 then []
    else ChildNodes(nodes, parents, p, n - 1) + (if parents[n - 1] == p then [nodes[n - 1]] else [])
  }

  /** With no node twice, a node is among ChildNodes exactly when it is among the first n and its parent position is `p`. */
  lemma {:induction false} ChildNodesExactly(nodes: seq<TypeNode>, parents: seq<Option<nat>>, pos: map<TypeNode, nat>, p: Option<nat>, n: nat)
    requires n <= |parents| == |nodes| && Positions(nodes, pos)
    ensures forall i :: 0 <= i < |nodes| ==> (nodes[i] in ChildNodes(nodes, parents, p, n) <==> i < n && parents[i] == p)
  {
    if n > 0 {
      ChildNodesExactly(nodes, parents, pos, p, n - 1);
      forall i | 0 <= i < |nodes| && nodes[i] == nodes[n - 1]
        ensures i == n - 1
      {
        assert pos[nodes[i]] == i && pos[nodes[n - 1]] == n - 1;
      }
    }
  }

  /** The while loop of BuildTypeHierarchy: up the BaseType chain to the first type that has a node. */
  method FindParent(types: TypeTable, keys: seq<TypeId>, t: TypeId) returns (r: Option<nat>)
    ensures r == ParentOf(types, keys, t)
  {
    var chain := Bases(types, t);
    var i := 0;
    while i < |chain| && chain[i] != ScriptableObjectType
      invariant 0 <= i <= |chain|
      invariant ParentIn(keys, chain[i..]) == ParentIn(keys, chain)
    {
      assert chain[i..][1..] == chain[i + 1..];
      var found := KeyIndex(keys, chain[i]);
      if found.Some? {
        return found;
      }
      i := i + 1;
    }
    return None;
  }

  /** No node appears twice. */
  ghost predicate Distinct(nodes: seq<TypeNode>)
  {
    forall a, b :: 0 <= a < |nodes| && 0 <= b < |nodes| && a != b ==> nodes[a] != nodes[b]
  }

  /** `pos` maps each node back to its position, so no node appears twice. */
  ghost predicate Positions(nodes: seq<TypeNode>, pos: map<TypeNode, nat>)
  {
    forall k :: 0 <= k < |nodes| ==> nodes[k] in pos && pos[nodes[k]] == k
  }

  lemma PositionsDistinct(nodes: seq<TypeNode>, pos: map<TypeNode, nat>)
    requires Positions(nodes, pos)
    ensures Distinct(nodes)
  {
  }

  /** One node per key, fresh and unlinked, for the gathered objects of that key. */
  method CreateNodes(g: Grouped) returns (nodes: seq<TypeNode>, ghost pos: map<TypeNode, nat>)
    requires WellFormed(g)
    ensures |nodes| == |g.keys| && Positions(nodes, pos)
    ensures forall k :: 0 <= k < |nodes| ==> fresh(nodes[k])
    ensures forall k :: 0 <= k < |nodes| ==>
              nodes[k].typ == g.keys[k] && nodes[k].objects == g.lists[g.keys[k]] && nodes[k].parent == null && nodes[k].children == []
  {
    nodes := [];
    pos := map[];
    for i := 0 to |g.keys|
      invariant |nodes| == i && Positions(nodes, pos)
      invariant forall k :: 0 <= k < i ==> fresh(nodes[k])
      invariant forall k :: 0 <= k < i ==>
                  nodes[k].typ == g.keys[k] && nodes[k].objects == g.lists[g.keys[k]] && nodes[k].parent == null && nodes[k].children == []
    {
      var node := new TypeNode(g.keys[i], g.lists[g.keys[i]]);
      nodes := nodes + [node];
      pos := pos[node := i];
    }
  }

  /** Every node's children are the nodes among the first n whose parent position is its own. */
  ghost predicate ChildrenLinked(nodes: seq<TypeNode>, parents: seq<Option<nat>>, n: nat)
    requires n <= |parents| == |nodes|
    reads nodes
  {
    forall k {:trigger nodes[k].children} :: 0 <= k < |nodes| ==> nodes[k].children == ChildNodes(nodes, parents, Some(k), n)
  }

  /** The first n nodes have the parent their parent position names, or none; the others have none yet. */
  ghost predicate ParentsLinked(nodes: seq<TypeNode>, parents: seq<Option<nat>>, n: nat)
    requires |parents| == |nodes| && InRange(parents)
    reads nodes
  {
    forall k {:trigger nodes[k].parent} :: 0 <= k < |nodes| ==>
      nodes[k].parent == if k < n && parents[k].Some? then nodes[parents[k].value] else null
  }

  /** Every node with a parent position has that parent; of the others, the first n have the root and the rest none yet. */
  ghost predicate OrphansLinked(nodes: seq<TypeNode>, parents: seq<Option<nat>>, n: nat, root: TypeNode)
    requires |parents| == |nodes| && InRange(parents)
    reads nodes
  {
    forall k {:trigger nodes[k].parent} :: 0 <= k < |nodes| ==>
      nodes[k].parent == if parents[k].Some? then nodes[parents[k].value] else if k < n then root else null
  }

  /** `node.Parent = parentNode` for node i and its parent j. */
  method SetParent(nodes: seq<TypeNode>, ghost parents: seq<Option<nat>>, ghost pos: map<TypeNode, nat>, i: nat, j: nat)
    requires |nodes| == |parents| && Positions(nodes, pos) && InRange(parents)
    requires i < |nodes| && parents[i] == Some(j)
    requires ChildrenLinked(nodes, parents, i) && ParentsLinked(nodes, parents, i)
    modifies nodes[i]
    ensures ChildrenLinked(nodes, parents, i) && ParentsLinked(nodes, parents, i + 1)
  {
    nodes[i].parent := nodes[j];
    forall k | 0 <= k < |nodes|
      ensures nodes[k].parent == if k < i + 1 && parents[k].Some? then nodes[parents[k].value] else null
    {
      if k != i {
        assert pos[nodes[k]] != pos[nodes[i]];
        assert nodes[k].parent == old(nodes[k].parent);
      }
    }
  }

  /** `parentNode.Children.Add(node)` for node i and its parent j. */
  method AddChild(nodes: seq<TypeNode>, ghost parents: seq<Option<nat>>, ghost pos: map<TypeNode, nat>, i: nat, j: nat)
    requires |nodes| == |parents| && Positions(nodes, pos) && InRange(parents)
    requires i < |nodes| && parents[i] == Some(j)
    requires ChildrenLinked(nodes, parents, i) && ParentsLinked(nodes, parents, i + 1)
    modifies nodes[j]
    ensures ChildrenLinked(nodes, parents, i + 1) && ParentsLinked(nodes, parents, i + 1)
  {
    nodes[j].children := nodes[j].children + [nodes[i]];
    forall k | 0 <= k < |nodes|
      ensures nodes[k].children == ChildNodes(nodes, parents, Some(k), i + 1)
    {
      if k == j {
        assert old(nodes[k].children) == ChildNodes(nodes, parents, Some(k), i);
      } else {
        assert pos[nodes[k]] != pos[nodes[j]];
        assert ChildNodes(nodes, parents, Some(k), i + 1) == ChildNodes(nodes, parents, Some(k), i);
        assert nodes[k].children == old(nodes[k].children);
      }
    }
  }

  /** A node with no parent position is left alone by the second loop. */
  lemma SkipUnlinked(nodes: seq<TypeNode>, parents: seq<Option<nat>>, i: nat)
    requires |nodes| == |parents| && InRange(parents)
    requires i < |nodes| && parents[i].None?
    requires ChildrenLinked(nodes, parents, i) && ParentsLinked(nodes, parents, i)
    ensures ChildrenLinked(nodes, parents, i + 1) && ParentsLinked(nodes, parents, i + 1)
  {
    forall k | 0 <= k < |nodes|
      ensures nodes[k].children == ChildNodes(nodes, parents, Some(k), i + 1)
    {
      assert ChildNodes(nodes, parents, Some(k), i + 1) == ChildNodes(nodes, parents, Some(k), i);
    }
  }

  /**
   * The second loop of BuildTypeHierarchy: each node, in key order, linked
   * under the node of its nearest base type that has one, set as its
   * Parent and appended to that node's Children.
   */
  method LinkParents(types: TypeTable, keys: seq<TypeId>, nodes: seq<TypeNode>, ghost parents: seq<Option<nat>>, ghost pos: map<TypeNode, nat>)
    requires |nodes| == |keys| == |parents| && InRange(parents) && ListsParents(types, keys, parents, |keys|) && Positions(nodes, pos)
    requires forall k {:trigger nodes[k].parent} :: 0 <= k < |nodes| ==> nodes[k].parent == null
    requires forall k {:trigger nodes[k].children} :: 0 <= k < |nodes| ==> nodes[k].children == []
    modifies nodes
    ensures ChildrenLinked(nodes, parents, |nodes|) && ParentsLinked(nodes, parents, |nodes|)
  {
    var n := |nodes|;
    for i := 0 to n
      invariant ChildrenLinked(nodes, parents, i) && ParentsLinked(nodes, parents, i)
    {
      var p := FindParent(types, keys, keys[i]);
      ListsParentsAt(types, keys, parents, |keys|, i);
      if p.Some? {
        SetParent(nodes, parents, pos, i, p.value);
        AddChild(nodes, parents, pos, i, p.value);
      } else {
        SkipUnlinked(nodes, parents, i);
      }
    }
  }

  /** `node.Parent = rootNode; rootNode.Children.Add(node)` for node i, which has no parent. */
  method Adopt(nodes: seq<TypeNode>, ghost parents: seq<Option<nat>>, ghost pos: map<TypeNode, nat>, root: TypeNode, i: nat)
    requires |nodes| == |parents| && Positions(nodes, pos) && InRange(parents) && root !in nodes
    requires i < |nodes| && parents[i].None?
    requires ChildrenLinked(nodes, parents, |nodes|) && OrphansLinked(nodes, parents, i, root)
    requires root.children == ChildNodes(nodes, parents, None, i)
    modifies nodes[i], root
    ensures ChildrenLinked(nodes, parents, |nodes|) && OrphansLinked(nodes, parents, i + 1, root)
    ensures root.children == ChildNodes(nodes, parents, None, i + 1) && root.parent == old(root.parent)
  {
    nodes[i].parent := root;
    root.children := root.children + [nodes[i]];
    forall k | 0 <= k < |nodes|
      ensures nodes[k].parent == if parents[k].Some? then nodes[parents[k].value] else if k < i + 1 then root else null
    {
      if k != i {
        assert pos[nodes[k]] != pos[nodes[i]];
        assert nodes[k].parent == old(nodes[k].parent);
      }
    }
    forall k | 0 <= k < |nodes|
      ensures nodes[k].children == ChildNodes(nodes, parents, Some(k), |nodes|)
    {
      assert nodes[k].children == old(nodes[k].children);
    }
  }

  /** A node that already has a parent is left alone by the third loop. */
  lemma SkipLinked(nodes: seq<TypeNode>, parents: seq<Option<nat>>, root: TypeNode, i: nat)
    requires |nodes| == |parents| && InRange(parents)
    requires i < |nodes| && parents[i].Some?
    requires OrphansLinked(nodes, parents, i, root) && root.children == ChildNodes(nodes, parents, None, i)
    ensures OrphansLinked(nodes, parents, i + 1, root) && root.children == ChildNodes(nodes, parents, None, i + 1)
  {
  }

  /**
   * The third loop of BuildTypeHierarchy: each node still without a
   * parent, in key order, linked under the root.
   */
  method LinkOrphans(nodes: seq<TypeNode>, ghost parents: seq<Option<nat>>, ghost pos: map<TypeNode, nat>, root: TypeNode)
    requires |parents| == |nodes| && InRange(parents) && Positions(nodes, pos) && root !in nodes && root.children == []
    requires ChildrenLinked(nodes, parents, |nodes|) && ParentsLinked(nodes, parents, |nodes|)
    modifies nodes, root
    ensures ChildrenLinked(nodes, parents, |nodes|) && OrphansLinked(nodes, parents, |nodes|, root)
    ensures root.children == ChildNodes(nodes, parents, None, |nodes|) && root.parent == old(root.parent)
  {
    var n := |nodes|;
    for i := 0 to n
      invariant ChildrenLinked(nodes, parents, |nodes|) && OrphansLinked(nodes, parents, i, root)
      invariant root.children == ChildNodes(nodes, parents, None, i) && root.parent == old(root.parent)
    {
      if nodes[i].parent == null {
        Adopt(nodes, parents, pos, root, i);
      } else {
        SkipLinked(nodes, parents, root, i);
      }
    }
  }

  /**
   * BuildTypeHierarchy: one node per gathered type, each linked under the
   * node of its nearest base type below ScriptableObject that has a node,
   * or else under a new ScriptableObject root, and listed among that
   * node's children in key order. `nodes` are the nodes of the gathered
   * types, in key order.
   */
  method BuildTypeHierarchy(types: TypeTable, g: Grouped) returns (root: TypeNode, ghost nodes: seq<TypeNode>)
    requires WellFormed(g)
    ensures fresh(root) && root.typ == ScriptableObjectType && root.objects == [] && root.parent == null && root !in nodes
    ensures |nodes| == |g.keys| && Distinct(nodes) && InRange(Parents(types, g.keys))
    ensures forall k :: 0 <= k < |nodes| ==> fresh(nodes[k]) && nodes[k].typ == g.keys[k] && nodes[k].objects == g.lists[g.keys[k]]
    ensures OrphansLinked(nodes, Parents(types, g.keys), |nodes|, root)
    ensures ChildrenLinked(nodes, Parents(types, g.keys), |nodes|)
    ensures root.children == ChildNodes(nodes, Parents(types, g.keys), None, |nodes|)
  {
    ghost var pos;
    var typeNodes;
    typeNodes, pos := CreateNodes(g);
    PositionsDistinct(typeNodes, pos);
    ParentsListed(types, g.keys, |g.keys|);
    LinkParents(types, g.keys, typeNodes, Parents(types, g.keys), pos);
    root := new TypeNode(ScriptableObjectType, []);
    LinkOrphans(typeNodes, Parents(types, g.keys), pos, root);
    nodes := typeNodes;
  }

  /**
   * The tree is consistent: a node is among another's children exactly
   * when that other is its parent, and among the root's exactly when the
   * root is its parent.
   */
  lemma LinksConsistent(nodes: seq<TypeNode>, parents: seq<Option<nat>>, root: TypeNode)
    requires |parents| == |nodes| && InRange(parents) && root !in nodes && Distinct(nodes)
    requires OrphansLinked(nodes, parents, |nodes|, root) && ChildrenLinked(nodes, parents, |nodes|)
    requires root.children == ChildNodes(nodes, parents, None, |nodes|)
    ensures forall i, j :: 0 <= i < |nodes| && 0 <= j < |nodes| ==> (nodes[i] in nodes[j].children <==> nodes[i].parent == nodes[j])
    ensures forall i :: 0 <= i < |nodes| ==> (nodes[i] in root.children <==> nodes[i].parent == root)
  {
    var pos := map k | 0 <= k < |nodes| :: nodes[k] := k;
    assert Positions(nodes, pos) by {
      forall k | 0 <= k < |nodes|
        ensures nodes[k] in pos && pos[nodes[k]] == k
      {
        var m :| 0 <= m < |nodes| && nodes[m] == nodes[k] && pos[nodes[k]] == m;
      }
    }
    forall i, j | 0 <= i < |nodes| && 0 <= j < |nodes|
      ensures nodes[i] in nodes[j].children <==> nodes[i].parent == nodes[j]
    {
      ChildNodesExactly(nodes, parents, pos, Some(j), |nodes|);
      assert nodes[j].children == ChildNodes(nodes, parents, Some(j), |nodes|);
      assert nodes[i].parent == nodes[j] <==> parents[i] == Some(j) by {
        if parents[i].Some? {
          assert nodes[i].parent == nodes[parents[i].value];
        } else {
          assert nodes[i].parent == root;
        }
      }
    }
    forall i | 0 <= i < |nodes|
      ensures nodes[i] in root.children <==> nodes[i].parent == root
    {
      ChildNodesExactly(nodes, parents, pos, None, |nodes|);
      if parents[i].Some? {
        assert nodes[i].parent == nodes[parents[i].value];
      }
    }
  }

  // Paths

  /** `Replace("\\", "/")`. */
  function ForwardSlashes(s: string): (r: string)
    ensures |r| == |s| && '\\' !in r
    ensures forall k :: 0 <= k < |s| && s[k] != '\\' ==> r[k] == s[k]
  {
    seq(|s|, k requires 0 <= k < |s| => if s[k] == '\\' then '/' else s[k])
  }

  /**
   * GetRelativeFolderPath as written, given the folder the panel returned
   * (empty when cancelled) and Application.dataPath: both paths with
   * forward slashes, "" unless the folder path starts with the data path,
   * and otherwise "Assets" followed by the rest of the folder path.
   */
  function RelativeFolderPath(selected: string, dataPath: string): (r: string)
  {
    if selected == "" then ""
    else
      var absolute := ForwardSlashes(selected);
      var assets := ForwardSlashes(dataPath);
      if !(|assets| <= |absolute| && absolute[..|assets|] == assets) then ""
      else "Assets" + absolute[|assets|..]
  }

  /** A folder inside the data path comes back as "Assets" followed by its path below the data path. */
  lemma RelativeFolderPathInside(dataPath: string, rest: string)
    requires '\\' !in dataPath && '\\' !in rest && dataPath + rest != ""
    ensures RelativeFolderPath(dataPath + rest, dataPath) == "Assets" + rest
  {
    assert ForwardSlashes(dataPath) == dataPath;
    assert ForwardSlashes(dataPath + rest) == dataPath + rest;
    assert (dataPath + rest)[..|dataPath|] == dataPath;
    assert (dataPath + rest)[|dataPath|..] == rest;
  }

  /**
   * The StartsWith test lets through a sibling folder whose name extends
   * the data folder's: "/p/AssetsX" against the data path "/p/Assets" gives
   * "AssetsX", a folder outside Assets.
   */
  lemma SiblingFolderAccepted()
    ensures RelativeFolderPath("/p/AssetsX", "/p/Assets") == "AssetsX"
  {
    var absolute := ForwardSlashes("/p/AssetsX");
    var assets := ForwardSlashes("/p/Assets");
    assert absolute == "/p/AssetsX" && assets == "/p/Assets";
    assert absolute[..|assets|] == assets;
    assert absolute[|assets|..] == "X";
  }

  /**
   * GetRelativeFolderPath as evidently intended: the folder must be the
   * data folder itself or lie below it, so the rest is empty or begins
   * with a slash.
   */
  function RelativeFolderPathChecked(selected: string, dataPath: string): (r: string)
  {
    if selected == "" then ""
    else
      var absolute := ForwardSlashes(selected);
      var assets := ForwardSlashes(dataPath);
      if !(|assets| <= |absolute| && absolute[..|assets|] == assets) then ""
      else
        var rest := absolute[|assets|..];
        if rest != [] && rest[0] != '/' then "" else "Assets" + rest
  }

  /** The corrected path is empty, or the Assets folder itself, or a path below it. */
  lemma RelativeFolderPathCheckedInside(selected: string, dataPath: string)
    ensures var r := RelativeFolderPathChecked(selected, dataPath);
            r == "" || r == "Assets" || (|r| >= 7 && r[..7] == "Assets/")
  {
    var r := RelativeFolderPathChecked(selected, dataPath);
    if r != "" && r != "Assets" {
      var absolute := ForwardSlashes(selected);
      var assets := ForwardSlashes(dataPath);
      var rest := absolute[|assets|..];
      assert r == "Assets" + rest && rest != [] && rest[0] == '/';
      assert r[..7] == "Assets" + [rest[0]];
    }
  }

  /** The corrected path rejects the sibling folder and still accepts folders inside. */
  lemma RelativeFolderPathCheckedAgrees(dataPath: string, rest: string)
    requires '\\' !in dataPath && '\\' !in rest && dataPath + rest != ""
    requires rest == "" || rest[0] == '/'
    ensures RelativeFolderPathChecked(dataPath + rest, dataPath) == RelativeFolderPath(dataPath + rest, dataPath) == "Assets" + rest
    ensures RelativeFolderPathChecked("/p/AssetsX", "/p/Assets") == ""
  {
    RelativeFolderPathInside(dataPath, rest);
    assert ForwardSlashes(dataPath) == dataPath;
    assert ForwardSlashes(dataPath + rest) == dataPath + rest;
    assert (dataPath + rest)[..|dataPath|] == dataPath;
    assert (dataPath + rest)[|dataPath|..] == rest;
    assert ForwardSlashes("/p/AssetsX") == "/p/AssetsX";
    assert ForwardSlashes("/p/Assets") == "/p/Assets";
    assert "/p/AssetsX"[..9] == "/p/Assets";
    assert "/p/AssetsX"[9..] == "X";
  }

  // Creating an asset

  /** Char.IsWhiteSpace: the Unicode space separators, the line and paragraph separators, and the control characters 9 to 13, 0x85 and 0xA0. */
  predicate IsWhiteSpace(c: char)
  {
    var n := c as int;
    n == 0x20 || 0x09 <= n <= 0x0D || n == 0x85 || n == 0xA0 || n == 0x1680 || 0x2000 <= n <= 0x200A
    || n == 0x2028 || n == 0x2029 || n == 0x202F || n == 0x205F || n == 0x3000
  }

  /** string.IsNullOrWhiteSpace of a string that is present. */
  predicate IsBlank(s: string)
  {
    forall k :: 0 <= k < |s| ==> IsWhiteSpace(s[k])
  }

  /**
   * The guard of CreateScriptableObject: a blank path or name refuses;
   * otherwise the asset is requested at "<path>/<name>.asset".
   */
  function CreateAssetPath(path: string, name: string): (r: Option<string>)
    ensures r.None? <==> IsBlank(path) || IsBlank(name)
    ensures r.Some? ==> |r.value| == |path| + |name| + 7 && r.value[..|path|] == path
                        && r.value[|path|] == '/' && r.value[|path| + 1..|path| + 1 + |name|] == name
                        && r.value[|path| + 1 + |name|..] == ".asset"
  {
    if IsBlank(path) || IsBlank(name) then None else Some(path + "/" + name + ".asset")
  }
}

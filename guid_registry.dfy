/**
 * The shape shared by the two GUID registries (ScriptableObjectManager.cs and
 * MonoBehaviouRegistry.cs): a dictionary from runtime type to a dictionary
 * from GUID to object.
 *
 * A Dictionary that is only ever added to enumerates in insertion order, so
 * both levels are kept as sequences in that order: a lookup that returns "the
 * first match" of a foreach over the registry is then a definite value.
 */
module GuidRegistry {
  import opened Wrappers

  type TypeId = nat
  type ObjId = nat
  type Guid = string

  /** The subtype relation: `ancestors[t]` holds every proper base type and interface of `t`. */
  datatype Types = Types(ancestors: map<TypeId, set<TypeId>>)
  {
    /** `to`.IsAssignableFrom(`from`). */
    predicate Assignable(to: TypeId, from: TypeId)
    {
      from == to || (from in ancestors && to in ancestors[from])
    }
  }

  /**
   * An object the engine hands to a registry scan: its identity, runtime
   * type, whether it is an IGuidAsset and an ISaveable, and its GUID field
   * at scan time ("" for a null or empty GUID).
   */
  datatype Found = Found(id: ObjId, typ: TypeId, guidAsset: bool, saveable: bool, guid: Guid)

  datatype Entry = Entry(guid: Guid, obj: Found)

  /** The objects of one runtime type, by GUID. */
  datatype Bucket = Bucket(typ: TypeId, entries: seq<Entry>)

  predicate HasGuid(b: Bucket, g: Guid)
  {
    exists e :: e in b.entries && e.guid == g
  }

  /** TryGetValue on one bucket. */
  function Get(b: Bucket, g: Guid): (r: Option<Found>)
    ensures r.Some? <==> HasGuid(b, g)
    ensures r.Some? ==> Entry(g, r.value) in b.entries
    decreases |b.entries|
  {
    if b.entries == [] then None
    else if b.entries[0].guid == g then Some(b.entries[0].obj)
    else Get(Bucket(b.typ, b.entries[1..]), g)
  }

  /**
   * The registry invariant: one bucket per type, each non-empty, one entry
   * per GUID in a bucket, and every entry an IGuidAsset of the bucket's type.
   */
  predicate Valid(bs: seq<Bucket>)
  {
    && (forall i, j :: 0 <= i < j < |bs| ==> bs[i].typ != bs[j].typ)
    && (forall i :: 0 <= i < |bs| ==> bs[i].entries != [])
    && (forall i, k, l :: 0 <= i < |bs| && 0 <= k < l < |bs[i].entries| ==> bs[i].entries[k].guid != bs[i].entries[l].guid)
    && (forall i, e :: 0 <= i < |bs| && e in bs[i].entries ==> e.obj.typ == bs[i].typ && e.obj.guidAsset)
  }

  /** registry[typ][g], or None when either key is missing. */
  function At(bs: seq<Bucket>, typ: TypeId, g: Guid): (r: Option<Found>)
    ensures r.Some? ==> exists i :: 0 <= i < |bs| && bs[i].typ == typ && Entry(g, r.value) in bs[i].entries
  {
    if bs == [] then None
    else if bs[0].typ == typ then Get(bs[0], g)
    else At(bs[1..], typ, g)
  }

  /** The GUID an object holds after "assign a GUID if empty", `drawn` being the fresh one. */
  function GuidAfterScan(obj: Found, drawn: map<ObjId, Guid>): Guid
    requires obj.guid == "" ==> obj.id in drawn
  {
    if obj.guid == "" then drawn[obj.id] else obj.guid
  }

  /** The oracle draws a non-empty GUID for every scanned IGuidAsset whose GUID is empty. */
  predicate DrawsFor(scan: seq<Found>, drawn: map<ObjId, Guid>)
  {
    forall o :: o in scan && o.guidAsset && o.guid == "" ==> o.id in drawn && drawn[o.id] != ""
  }

  /**
   * One step of a registry scan: a non-IGuidAsset is ignored; otherwise its
   * type gets a bucket if it has none, and it is added under its GUID unless
   * that GUID is already taken in the bucket (the duplicate is dropped).
   */
  function Register(bs: seq<Bucket>, obj: Found, g: Guid): seq<Bucket>
  {
    if !obj.guidAsset then bs
    else if bs == [] then [Bucket(obj.typ, [Entry(g, obj)])]
    else if bs[0].typ == obj.typ then
      if HasGuid(bs[0], g) then bs else [Bucket(bs[0].typ, bs[0].entries + [Entry(g, obj)])] + bs[1..]
    else [bs[0]] + Register(bs[1..], obj, g)
  }

  /** A whole scan, in the order the engine returned the objects. */
  function RegisterAll(bs: seq<Bucket>, scan: seq<Found>, drawn: map<ObjId, Guid>): seq<Bucket>
    requires DrawsFor(scan, drawn)
  {
    if scan == [] then bs
    else
      var last := scan[|scan| - 1];
      var g := if last.guidAsset then GuidAfterScan(last, drawn) else "";
      Register(RegisterAll(bs, scan[..|scan| - 1], drawn), last, g)
  }

  /** The first IGuidAsset of the scan with this type and (assigned) GUID. */
  function FirstScanned(scan: seq<Found>, drawn: map<ObjId, Guid>, typ: TypeId, g: Guid): (r: Option<Found>)
    requires DrawsFor(scan, drawn)
  {
    if scan == [] then None
    else if scan[0].guidAsset && scan[0].typ == typ && GuidAfterScan(scan[0], drawn) == g then Some(scan[0])
    else FirstScanned(scan[1..], drawn, typ, g)
  }

  /** The GUIDs a scan's AssignGuid calls write: one per IGuidAsset whose GUID was empty. */
  function Assigned(scan: seq<Found>, drawn: map<ObjId, Guid>): (r: map<ObjId, Guid>)
    requires DrawsFor(scan, drawn)
    ensures forall id :: id in r <==> exists o :: o in scan && o.guidAsset && o.guid == "" && o.id == id
    ensures forall id :: id in r ==> r[id] == drawn[id] && r[id] != ""
  {
    if scan == [] then map[]
    else
      var last := scan[|scan| - 1];
      var r := Assigned(scan[..|scan| - 1], drawn);
      assert scan == scan[..|scan| - 1] + [last];
      if last.guidAsset && last.guid == "" then r[last.id := drawn[last.id]] else r
  }

  /** The oracle's promise covers every prefix of the scan. */
  lemma DrawsForPrefix(scan: seq<Found>, drawn: map<ObjId, Guid>, n: nat)
    requires DrawsFor(scan, drawn) && n <= |scan|
    ensures DrawsFor(scan[..n], drawn)
  {
    assert forall o :: o in scan[..n] ==> o in scan;
  }

  // ---------------------------------------------------------------------
  // Lookups
  // ---------------------------------------------------------------------

  /**
   * GetAssetByGuid<T> / GetMonoByGuid<T>: the entry with this GUID in the
   * first bucket, in enumeration order, whose type is assignable to T; None
   * when no such bucket holds the GUID.
   */
  function FindTyped(bs: seq<Bucket>, types: Types, t: TypeId, g: Guid): (r: Option<Found>)
    ensures r.None? <==> forall i :: 0 <= i < |bs| && types.Assignable(t, bs[i].typ) ==> !HasGuid(bs[i], g)
    ensures r.Some? ==>
              exists i :: && 0 <= i < |bs| && types.Assignable(t, bs[i].typ) && Get(bs[i], g) == r
                          && forall j :: 0 <= j < i && types.Assignable(t, bs[j].typ) ==> !HasGuid(bs[j], g)
  {
    if bs == [] then None
    else if types.Assignable(t, bs[0].typ) && HasGuid(bs[0], g) then Get(bs[0], g)
    else
      var r := FindTyped(bs[1..], types, t, g);
      if r.Some? then
        var i :| && 0 <= i < |bs[1..]| && types.Assignable(t, bs[1..][i].typ) && Get(bs[1..][i], g) == r
                 && forall j :: 0 <= j < i && types.Assignable(t, bs[1..][j].typ) ==> !HasGuid(bs[1..][j], g);
        assert Get(bs[i + 1], g) == r;
        r
      else r
  }

  /** GetAssetByGuid(string) / GetMonoByGuid(string): the first bucket of any type holding the GUID. */
  function FindAny(bs: seq<Bucket>, g: Guid): (r: Option<Found>)
    ensures r.None? <==> forall i :: 0 <= i < |bs| ==> !HasGuid(bs[i], g)
    ensures r.Some? ==>
              exists i :: 0 <= i < |bs| && Get(bs[i], g) == r && forall j :: 0 <= j < i ==> !HasGuid(bs[j], g)
  {
    if bs == [] then None
    else if HasGuid(bs[0], g) then Get(bs[0], g)
    else
      var r := FindAny(bs[1..], g);
      if r.Some? then
        var i :| 0 <= i < |bs[1..]| && Get(bs[1..][i], g) == r && forall j :: 0 <= j < i ==> !HasGuid(bs[1..][j], g);
        assert Get(bs[i + 1], g) == r;
        r
      else r
  }

  function Objects(entries: seq<Entry>): (r: seq<Found>)
    ensures |r| == |entries|
    ensures forall k :: 0 <= k < |entries| ==> r[k] == entries[k].obj
  {
    if entries == [] then [] else [entries[0].obj] + Objects(entries[1..])
  }

  /** All: every registered object, bucket by bucket. */
  function AllObjects(bs: seq<Bucket>): (r: seq<Found>)
    ensures forall o :: o in r <==> exists i, e :: 0 <= i < |bs| && e in bs[i].entries && e.obj == o
  {
    if bs == [] then []
    else
      var r := Objects(bs[0].entries) + AllObjects(bs[1..]);
      assert forall o :: o in Objects(bs[0].entries) <==> exists e :: e in bs[0].entries && e.obj == o by {
        forall o | o in Objects(bs[0].entries)
          ensures exists e :: e in bs[0].entries && e.obj == o
        {
          var k :| 0 <= k < |bs[0].entries| && Objects(bs[0].entries)[k] == o;
          assert bs[0].entries[k] in bs[0].entries;
        }
      }
      assert forall i :: 1 <= i < |bs| ==> bs[i] == bs[1..][i - 1];
      r
  }

  /** GetAssetsByType<T> / GetMonosByType<T>: the objects of every bucket whose type is assignable to T. */
  function OfType(bs: seq<Bucket>, types: Types, t: TypeId): (r: seq<Found>)
    ensures forall o :: o in r <==>
              exists i, e :: 0 <= i < |bs| && types.Assignable(t, bs[i].typ) && e in bs[i].entries && e.obj == o
  {
    if bs == [] then []
    else
      var rest := OfType(bs[1..], types, t);
      assert forall i :: 1 <= i < |bs| ==> bs[i] == bs[1..][i - 1];
      if types.Assignable(t, bs[0].typ) then
        assert forall o :: o in Objects(bs[0].entries) <==> exists e :: e in bs[0].entries && e.obj == o by {
          forall o | o in Objects(bs[0].entries)
            ensures exists e :: e in bs[0].entries && e.obj == o
          {
            var k :| 0 <= k < |bs[0].entries| && Objects(bs[0].entries)[k] == o;
            assert bs[0].entries[k] in bs[0].entries;
          }
        }
        Objects(bs[0].entries) + rest
      else rest
  }

  /**
   * The head of OfType is the first entry of the first non-empty bucket
   * whose type is assignable to T.
   */
  lemma {:induction false} OfTypeHead(bs: seq<Bucket>, types: Types, t: TypeId)
    requires OfType(bs, types, t) != []
    ensures exists i :: 0 <= i < |bs| && types.Assignable(t, bs[i].typ) && bs[i].entries != []
                        && OfType(bs, types, t)[0] == bs[i].entries[0].obj
                        && forall j :: 0 <= j < i && types.Assignable(t, bs[j].typ) ==> bs[j].entries == []
  {
    assert forall i :: 1 <= i < |bs| ==> bs[i] == bs[1..][i - 1];
    if types.Assignable(t, bs[0].typ) && bs[0].entries != [] {
      assert OfType(bs, types, t)[0] == Objects(bs[0].entries)[0];
    } else {
      assert OfType(bs, types, t) == OfType(bs[1..], types, t) by {
        if types.Assignable(t, bs[0].typ) {
          assert Objects(bs[0].entries) == [];
        }
      }
      OfTypeHead(bs[1..], types, t);
      var i :| 0 <= i < |bs[1..]| && types.Assignable(t, bs[1..][i].typ) && bs[1..][i].entries != []
               && OfType(bs[1..], types, t)[0] == bs[1..][i].entries[0].obj
               && forall j :: 0 <= j < i && types.Assignable(t, bs[1..][j].typ) ==> bs[1..][j].entries == [];
      assert bs[i + 1] == bs[1..][i];
    }
  }

  /** FindFirstObjectByType<T>: the first object of the first bucket whose type is assignable to T. */
  function FirstOfAssignable(bs: seq<Bucket>, types: Types, t: TypeId): (r: Option<Found>)
    ensures r.None? <==> OfType(bs, types, t) == []
    ensures r.Some? ==> r.value == OfType(bs, types, t)[0]
    ensures r.Some? ==>
              exists i :: 0 <= i < |bs| && types.Assignable(t, bs[i].typ) && bs[i].entries != []
                          && r.value == bs[i].entries[0].obj
                          && forall j :: 0 <= j < i && types.Assignable(t, bs[j].typ) ==> bs[j].entries == []
  {
    var all := OfType(bs, types, t);
    if all == [] then None else OfTypeHead(bs, types, t); Some(all[0])
  }

  /** The bucket whose type is exactly `t`, if any. */
  function BucketOf(bs: seq<Bucket>, t: TypeId): (r: Option<Bucket>)
    ensures r.Some? <==> exists i :: 0 <= i < |bs| && bs[i].typ == t
    ensures r.Some? ==> r.value in bs && r.value.typ == t
  {
    if bs == [] then None
    else if bs[0].typ == t then Some(bs[0])
    else
      var r := BucketOf(bs[1..], t);
      assert forall i :: 1 <= i < |bs| ==> bs[i] == bs[1..][i - 1];
      r
  }

  // ---------------------------------------------------------------------
  // What a scan leaves in the registry
  // ---------------------------------------------------------------------

  lemma {:induction false} GetAppend(b: Bucket, e: Entry, g: Guid)
    ensures Get(Bucket(b.typ, b.entries + [e]), g) == if HasGuid(b, g) then Get(b, g) else if e.guid == g then Some(e.obj) else None
    decreases |b.entries|
  {
    if b.entries == [] {
      assert Bucket(b.typ, b.entries + [e]).entries == [e];
    } else {
      assert (b.entries + [e])[1..] == b.entries[1..] + [e];
      GetAppend(Bucket(b.typ, b.entries[1..]), e, g);
    }
  }

  /** A registry without its first bucket is still a registry. */
  lemma ValidTail(bs: seq<Bucket>)
    requires Valid(bs) && bs != []
    ensures Valid(bs[1..])
  {
    forall i | 0 <= i < |bs| - 1 ensures bs[1..][i] == bs[i + 1] { }
  }

  /** A non-empty bucket of one type with distinct GUIDs, put in front of a registry without that type. */
  lemma ValidCons(b: Bucket, rest: seq<Bucket>)
    requires Valid(rest)
    requires b.entries != []
    requires forall k, l :: 0 <= k < l < |b.entries| ==> b.entries[k].guid != b.entries[l].guid
    requires forall e :: e in b.entries ==> e.obj.typ == b.typ && e.obj.guidAsset
    requires forall j :: 0 <= j < |rest| ==> rest[j].typ != b.typ
    ensures Valid([b] + rest)
  {
    var r := [b] + rest;
    forall i | 0 < i < |r| ensures r[i] == rest[i - 1] { }
  }

  /** Register keeps the registry invariant. */
  lemma {:induction false} RegisterValid(bs: seq<Bucket>, obj: Found, g: Guid)
    requires Valid(bs)
    ensures Valid(Register(bs, obj, g))
  {
    if !obj.guidAsset || bs == [] {
    } else if bs[0].typ == obj.typ {
      if !HasGuid(bs[0], g) {
        ValidTail(bs);
        var b := Bucket(bs[0].typ, bs[0].entries + [Entry(g, obj)]);
        forall k, l | 0 <= k < l < |b.entries| ensures b.entries[k].guid != b.entries[l].guid {
          assert b.entries[k] == bs[0].entries[k];
          if l == |bs[0].entries| {
            assert b.entries[k] in bs[0].entries;
          } else {
            assert b.entries[l] == bs[0].entries[l];
          }
        }
        forall j | 0 <= j < |bs[1..]| ensures bs[1..][j].typ != b.typ {
          assert bs[1..][j] == bs[j + 1];
        }
        ValidCons(b, bs[1..]);
        assert Register(bs, obj, g) == [b] + bs[1..];
      }
    } else {
      ValidTail(bs);
      RegisterValid(bs[1..], obj, g);
      RegisterTypes(bs[1..], obj, g);
      var rest := Register(bs[1..], obj, g);
      forall j | 0 <= j < |rest| ensures rest[j].typ != bs[0].typ {
        assert rest[j] in rest;
        if rest[j].typ != obj.typ {
          var i :| 0 <= i < |bs[1..]| && bs[1..][i].typ == rest[j].typ;
          assert bs[1..][i] == bs[i + 1];
        }
      }
      ValidCons(bs[0], rest);
    }
  }

  /** Register adds a bucket only for the registered object's type. */
  lemma {:induction false} RegisterTypes(bs: seq<Bucket>, obj: Found, g: Guid)
    ensures forall b :: b in Register(bs, obj, g) ==> b.typ == obj.typ || exists i :: 0 <= i < |bs| && bs[i].typ == b.typ
  {
    if obj.guidAsset && bs != [] && bs[0].typ != obj.typ {
      RegisterTypes(bs[1..], obj, g);
    }
  }

  /**
   * First wins: registering an IGuidAsset under GUID `g` fills registry[type][g]
   * only when that slot was empty; every other slot is unchanged.
   */
  lemma {:induction false} RegisterAt(bs: seq<Bucket>, obj: Found, g: Guid, typ: TypeId, h: Guid)
    ensures At(Register(bs, obj, g), typ, h)
            == if obj.guidAsset && obj.typ == typ && g == h && At(bs, typ, h).None? then Some(obj) else At(bs, typ, h)
  {
    if !obj.guidAsset {
    } else if bs == [] {
    } else if bs[0].typ == obj.typ {
      if !HasGuid(bs[0], g) {
        GetAppend(bs[0], Entry(g, obj), h);
      }
    } else {
      RegisterAt(bs[1..], obj, g, typ, h);
    }
  }

  lemma {:induction false} FirstScannedSnoc(scan: seq<Found>, drawn: map<ObjId, Guid>, typ: TypeId, g: Guid)
    requires DrawsFor(scan, drawn) && scan != []
    ensures var last := scan[|scan| - 1];
            FirstScanned(scan, drawn, typ, g)
            == if FirstScanned(scan[..|scan| - 1], drawn, typ, g).Some? then FirstScanned(scan[..|scan| - 1], drawn, typ, g)
               else if last.guidAsset && last.typ == typ && GuidAfterScan(last, drawn) == g then Some(last)
               else None
  {
    if |scan| > 1 {
      assert scan[1..][..|scan[1..]| - 1] == scan[..|scan| - 1][1..];
      FirstScannedSnoc(scan[1..], drawn, typ, g);
    }
  }

  /**
   * A scan keeps every earlier registration and, for each type and GUID not
   * yet registered, registers the first scanned IGuidAsset of that type that
   * ends up with that GUID; later duplicates are dropped.
   */
  lemma {:induction false} RegisterAllAt(bs: seq<Bucket>, scan: seq<Found>, drawn: map<ObjId, Guid>, typ: TypeId, g: Guid)
    requires DrawsFor(scan, drawn)
    ensures At(RegisterAll(bs, scan, drawn), typ, g)
            == if At(bs, typ, g).Some? then At(bs, typ, g) else FirstScanned(scan, drawn, typ, g)
  {
    if scan != [] {
      var init := scan[..|scan| - 1];
      var last := scan[|scan| - 1];
      RegisterAllAt(bs, init, drawn, typ, g);
      var gl := if last.guidAsset then GuidAfterScan(last, drawn) else "";
      RegisterAt(RegisterAll(bs, init, drawn), last, gl, typ, g);
      FirstScannedSnoc(scan, drawn, typ, g);
    }
  }

  /** A scan keeps the registry invariant. */
  lemma {:induction false} RegisterAllValid(bs: seq<Bucket>, scan: seq<Found>, drawn: map<ObjId, Guid>)
    requires Valid(bs) && DrawsFor(scan, drawn)
    ensures Valid(RegisterAll(bs, scan, drawn))
  {
    if scan != [] {
      var last := scan[|scan| - 1];
      RegisterAllValid(bs, scan[..|scan| - 1], drawn);
      RegisterValid(RegisterAll(bs, scan[..|scan| - 1], drawn), last, if last.guidAsset then GuidAfterScan(last, drawn) else "");
    }
  }

  /** Every scanned IGuidAsset's type and GUID is registered afterwards (by it or by an earlier object). */
  lemma ScannedIsRegistered(bs: seq<Bucket>, scan: seq<Found>, drawn: map<ObjId, Guid>, o: Found)
    requires DrawsFor(scan, drawn) && o in scan && o.guidAsset
    ensures At(RegisterAll(bs, scan, drawn), o.typ, GuidAfterScan(o, drawn)).Some?
  {
    RegisterAllAt(bs, scan, drawn, o.typ, GuidAfterScan(o, drawn));
    FirstScannedFinds(scan, drawn, o);
  }

  lemma {:induction false} FirstScannedFinds(scan: seq<Found>, drawn: map<ObjId, Guid>, o: Found)
    requires DrawsFor(scan, drawn) && o in scan && o.guidAsset
    ensures FirstScanned(scan, drawn, o.typ, GuidAfterScan(o, drawn)).Some?
  {
    if scan[0] != o {
      FirstScannedFinds(scan[1..], drawn, o);
    }
  }
}

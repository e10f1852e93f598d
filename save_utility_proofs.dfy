/**
 * Properties of the save/restore engine: what extraction selects, what
 * application writes and leaves alone, the round trip of simple [Save] fields,
 * and the shallow, dropping and overwriting behaviours of the nested branches.
 */
module SaveUtilityProofs {
  import opened Wrappers
  import opened SaveUtility

  /** GetFields never returns two fields with the same name. */
  predicate UniqueNames(fields: seq<FieldDecl>)
  {
    forall i, j :: 0 <= i < j < |fields| ==> fields[i].name != fields[j].name
  }

  /** field.GetValue(source) for a source whose field map is `fs`. */
  function Get(fs: map<string, Val>, name: string): Val
  {
    if name in fs then fs[name] else Null
  }

  // ---------------------------------------------------------------------------
  // Extraction
  // ---------------------------------------------------------------------------

  /** ExtractTop keeps what is already in `acc` unless a visible field of that name follows. */
  lemma {:induction false} ExtractTopKeeps(tt: Table, fields: seq<FieldDecl>, fs: map<string, Val>,
                                           acc: map<string, Node>, k: string)
    requires forall f :: f in fields && TopVisible(tt, f) ==> f.name != k
    ensures (k in ExtractTop(tt, fields, fs, acc)) == (k in acc)
    ensures k in acc ==> ExtractTop(tt, fields, fs, acc)[k] == acc[k]
    decreases |fields|
  {
    if fields != [] {
      var f := fields[0];
      if !TopVisible(tt, f) {
        ExtractTopKeeps(tt, fields[1..], fs, acc, k);
      } else {
        var v := if f.name in fs then fs[f.name] else Null;
        ExtractTopKeeps(tt, fields[1..], fs, acc[f.name := ExtractNested(tt, v)], k);
      }
    }
  }

  /** The keys of ExtractTop are those of `acc` plus the names of the visible fields. */
  lemma {:induction false} ExtractTopKeys(tt: Table, fields: seq<FieldDecl>, fs: map<string, Val>,
                                          acc: map<string, Node>, k: string)
    ensures k in ExtractTop(tt, fields, fs, acc) <==>
            k in acc || exists f :: f in fields && TopVisible(tt, f) && f.name == k
    decreases |fields|
  {
    if fields != [] {
      var f := fields[0];
      var acc' := if TopVisible(tt, f) then acc[f.name := ExtractNested(tt, Get(fs, f.name))] else acc;
      ExtractTopKeys(tt, fields[1..], fs, acc', k);
      assert forall g :: g in fields <==> g == f || g in fields[1..];
    }
  }

  /** A visible field's entry is the nested extraction of its value. */
  lemma {:induction false} ExtractTopValue(tt: Table, fields: seq<FieldDecl>, fs: map<string, Val>,
                                           acc: map<string, Node>, f: FieldDecl)
    requires UniqueNames(fields) && f in fields && TopVisible(tt, f)
    ensures f.name in ExtractTop(tt, fields, fs, acc)
    ensures ExtractTop(tt, fields, fs, acc)[f.name] == ExtractNested(tt, Get(fs, f.name))
    decreases |fields|
  {
    var g := fields[0];
    var acc' := if TopVisible(tt, g) then acc[g.name := ExtractNested(tt, Get(fs, g.name))] else acc;
    if g == f {
      forall h | h in fields[1..] && TopVisible(tt, h) ensures h.name != f.name {
        var j :| 0 <= j < |fields[1..]| && fields[1..][j] == h;
        assert fields[j + 1] == h;
      }
      ExtractTopKeeps(tt, fields[1..], fs, acc', f.name);
    } else {
      ExtractTopValue(tt, fields[1..], fs, acc', f);
    }
  }

  /**
   * ExtractSaveData has exactly one entry per [Save] field that is not
   * delegate-typed, keyed by the field's name and holding the nested
   * extraction of its value.
   */
  lemma ExtractSaveDataSelects(tt: Table, t: TypeId, fs: map<string, Val>)
    requires UniqueNames(FieldsOf(tt, t))
    ensures forall k :: k in ExtractSaveData(tt, t, fs) <==>
              exists f :: f in FieldsOf(tt, t) && f.save && !IsDelegate(tt, f.declared) && f.name == k
    ensures forall f :: f in FieldsOf(tt, t) && f.save && !IsDelegate(tt, f.declared) ==>
              ExtractSaveData(tt, t, fs)[f.name] == ExtractNested(tt, Get(fs, f.name))
  {
    forall k ensures k in ExtractSaveData(tt, t, fs) <==>
                     exists f :: f in FieldsOf(tt, t) && TopVisible(tt, f) && f.name == k {
      ExtractTopKeys(tt, FieldsOf(tt, t), fs, map[], k);
    }
    forall f | f in FieldsOf(tt, t) && TopVisible(tt, f)
      ensures ExtractSaveData(tt, t, fs)[f.name] == ExtractNested(tt, Get(fs, f.name)) {
      ExtractTopValue(tt, FieldsOf(tt, t), fs, map[], f);
    }
  }

  /** The keys of ExtractFields are those of `acc` plus the names of the nested-visible fields. */
  lemma {:induction false} ExtractFieldsKeys(tt: Table, parent: Val, fields: seq<FieldDecl>,
                                             acc: map<string, Node>, k: string)
    requires parent.Obj?
    ensures k in ExtractFields(tt, parent, fields, acc) <==>
            k in acc || exists f :: f in fields && NestedVisible(tt, f) && f.name == k
    decreases |fields|
  {
    if fields != [] {
      var f := fields[0];
      var n := if f.name in parent.fields then ExtractNested(tt, parent.fields[f.name]) else NNull;
      var acc' := if NestedVisible(tt, f) then acc[f.name := n] else acc;
      ExtractFieldsKeys(tt, parent, fields[1..], acc', k);
      assert forall g :: g in fields <==> g == f || g in fields[1..];
    }
  }

  /** ExtractFields keeps an entry of `acc` that no following nested-visible field overwrites. */
  lemma {:induction false} ExtractFieldsKeeps(tt: Table, parent: Val, fields: seq<FieldDecl>,
                                              acc: map<string, Node>, k: string)
    requires parent.Obj? && k in acc
    requires forall f :: f in fields && NestedVisible(tt, f) ==> f.name != k
    ensures k in ExtractFields(tt, parent, fields, acc)
    ensures ExtractFields(tt, parent, fields, acc)[k] == acc[k]
    decreases |fields|
  {
    if fields != [] {
      var f := fields[0];
      var n := if f.name in parent.fields then ExtractNested(tt, parent.fields[f.name]) else NNull;
      ExtractFieldsKeeps(tt, parent, fields[1..], if NestedVisible(tt, f) then acc[f.name := n] else acc, k);
    }
  }

  /**
   * What ExtractNestedValue makes of each kind of value: null stays null,
   * a stored value comes back unchanged, a list gives a list of the same
   * length and order, a dictionary one with the same keys, and a plain object
   * a map holding "$type" and exactly its fields that are neither [DontSave]
   * nor delegate-typed (a block-list, unlike the top level's allow-list).
   */
  lemma ExtractNestedShape(tt: Table, v: Val)
    ensures v.Null? ==> ExtractNested(tt, v) == NNull
    ensures v.Leaf? ==> ExtractNested(tt, v) == NLeaf(v.t, v.p)
    ensures v.ListV? ==>
      && ExtractNested(tt, v).NList?
      && |ExtractNested(tt, v).items| == |v.items|
      && forall i :: 0 <= i < |v.items| ==> ExtractNested(tt, v).items[i] == ExtractNested(tt, v.items[i])
    ensures v.DictV? ==>
      && ExtractNested(tt, v).NDict?
      && ExtractNested(tt, v).entries.Keys == v.entries.Keys
      && forall k :: k in v.entries ==> ExtractNested(tt, v).entries[k] == ExtractNested(tt, v.entries[k])
    ensures v.Obj? ==>
      && ExtractNested(tt, v).NMap?
      && forall k :: k in ExtractNested(tt, v).fields <==>
           k == TypeTag || exists f :: f in FieldsOf(tt, v.t) && NestedVisible(tt, f) && f.name == k
    ensures v.Obj? && (forall f :: f in FieldsOf(tt, v.t) && NestedVisible(tt, f) ==> f.name != TypeTag) ==>
              ExtractNested(tt, v).fields[TypeTag] == NLeaf(tt.stringType, PStr(TypeName(tt, v.t)))
  {
    if v.Obj? {
      var acc := map[TypeTag := NLeaf(tt.stringType, PStr(TypeName(tt, v.t)))];
      forall k ensures k in ExtractNested(tt, v).fields <==>
                       k == TypeTag || exists f :: f in FieldsOf(tt, v.t) && NestedVisible(tt, f) && f.name == k {
        ExtractFieldsKeys(tt, v, FieldsOf(tt, v.t), acc, k);
      }
      if forall f :: f in FieldsOf(tt, v.t) && NestedVisible(tt, f) ==> f.name != TypeTag {
        ExtractFieldsKeeps(tt, v, FieldsOf(tt, v.t), acc, TypeTag);
      }
    }
  }

  // ---------------------------------------------------------------------------
  // Top-level application
  // ---------------------------------------------------------------------------

  /** The top-level field loop touches only visible fields whose name is in the data. */
  lemma {:induction false} ApplyTopFrame(tt: Table, fs: map<string, Val>, fields: seq<FieldDecl>,
                                         data: map<string, Node>, k: string)
    requires forall f :: f in fields && TopVisible(tt, f) && f.name in data ==> f.name != k
    ensures (k in ApplyTop(tt, fs, fields, data).fields) == (k in fs)
    ensures k in fs ==> ApplyTop(tt, fs, fields, data).fields[k] == fs[k]
    decreases |fields|
  {
    if fields != [] {
      var step := ApplyTopField(tt, fs, fields[0], data);
      assert (k in step.fields) == (k in fs) && (k in fs ==> step.fields[k] == fs[k]);
      if !step.threw {
        ApplyTopFrame(tt, step.fields, fields[1..], data, k);
      }
    }
  }

  /**
   * ApplySaveData writes only [Save], non-delegate fields whose name is in the
   * saved data; every other field keeps its value (and stays absent if absent).
   */
  lemma ApplySaveDataFrame(tt: Table, t: TypeId, fs: map<string, Val>, data: map<string, Node>, k: string)
    requires !exists f :: f in FieldsOf(tt, t) && f.save && !IsDelegate(tt, f.declared) && f.name in data && f.name == k
    ensures (k in ApplyTop(tt, fs, FieldsOf(tt, t), data).fields) == (k in fs)
    ensures k in fs ==> ApplyTop(tt, fs, FieldsOf(tt, t), data).fields[k] == fs[k]
  {
    ApplyTopFrame(tt, fs, FieldsOf(tt, t), data, k);
  }

  /** Storing the extraction of a value gives the value back whenever the store succeeds. */
  lemma StoreExtracted(tt: Table, v: Val, to: TypeId)
    requires Store(tt, ExtractNested(tt, v), to).Some?
    ensures Store(tt, ExtractNested(tt, v), to).value == v
  {
  }

  lemma {:induction false} ApplyTopRestoresSimple(tt: Table, fs: map<string, Val>, fields: seq<FieldDecl>,
                                                  data: map<string, Node>, source: map<string, Val>)
    requires UniqueNames(fields)
    requires forall f :: f in fields && TopVisible(tt, f) ==>
               f.name in data && data[f.name] == ExtractNested(tt, Get(source, f.name))
    ensures !ApplyTop(tt, fs, fields, data).threw ==>
              forall f :: f in fields && TopVisible(tt, f) && IsSimple(tt, f.declared) ==>
                f.name in ApplyTop(tt, fs, fields, data).fields
                && ApplyTop(tt, fs, fields, data).fields[f.name] == Get(source, f.name)
    decreases |fields|
  {
    if fields != [] {
      var g := fields[0];
      var step := ApplyTopField(tt, fs, g, data);
      if !step.threw {
        var r := ApplyTop(tt, step.fields, fields[1..], data);
        assert UniqueNames(fields[1..]);
        ApplyTopRestoresSimple(tt, step.fields, fields[1..], data, source);
        if TopVisible(tt, g) && IsSimple(tt, g.declared) {
          StoreExtracted(tt, Get(source, g.name), g.declared);
          forall h | h in fields[1..] && TopVisible(tt, h) && h.name in data ensures h.name != g.name {
            var j :| 0 <= j < |fields[1..]| && fields[1..][j] == h;
            assert fields[j + 1] == h;
          }
          ApplyTopFrame(tt, step.fields, fields[1..], data, g.name);
        }
        assert forall f :: f in fields <==> f == g || f in fields[1..];
      }
    }
  }

  /**
   * The round trip of ApplySaveData after ExtractSaveData on the same type:
   * unless an exception escaped, every simple-typed [Save] field of the target
   * holds exactly the source's value.
   */
  lemma SaveThenApplyRestoresSimpleFields(tt: Table, t: TypeId, target: map<string, Val>, source: map<string, Val>)
    requires UniqueNames(FieldsOf(tt, t))
    ensures var r := ApplyTop(tt, target, FieldsOf(tt, t), ExtractSaveData(tt, t, source));
            !r.threw ==>
              forall f :: f in FieldsOf(tt, t) && f.save && !IsDelegate(tt, f.declared) && IsSimple(tt, f.declared) ==>
                f.name in r.fields && r.fields[f.name] == Get(source, f.name)
  {
    ExtractSaveDataSelects(tt, t, source);
    ApplyTopRestoresSimple(tt, target, FieldsOf(tt, t), ExtractSaveData(tt, t, source), source);
  }

  /** A stored value fits a declared simple type: null, or a leaf of an assignable type. */
  predicate Fits(tt: Table, v: Val, to: TypeId)
  {
    v.Null? || (v.Leaf? && Assignable(tt, v.t, to))
  }

  lemma {:induction false} ApplyTopSimpleNoThrow(tt: Table, fs: map<string, Val>, fields: seq<FieldDecl>,
                                                 data: map<string, Node>, source: map<string, Val>)
    requires forall f :: f in fields && TopVisible(tt, f) ==>
               IsSimple(tt, f.declared) && Fits(tt, Get(source, f.name), f.declared)
               && f.name in data && data[f.name] == ExtractNested(tt, Get(source, f.name))
    ensures !ApplyTop(tt, fs, fields, data).threw
    decreases |fields|
  {
    if fields != [] {
      var step := ApplyTopField(tt, fs, fields[0], data);
      assert !step.threw;
      ApplyTopSimpleNoThrow(tt, step.fields, fields[1..], data, source);
    }
  }

  /**
   * When every [Save] field is simple-typed and holds a value of its declared
   * type, restoring a snapshot of the same type never throws, so all of them
   * are restored exactly.
   */
  lemma SimpleSnapshotRestores(tt: Table, t: TypeId, target: map<string, Val>, source: map<string, Val>)
    requires UniqueNames(FieldsOf(tt, t))
    requires forall f :: f in FieldsOf(tt, t) && TopVisible(tt, f) ==>
               IsSimple(tt, f.declared) && Fits(tt, Get(source, f.name), f.declared)
    ensures var r := ApplyTop(tt, target, FieldsOf(tt, t), ExtractSaveData(tt, t, source));
            !r.threw &&
            forall f :: f in FieldsOf(tt, t) && TopVisible(tt, f) ==>
              f.name in r.fields && r.fields[f.name] == Get(source, f.name)
  {
    ExtractSaveDataSelects(tt, t, source);
    ApplyTopSimpleNoThrow(tt, target, FieldsOf(tt, t), ExtractSaveData(tt, t, source), source);
    SaveThenApplyRestoresSimpleFields(tt, t, target, source);
  }

  /**
   * At the top level a null complex field whose saved value is null stays
   * null: no instance is created.
   */
  lemma TopLevelNullStaysNull(tt: Table, fs: map<string, Val>, f: FieldDecl, data: map<string, Node>)
    requires TopVisible(tt, f) && !IsSimple(tt, f.declared)
    requires f.name in data && data[f.name] == NNull && Get(fs, f.name) == Null
    ensures ApplyTopField(tt, fs, f, data) == TopApplied(fs, false)
  {
  }
}

/**
 * The message-carrying event and action assets: EventSO<T> (EventSO.cs) and
 * ActionSO<T> (ActionSO.cs), with the base lists of BaseEventSO and
 * BaseActionSO.
 *
 * Both keep a base subscriber list, which nothing in them fills, and a
 * list of message subscribers. Raising walks the message list from the
 * last entry to the first; unsubscribing nulls entries and then compacts.
 * The two differ in the base RemoveNullSubscribers (the event one throws on
 * a null entry) and in Raise() (the action one raises a second time). The
 * responses invoked are kept as a call log; `failing` names the responses
 * that throw when invoked.
 */
module EventChannels {
  import opened Wrappers
  import opened Subscribers

  datatype Family = EventFamily | ActionFamily

  /** The base RemoveNullSubscribers of each family. */
  function BaseSweep(s: seq<Subscriber?>, family: Family): Swept
    reads s
  {
    if family.EventFamily? then EventBaseSweep(s) else Swept(Live(s), false)
  }

  /** The base sweep of either family returns entries of its input. */
  lemma BaseSweepWithin(s: seq<Subscriber?>, family: Family)
    ensures forall k :: 0 <= k < |BaseSweep(s, family).list| ==> BaseSweep(s, family).list[k] in s
  {
    if family.EventFamily? {
      EventSweepWithin(s);
    } else {
      LiveKeepsAlive(s);
    }
  }

  lemma {:induction false} EventSweepWithin(s: seq<Subscriber?>)
    ensures forall k :: 0 <= k < |EventBaseSweep(s).list| ==> EventBaseSweep(s).list[k] in s
  {
    if s != [] && s[|s| - 1] != null {
      EventSweepWithin(s[..|s| - 1]);
      assert forall k :: 0 <= k < |s| - 1 ==> s[..|s| - 1][k] == s[k];
    }
  }

  /** A list of live entries is its own filter. */
  lemma {:induction false} LiveOfLive(s: seq<Subscriber?>)
    requires forall k :: 0 <= k < |s| ==> Alive(s[k])
    ensures Live(s) == s
  {
    if s != [] {
      var p := s[..|s| - 1];
      assert forall k :: 0 <= k < |p| ==> p[k] == s[k];
      LiveOfLive(p);
      assert s == p + [s[|s| - 1]];
    }
  }

  /** Both base sweeps leave a list they keep as it is. */
  lemma LiveStable(s: seq<Subscriber?>)
    ensures Live(Live(s)) == Live(s)
    ensures EventBaseSweep(Live(s)) == Swept(Live(s), false)
  {
    var l := Live(s);
    LiveKeepsAlive(s);
    LiveOfLive(l);
    EventBaseSweepIsLive(l);
  }

  /** The sweep the derived RemoveNullSubscribers runs: the base list, then the message list. */
  datatype Lists = Lists(base: seq<Subscriber?>, messages: seq<Subscriber?>, threw: bool)

  function RemoveNulls(base: seq<Subscriber?>, messages: seq<Subscriber?>, family: Family): Lists
    reads base
  {
    var b := BaseSweep(base, family);
    if b.threw then Lists(b.list, messages, true) else Lists(b.list, SweepForward(messages), false)
  }

  method RemoveNullsBoth(base: seq<Subscriber?>, messages: seq<Subscriber?>, family: Family) returns (r: Lists)
    ensures r == RemoveNulls(base, messages, family)
  {
    var b: seq<Subscriber?>;
    var threw := false;
    if family.EventFamily? {
      b, threw := EventBaseRemove(base);
    } else {
      b := ActionBaseRemove(base);
    }
    if threw {
      return Lists(b, messages, true);
    }
    var m := RemoveNullsForward(messages);
    return Lists(b, m, false);
  }

  // ---------------------------------------------------------------------
  // Unsubscribe: null the matching entries
  // ---------------------------------------------------------------------

  /**
   * Whether an unsubscribe loop clears `x`: the same origin, and for
   * Unsubscribe (a `name`) an origin whose object name is that name.
   */
  predicate Hit(x: Subscriber, origin: Option<UnityObject>, name: Option<string>)
    reads x
  {
    x.origin == origin && (name.None? || (origin.Some? && origin.value.name == name.value))
  }

  /**
   * The backward loop that nulls every hit. A null entry throws on reading
   * its origin; so does a match on a null origin when its name is read.
   */
  function MarkBack(s: seq<Subscriber?>, origin: Option<UnityObject>, name: Option<string>): Swept
    reads s
  {
    if s == [] then Swept([], false)
    else
      var x := s[|s| - 1];
      if x == null || (name.Some? && origin.None? && x.origin.None?) then Swept(s, true)
      else
        var rest := MarkBack(s[..|s| - 1], origin, name);
        Swept(rest.list + [if Hit(x, origin, name) then null else x], rest.threw)
  }

  /**
   * On a list with no null entry, and unless Unsubscribe is asked for a
   * null origin that some entry has, marking does not throw and nulls
   * exactly the hits, in place.
   */
  lemma {:induction false} MarkBackNullsHits(s: seq<Subscriber?>, origin: Option<UnityObject>, name: Option<string>)
    requires null !in s
    requires name.Some? && origin.None? ==> forall k :: 0 <= k < |s| ==> s[k].origin.Some?
    ensures var r := MarkBack(s, origin, name);
            && !r.threw && |r.list| == |s|
            && forall k :: 0 <= k < |s| ==> r.list[k] == if Hit(s[k], origin, name) then null else s[k]
  {
    if s != [] {
      var p := s[..|s| - 1];
      assert forall k :: 0 <= k < |p| ==> p[k] == s[k];
      MarkBackNullsHits(p, origin, name);
    }
  }

  /**
   * As written, Unsubscribe(origin, methodName) compares the origin's object
   * name with the method name, not the subscriber's own method name. A
   * subscriber added by Subscribe(o, m, _), with an object whose name is not
   * m, is therefore left alone by Unsubscribe(o, m) and survives the sweep.
   */
  lemma UnsubscribeMissesSubscriber(s: seq<Subscriber?>, o: UnityObject, m: string)
    requires null !in s && s != []
    requires s[|s| - 1].origin == Some(o) && s[|s| - 1].methodName == Some(m) && o.name != m
    ensures var r := MarkBack(s, Some(o), Some(m));
            && !r.threw && |r.list| == |s| && r.list[|s| - 1] == s[|s| - 1]
            && s[|s| - 1] in SweepForward(r.list)
  {
    MarkBackNullsHits(s, Some(o), Some(m));
    var r := MarkBack(s, Some(o), Some(m));
    assert r.list[|s| - 1] in r.list;
    SweepForwardKeeps(r.list);
  }

  /** The match Unsubscribe evidently intends: the subscriber's own origin and method name. */
  predicate MethodHit(x: Subscriber, origin: Option<UnityObject>, name: string)
    reads x
  {
    x.origin == origin && x.methodName == Some(name)
  }

  /**
   * The corrected backward marking loop: an entry is nulled when its origin
   * and its method name are the ones asked for. Only a null entry throws,
   * since no origin's name is read.
   */
  function MarkBackByMethod(s: seq<Subscriber?>, origin: Option<UnityObject>, name: string): Swept
    reads s
  {
    if s == [] then Swept([], false)
    else
      var x := s[|s| - 1];
      if x == null then Swept(s, true)
      else
        var rest := MarkBackByMethod(s[..|s| - 1], origin, name);
        Swept(rest.list + [if MethodHit(x, origin, name) then null else x], rest.threw)
  }

  /** Corrected: on a list with no null entry, exactly the entries of that origin and method name are nulled, in place. */
  lemma {:induction false} MarkBackByMethodNullsHits(s: seq<Subscriber?>, origin: Option<UnityObject>, name: string)
    requires null !in s
    ensures var r := MarkBackByMethod(s, origin, name);
            && !r.threw && |r.list| == |s|
            && forall k :: 0 <= k < |s| ==> r.list[k] == if MethodHit(s[k], origin, name) then null else s[k]
  {
    if s != [] {
      var p := s[..|s| - 1];
      assert forall k :: 0 <= k < |p| ==> p[k] == s[k];
      MarkBackByMethodNullsHits(p, origin, name);
    }
  }

  /** Corrected: the subscriber Subscribe(o, m, _) added last is nulled by Unsubscribe(o, m), whatever the object's name. */
  lemma UnsubscribeByMethodHitsSubscriber(s: seq<Subscriber?>, o: UnityObject, m: string)
    requires null !in s && s != []
    requires s[|s| - 1].origin == Some(o) && s[|s| - 1].methodName == Some(m)
    ensures var r := MarkBackByMethod(s, Some(o), m);
            !r.threw && |r.list| == |s| && r.list[|s| - 1] == null
  {
    MarkBackByMethodNullsHits(s, Some(o), m);
  }

  method MarkLoop(s: seq<Subscriber?>, origin: Option<UnityObject>, name: Option<string>) returns (r: seq<Subscriber?>, threw: bool)
    ensures Swept(r, threw) == MarkBack(s, origin, name)
  {
    // The list is rest + done and the loop index is |rest| - 1.
    var done := [];
    var rest := s;
    while rest != []
      invariant MarkBack(s, origin, name) == (var b := MarkBack(rest, origin, name); Swept(b.list + done, b.threw))
    {
      var x := rest[|rest| - 1];
      if x == null || (name.Some? && origin.None? && x.origin.None?) {
        return rest + done, true;
      }
      done := [if x.origin == origin && (name.None? || (origin.Some? && origin.value.name == name.value)) then null else x] + done;
      rest := rest[..|rest| - 1];
    }
    return done, false;
  }

  // ---------------------------------------------------------------------
  // UnsubscribeAll: null one entry, then compact, at every index
  // ---------------------------------------------------------------------

  /**
   * The UnsubscribeAll loop of both families from index `i` down: it reads
   * the entry at `i` (throwing if the index is past the end or the entry is
   * null), nulls it when its origin matches, and calls RemoveNullSubscribers
   * before moving to the next index.
   */
  function UnsubscribeAllFrom(base: seq<Subscriber?>, messages: seq<Subscriber?>, i: int, origin: Option<UnityObject>,
                              family: Family, objs: set<Subscriber>): Lists
    requires forall k :: 0 <= k < |base| && base[k] != null ==> base[k] in objs
    requires forall k :: 0 <= k < |messages| && messages[k] != null ==> messages[k] in objs
    reads objs
    decreases i + 1
  {
    if i < 0 then Lists(base, messages, false)
    else if i >= |messages| || messages[i] == null then Lists(base, messages, true)
    else
      var marked := if messages[i].origin == origin then messages[i := null] else messages;
      BaseSweepWithin(base, family);
      var r := RemoveNulls(base, marked, family);
      if r.threw then r
      else
        SweepForwardWithin(marked);
        UnsubscribeAllFrom(r.base, r.messages, i - 1, origin, family, objs)
  }

  lemma {:induction false} SweepForwardWithin(s: seq<Subscriber?>)
    ensures forall k :: 0 <= k < |SweepForward(s)| ==> SweepForward(s)[k] in s
  {
    if s != [] {
      if s[0] != null {
        SweepForwardWithin(s[1..]);
      } else if |s| > 1 {
        SweepForwardWithin(s[2..]);
      }
    }
  }

  /** The entries whose origin is not `origin`, in order. */
  function Without(s: seq<Subscriber?>, origin: Option<UnityObject>): (r: seq<Subscriber?>)
    reads s
  {
    if s == [] then []
    else Without(s[..|s| - 1], origin) + (if s[|s| - 1] != null && s[|s| - 1].origin == origin then [] else [s[|s| - 1]])
  }

  /** Without keeps a null-free list null-free. */
  lemma {:induction false} WithoutNullFree(s: seq<Subscriber?>, origin: Option<UnityObject>)
    requires null !in s
    ensures null !in Without(s, origin)
  {
    if s != [] {
      WithoutNullFree(s[..|s| - 1], origin);
    }
  }

  /** A forward sweep over a list with one null removes just that null. */
  lemma {:induction false} SweepOneNull(a: seq<Subscriber?>, b: seq<Subscriber?>)
    requires null !in a && null !in b
    ensures SweepForward(a + [null] + b) == a + b
  {
    if a == [] {
      assert a + [null] + b == [null] + b;
      if b != [] {
        assert ([null] + b)[1] == b[0];
        assert ([null] + b)[2..] == b[1..];
        SweepNullFree(b[1..]);
        assert [b[0]] + b[1..] == b;
      }
    } else {
      var s := a + [null] + b;
      assert s[0] == a[0];
      assert s[1..] == a[1..] + [null] + b;
      SweepOneNull(a[1..], b);
      assert [a[0]] + (a[1..] + b) == a + b;
    }
  }

  lemma {:induction false} SweepNullFree(s: seq<Subscriber?>)
    requires null !in s
    ensures SweepForward(s) == s
  {
    if s != [] {
      SweepNullFree(s[1..]);
    }
  }

  /**
   * One iteration of UnsubscribeAll at the last unprocessed entry `x` of
   * null-free lists: `x` goes when its origin matches, and the base list
   * is swept.
   */
  lemma UnsubscribeAllUnfold(base: seq<Subscriber?>, pre: seq<Subscriber?>, x: Subscriber, q: seq<Subscriber?>,
                             origin: Option<UnityObject>, family: Family, objs: set<Subscriber>)
    requires null !in pre && null !in q
    requires !BaseSweep(base, family).threw
    requires forall k :: 0 <= k < |base| && base[k] != null ==> base[k] in objs
    requires forall k :: 0 <= k < |pre + [x] + q| && (pre + [x] + q)[k] != null ==> (pre + [x] + q)[k] in objs
    ensures var b := BaseSweep(base, family).list;
            forall k :: 0 <= k < |b| && b[k] != null ==> b[k] in objs
    ensures var nextQ := if x.origin == origin then q else [x] + q;
            forall k :: 0 <= k < |pre + nextQ| && (pre + nextQ)[k] != null ==> (pre + nextQ)[k] in objs
    ensures UnsubscribeAllFrom(base, pre + [x] + q, |pre|, origin, family, objs)
            == UnsubscribeAllFrom(BaseSweep(base, family).list, pre + (if x.origin == origin then q else [x] + q), |pre| - 1,
                                  origin, family, objs)
  {
    var s := pre + [x] + q;
    assert s[|pre|] == x;
    BaseSweepWithin(base, family);
    if x.origin == origin {
      assert s[|pre| := null] == pre + [null] + q;
      SweepOneNull(pre, q);
      assert forall k :: 0 <= k < |pre + q| ==> (pre + q)[k] in s;
    } else {
      assert pre + ([x] + q) == s;
      SweepNullFree(s);
    }
  }

  /**
   * UnsubscribeAll, from index |p| - 1 of p + q with q already processed:
   * on null-free lists and a base list its sweep keeps as it is, the loop
   * finishes and leaves exactly the entries of p with another origin,
   * followed by q.
   */
  lemma {:induction false} UnsubscribeAllStep(base: seq<Subscriber?>, p: seq<Subscriber?>, q: seq<Subscriber?>,
                                               origin: Option<UnityObject>, family: Family, objs: set<Subscriber>)
    requires null !in p && null !in q
    requires BaseSweep(base, family) == Swept(base, false)
    requires forall k :: 0 <= k < |base| && base[k] != null ==> base[k] in objs
    requires forall k :: 0 <= k < |p + q| && (p + q)[k] != null ==> (p + q)[k] in objs
    ensures UnsubscribeAllFrom(base, p + q, |p| - 1, origin, family, objs) == Lists(base, Without(p, origin) + q, false)
    decreases |p|
  {
    if p == [] {
      assert p + q == q;
    } else {
      var pre := p[..|p| - 1];
      var x := p[|p| - 1];
      assert p == pre + [x];
      assert p + q == pre + [x] + q;
      UnsubscribeAllUnfold(base, pre, x, q, origin, family, objs);
      var nextQ := if x.origin == origin then q else [x] + q;
      UnsubscribeAllStep(base, pre, nextQ, origin, family, objs);
      var kept: seq<Subscriber?> := if x.origin == origin then [] else [x];
      var w := Without(pre, origin);
      assert Without(p, origin) == w + kept;
      assert kept + q == nextQ;
      AppendAssoc(w, kept, q);
      assert BaseSweep(base, family).list == base;
    }
  }

  /**
   * UnsubscribeAll on a null-free message list: when the base sweep does
   * not throw, every entry with that origin is removed, the others are kept
   * in order, and the base list is swept.
   */
  lemma UnsubscribeAllRemovesOrigin(base: seq<Subscriber?>, messages: seq<Subscriber?>, origin: Option<UnityObject>,
                                    family: Family, objs: set<Subscriber>)
    requires null !in messages && messages != []
    requires !BaseSweep(base, family).threw
    requires forall k :: 0 <= k < |base| && base[k] != null ==> base[k] in objs
    requires forall k :: 0 <= k < |messages| ==> messages[k] in objs
    ensures UnsubscribeAllFrom(base, messages, |messages| - 1, origin, family, objs)
            == Lists(Live(base), Without(messages, origin), false)
  {
    var pre := messages[..|messages| - 1];
    var x := messages[|messages| - 1];
    assert messages == pre + [x] + [];
    if family.EventFamily? {
      EventBaseSweepIsLive(base);
    }
    LiveStable(base);
    assert BaseSweep(base, family).list == Live(base);
    assert BaseSweep(Live(base), family) == Swept(Live(base), false);
    UnsubscribeAllUnfold(base, pre, x, [], origin, family, objs);
    var nextQ := if x.origin == origin then [] else [x];
    assert [x] + [] == [x];
    UnsubscribeAllStep(Live(base), pre, nextQ, origin, family, objs);
    assert Without(messages, origin) == Without(pre, origin) + nextQ;
  }

  /** One step of UnsubscribeAllFrom: mark the entry, sweep both lists, then go on below it unless the sweep threw. */
  lemma UnsubscribeAllFromNext(base: seq<Subscriber?>, messages: seq<Subscriber?>, i: int, origin: Option<UnityObject>,
                               family: Family, objs: set<Subscriber>)
    requires forall k :: 0 <= k < |base| && base[k] != null ==> base[k] in objs
    requires forall k :: 0 <= k < |messages| && messages[k] != null ==> messages[k] in objs
    requires 0 <= i < |messages| && messages[i] != null
    ensures var marked := if messages[i].origin == origin then messages[i := null] else messages;
            var r := RemoveNulls(base, marked, family);
            && (forall k :: 0 <= k < |r.base| && r.base[k] != null ==> r.base[k] in objs)
            && (!r.threw ==> forall k :: 0 <= k < |r.messages| && r.messages[k] != null ==> r.messages[k] in objs)
            && UnsubscribeAllFrom(base, messages, i, origin, family, objs)
               == if r.threw then r else UnsubscribeAllFrom(r.base, r.messages, i - 1, origin, family, objs)
  {
    var marked := if messages[i].origin == origin then messages[i := null] else messages;
    BaseSweepWithin(base, family);
    SweepForwardWithin(marked);
  }

  /**
   * One pass of the UnsubscribeAll loop at index `i`: a null or missing entry
   * ends the loop with an exception, a matching entry is nulled, and both
   * lists are swept; `more` says whether the loop goes on below `i`.
   */
  method UnsubscribeAllPass(base: seq<Subscriber?>, messages: seq<Subscriber?>, i: int, origin: Option<UnityObject>,
                            family: Family, ghost objs: set<Subscriber>) returns (r: Lists, more: bool)
    requires forall k :: 0 <= k < |base| && base[k] != null ==> base[k] in objs
    requires forall k :: 0 <= k < |messages| && messages[k] != null ==> messages[k] in objs
    requires i >= 0
    ensures more ==> forall k :: 0 <= k < |r.base| && r.base[k] != null ==> r.base[k] in objs
    ensures more ==> forall k :: 0 <= k < |r.messages| && r.messages[k] != null ==> r.messages[k] in objs
    ensures more ==> UnsubscribeAllFrom(r.base, r.messages, i - 1, origin, family, objs)
                     == UnsubscribeAllFrom(base, messages, i, origin, family, objs)
    ensures !more ==> r == UnsubscribeAllFrom(base, messages, i, origin, family, objs)
  {
    if i >= |messages| || messages[i] == null {
      return Lists(base, messages, true), false;
    }
    UnsubscribeAllFromNext(base, messages, i, origin, family, objs);
    var m := messages;
    if m[i].origin == origin {
      m := m[i := null];
    }
    r := RemoveNullsBoth(base, m, family);
    more := !r.threw;
  }

  /** The UnsubscribeAll loop as written. */
  method UnsubscribeAllLoop(base: seq<Subscriber?>, messages: seq<Subscriber?>, origin: Option<UnityObject>,
                            family: Family, ghost objs: set<Subscriber>) returns (r: Lists)
    requires forall k :: 0 <= k < |base| && base[k] != null ==> base[k] in objs
    requires forall k :: 0 <= k < |messages| && messages[k] != null ==> messages[k] in objs
    ensures r == UnsubscribeAllFrom(base, messages, |messages| - 1, origin, family, objs)
  {
    var b, m := base, messages;
    var i := |messages| - 1;
    while i >= 0
      invariant forall k :: 0 <= k < |b| && b[k] != null ==> b[k] in objs
      invariant forall k :: 0 <= k < |m| && m[k] != null ==> m[k] in objs
      invariant UnsubscribeAllFrom(b, m, i, origin, family, objs) == UnsubscribeAllFrom(base, messages, |messages| - 1, origin, family, objs)
      decreases i + 1
    {
      var pass, more := UnsubscribeAllPass(b, m, i, origin, family, objs);
      if !more {
        return pass;
      }
      b, m := pass.base, pass.messages;
      i := i - 1;
    }
    return Lists(b, m, false);
  }

  /** The calls Raise(value) makes: every message subscriber left by the sweep, unless the sweep throws. */
  function RaiseCalls<T>(base: seq<Subscriber?>, messages: seq<Subscriber?>, family: Family, v: T): seq<Call<T>>
    reads base, messages
  {
    var r := RemoveNulls(base, messages, family);
    SweepForwardWithin(messages);
    if r.threw then [] else CallsBack(r.messages, v)
  }

  /** The calls Raise() makes with nothing caught; a throwing sweep makes none. */
  function RaiseStrict<T>(base: seq<Subscriber?>, messages: seq<Subscriber?>, family: Family, v: T,
                          failing: set<ResponseId>): Strict<T>
    reads base, messages
  {
    var r := RemoveNulls(base, messages, family);
    SweepForwardWithin(messages);
    if r.threw then Strict([], true) else CallsBackStrict(r.messages, v, failing)
  }

  /** What Unsubscribe leaves: the hits nulled, then one sweep unless a null entry threw first. */
  function UnsubscribeLists(base: seq<Subscriber?>, messages: seq<Subscriber?>, origin: Option<UnityObject>,
                            name: string, family: Family): Lists
    reads base, messages
  {
    var m := MarkBack(messages, origin, Some(name));
    if m.threw then Lists(base, m.list, true) else RemoveNulls(base, m.list, family)
  }

  /** The lists after two ActionSO sweeps in a row. */
  function SweptTwice(base: seq<Subscriber?>, messages: seq<Subscriber?>): Lists
    reads base
  {
    var r := RemoveNulls(base, messages, ActionFamily);
    BaseSweepWithin(base, ActionFamily);
    RemoveNulls(r.base, r.messages, ActionFamily)
  }

  /**
   * The calls ActionSO.Raise() makes as written: the uncaught notification
   * with `v`, then, through the StoredValue setter, a second sweep and a
   * caught notification with `v` again.
   */
  function RaiseTwice<T>(base: seq<Subscriber?>, messages: seq<Subscriber?>, v: T, failing: set<ResponseId>): Strict<T>
    reads base, messages
  {
    var r := RemoveNulls(base, messages, ActionFamily);
    BaseSweepWithin(base, ActionFamily);
    SweepForwardWithin(messages);
    var n := CallsBackStrict(r.messages, v, failing);
    if n.threw then n else Strict(n.calls + RaiseCalls(r.base, r.messages, ActionFamily, v), false)
  }

  /** The sweep and caught notification of Raise(value), on the lists as values. */
  method RaiseStep<T>(base: seq<Subscriber?>, messages: seq<Subscriber?>, family: Family, v: T)
    returns (r: Lists, made: seq<Call<T>>)
    ensures r == old(RemoveNulls(base, messages, family))
    ensures made == old(RaiseCalls(base, messages, family, v))
  {
    ghost var swept := RemoveNulls(base, messages, family);
    ghost var want := if swept.threw then [] else CallsBack(swept.messages, v);
    assert want == RaiseCalls(base, messages, family, v);
    r := RemoveNullsBoth(base, messages, family);
    assert r == swept;
    made := [];
    if !r.threw {
      made := NotifyBack(r.messages, v);
    }
    assert made == want;
  }

  /** The sweep and uncaught notification of Raise(), on the lists as values. */
  method RaiseStrictStep<T>(base: seq<Subscriber?>, messages: seq<Subscriber?>, family: Family, v: T,
                            failing: set<ResponseId>) returns (r: Lists, made: seq<Call<T>>, threw: bool)
    ensures r == RemoveNulls(base, messages, family)
    ensures Strict(made, threw) == RaiseStrict(base, messages, family, v, failing)
  {
    r := RemoveNullsBoth(base, messages, family);
    made, threw := [], true;
    if !r.threw {
      made, threw := NotifyBackStrict(r.messages, v, failing);
    }
  }

  /** The sweeps and notifications of ActionSO.Raise() as written, on the lists as values. */
  method RaiseTwiceStep<T>(base: seq<Subscriber?>, messages: seq<Subscriber?>, v: T, failing: set<ResponseId>)
    returns (lists: Lists, made: seq<Call<T>>, threw: bool)
    ensures Strict(made, threw) == RaiseTwice(base, messages, v, failing)
    ensures lists == if threw then RemoveNulls(base, messages, ActionFamily) else SweptTwice(base, messages)
  {
    var r := RemoveNullsBoth(base, messages, ActionFamily);
    made, threw := NotifyBackStrict(r.messages, v, failing);
    lists := r;
    if !threw {
      // the StoredValue setter: Raise(v) on the swept lists
      var more;
      lists, more := RaiseStep(r.base, r.messages, ActionFamily, v);
      made := made + more;
    }
  }

  // ---------------------------------------------------------------------
  // EventSO<T>
  // ---------------------------------------------------------------------

  class EventSO<T> {
    /** BaseEventSO._subscribers. */
    var baseSubscribers: seq<Subscriber?>
    /** _messageSubscribers. */
    var messageSubscribers: seq<Subscriber?>
    var hasRaised: bool
    var lastValueRaised: T
    const defaultValue: T
    /** The responses invoked so far, in order. */
    var calls: seq<Call<T>>

    constructor (defaultValue: T, lastValueRaised: T)
      ensures baseSubscribers == [] && messageSubscribers == [] && calls == []
      ensures !hasRaised && this.lastValueRaised == lastValueRaised && this.defaultValue == defaultValue
    {
      baseSubscribers := [];
      messageSubscribers := [];
      hasRaised := false;
      this.lastValueRaised := lastValueRaised;
      this.defaultValue := defaultValue;
      calls := [];
    }

    /** OnEditorStopped: both lists cleared, the last value back to the default. */
    method OnEditorStopped()
      modifies this
      ensures baseSubscribers == [] && messageSubscribers == [] && lastValueRaised == defaultValue
      ensures hasRaised == old(hasRaised) && calls == old(calls)
    {
      baseSubscribers := [];
      messageSubscribers := [];
      lastValueRaised := defaultValue;
    }

    /** OnDisable: the last value back to the default. */
    method OnDisable()
      modifies this
      ensures lastValueRaised == defaultValue
      ensures baseSubscribers == old(baseSubscribers) && messageSubscribers == old(messageSubscribers)
      ensures hasRaised == old(hasRaised) && calls == old(calls)
    {
      lastValueRaised := defaultValue;
    }

    /** RemoveNullSubscribers: the base sweep, which throws on a null entry, then the forward sweep. */
    method RemoveNullSubscribers() returns (threw: bool)
      modifies this
      ensures Lists(baseSubscribers, messageSubscribers, threw) == RemoveNulls(old(baseSubscribers), old(messageSubscribers), EventFamily)
      ensures hasRaised == old(hasRaised) && lastValueRaised == old(lastValueRaised) && calls == old(calls)
    {
      var r := RemoveNullsBoth(baseSubscribers, messageSubscribers, EventFamily);
      baseSubscribers, messageSubscribers, threw := r.base, r.messages, r.threw;
    }

    /** Both Subscribe overloads: one fresh message subscriber appended. */
    method Subscribe(origin: Option<UnityObject>, methodName: Option<string>, response: ResponseId)
      modifies this
      ensures |messageSubscribers| == |old(messageSubscribers)| + 1
      ensures messageSubscribers[..|old(messageSubscribers)|] == old(messageSubscribers)
      ensures var s := messageSubscribers[|old(messageSubscribers)|];
              s != null && fresh(s) && s.message && s.origin == origin && s.methodName == methodName
              && s.messageResponse == Some(response)
      ensures baseSubscribers == old(baseSubscribers) && hasRaised == old(hasRaised)
      ensures lastValueRaised == old(lastValueRaised) && calls == old(calls)
    {
      var s := new Subscriber.Message(origin, methodName, response);
      messageSubscribers := messageSubscribers + [s];
    }

    /**
     * Raise(value): the sweep, then every message subscriber from the last
     * to the first with exceptions caught, then HasRaised and the last
     * value. Only the base sweep can throw out of it.
     */
    method Raise(value: T) returns (threw: bool)
      modifies this
      ensures Lists(baseSubscribers, messageSubscribers, threw) == old(RemoveNulls(baseSubscribers, messageSubscribers, EventFamily))
      ensures calls == old(calls + RaiseCalls(baseSubscribers, messageSubscribers, EventFamily, value))
      ensures threw ==> hasRaised == old(hasRaised) && lastValueRaised == old(lastValueRaised)
      ensures !threw ==> hasRaised && lastValueRaised == value
    {
      var r, made := RaiseStep(baseSubscribers, messageSubscribers, EventFamily, value);
      baseSubscribers, messageSubscribers, calls, threw := r.base, r.messages, calls + made, r.threw;
      if !threw {
        hasRaised, lastValueRaised := true, value;
      }
    }

    /**
     * Raise(): the same with the default value and nothing caught; a throw
     * leaves HasRaised and the last value as they were.
     */
    method RaiseDefault(failing: set<ResponseId>) returns (threw: bool)
      modifies this
      ensures var r := old(RemoveNulls(baseSubscribers, messageSubscribers, EventFamily));
              baseSubscribers == r.base && messageSubscribers == r.messages
      ensures |calls| >= |old(calls)| && calls[..|old(calls)|] == old(calls)
      ensures Strict(calls[|old(calls)|..], threw) == old(RaiseStrict(baseSubscribers, messageSubscribers, EventFamily, defaultValue, failing))
      ensures threw ==> hasRaised == old(hasRaised) && lastValueRaised == old(lastValueRaised)
      ensures !threw ==> hasRaised && lastValueRaised == defaultValue
    {
      var r, made;
      r, made, threw := RaiseStrictStep(baseSubscribers, messageSubscribers, EventFamily, defaultValue, failing);
      baseSubscribers, messageSubscribers, calls := r.base, r.messages, calls + made;
      assert calls[|old(calls)|..] == made;
      if !threw {
        hasRaised, lastValueRaised := true, defaultValue;
      }
    }

    /** UnsubscribeAll: see UnsubscribeAllFrom. */
    method UnsubscribeAll(origin: Option<UnityObject>, ghost objs: set<Subscriber>) returns (threw: bool)
      requires forall k :: 0 <= k < |baseSubscribers| && baseSubscribers[k] != null ==> baseSubscribers[k] in objs
      requires forall k :: 0 <= k < |messageSubscribers| && messageSubscribers[k] != null ==> messageSubscribers[k] in objs
      modifies this
      ensures Lists(baseSubscribers, messageSubscribers, threw)
              == UnsubscribeAllFrom(old(baseSubscribers), old(messageSubscribers), |old(messageSubscribers)| - 1, origin, EventFamily, objs)
      ensures hasRaised == old(hasRaised) && lastValueRaised == old(lastValueRaised) && calls == old(calls)
    {
      var r := UnsubscribeAllLoop(baseSubscribers, messageSubscribers, origin, EventFamily, objs);
      baseSubscribers, messageSubscribers, threw := r.base, r.messages, r.threw;
    }

    /** Unsubscribe: the hits nulled from the back, then one sweep. */
    method Unsubscribe(origin: Option<UnityObject>, methodName: string) returns (threw: bool)
      modifies this
      ensures Lists(baseSubscribers, messageSubscribers, threw)
              == old(UnsubscribeLists(baseSubscribers, messageSubscribers, origin, methodName, EventFamily))
      ensures hasRaised == old(hasRaised) && lastValueRaised == old(lastValueRaised) && calls == old(calls)
    {
      var marked;
      marked, threw := MarkLoop(messageSubscribers, origin, Some(methodName));
      if threw {
        messageSubscribers := marked;
        return;
      }
      var r := RemoveNullsBoth(baseSubscribers, marked, EventFamily);
      baseSubscribers, messageSubscribers, threw := r.base, r.messages, r.threw;
    }
  }

  // ---------------------------------------------------------------------
  // ActionSO<T>
  // ---------------------------------------------------------------------

  class ActionSO<T> {
    /** BaseActionSO._subscribers. */
    var baseSubscribers: seq<Subscriber?>
    /** _messageSubscribers. */
    var messageSubscribers: seq<Subscriber?>
    var hasRaised: bool
    /** _storedValue. */
    var storedValue: T
    /** _defaultCallValue. */
    const defaultCallValue: T
    /** The responses invoked so far, in order. */
    var calls: seq<Call<T>>

    constructor (defaultCallValue: T, storedValue: T)
      ensures baseSubscribers == [] && messageSubscribers == [] && calls == []
      ensures !hasRaised && this.storedValue == storedValue && this.defaultCallValue == defaultCallValue
    {
      baseSubscribers := [];
      messageSubscribers := [];
      hasRaised := false;
      this.storedValue := storedValue;
      this.defaultCallValue := defaultCallValue;
      calls := [];
    }

    /** The StoredValue getter: the last value raised. */
    function StoredValue(): (v: T)
      reads this
      ensures v == storedValue
    {
      storedValue
    }

    /** OnEditorStopped: both lists cleared, the stored value back to the default. */
    method OnEditorStopped()
      modifies this
      ensures baseSubscribers == [] && messageSubscribers == [] && storedValue == defaultCallValue
      ensures hasRaised == old(hasRaised) && calls == old(calls)
    {
      baseSubscribers := [];
      messageSubscribers := [];
      storedValue := defaultCallValue;
    }

    /** OnDisable: the stored value back to the default. */
    method OnDisable()
      modifies this
      ensures storedValue == defaultCallValue
      ensures baseSubscribers == old(baseSubscribers) && messageSubscribers == old(messageSubscribers)
      ensures hasRaised == old(hasRaised) && calls == old(calls)
    {
      storedValue := defaultCallValue;
    }

    /** RemoveNullSubscribers: the base sweep, which never throws here, then the forward sweep. */
    method RemoveNullSubscribers()
      modifies this
      ensures Lists(baseSubscribers, messageSubscribers, false) == old(RemoveNulls(baseSubscribers, messageSubscribers, ActionFamily))
      ensures hasRaised == old(hasRaised) && storedValue == old(storedValue) && calls == old(calls)
    {
      var r := RemoveNullsBoth(baseSubscribers, messageSubscribers, ActionFamily);
      baseSubscribers, messageSubscribers := r.base, r.messages;
    }

    /** Both Subscribe overloads: one fresh message subscriber appended. */
    method Subscribe(origin: Option<UnityObject>, methodName: Option<string>, response: ResponseId)
      modifies this
      ensures |messageSubscribers| == |old(messageSubscribers)| + 1
      ensures messageSubscribers[..|old(messageSubscribers)|] == old(messageSubscribers)
      ensures var s := messageSubscribers[|old(messageSubscribers)|];
              s != null && fresh(s) && s.message && s.origin == origin && s.methodName == methodName
              && s.messageResponse == Some(response)
      ensures baseSubscribers == old(baseSubscribers) && hasRaised == old(hasRaised)
      ensures storedValue == old(storedValue) && calls == old(calls)
    {
      var s := new Subscriber.Message(origin, methodName, response);
      messageSubscribers := messageSubscribers + [s];
    }

    /**
     * Raise(value), which is also the StoredValue setter: the sweep, every
     * message subscriber from the last to the first with exceptions caught,
     * then HasRaised and the stored value.
     */
    method Raise(value: T)
      modifies this
      ensures Lists(baseSubscribers, messageSubscribers, false) == old(RemoveNulls(baseSubscribers, messageSubscribers, ActionFamily))
      ensures calls == old(calls + RaiseCalls(baseSubscribers, messageSubscribers, ActionFamily, value))
      ensures hasRaised && storedValue == value
    {
      var r, made := RaiseStep(baseSubscribers, messageSubscribers, ActionFamily, value);
      baseSubscribers, messageSubscribers, calls, hasRaised, storedValue := r.base, r.messages, calls + made, true, value;
    }

    /**
     * Raise(): the sweep and an uncaught notification with the default
     * value; then the StoredValue setter raises the default once more.
     */
    method RaiseDefault(failing: set<ResponseId>) returns (threw: bool)
      modifies this
      ensures |calls| >= |old(calls)| && calls[..|old(calls)|] == old(calls)
      ensures Strict(calls[|old(calls)|..], threw) == old(RaiseTwice(baseSubscribers, messageSubscribers, defaultCallValue, failing))
      ensures threw ==> Lists(baseSubscribers, messageSubscribers, false) == old(RemoveNulls(baseSubscribers, messageSubscribers, ActionFamily))
                        && hasRaised == old(hasRaised) && storedValue == old(storedValue)
      ensures !threw ==> Lists(baseSubscribers, messageSubscribers, false) == old(SweptTwice(baseSubscribers, messageSubscribers))
                         && hasRaised && storedValue == defaultCallValue
    {
      var lists, made;
      lists, made, threw := RaiseTwiceStep(baseSubscribers, messageSubscribers, defaultCallValue, failing);
      baseSubscribers, messageSubscribers, calls := lists.base, lists.messages, calls + made;
      assert calls[|old(calls)|..] == made;
      if !threw {
        hasRaised, storedValue := true, defaultCallValue;
      }
    }

    /**
     * Raise() as evidently intended: the default is stored directly, so
     * each subscriber is notified once.
     */
    method RaiseDefaultChecked(failing: set<ResponseId>) returns (threw: bool)
      modifies this
      ensures Lists(baseSubscribers, messageSubscribers, false) == old(RemoveNulls(baseSubscribers, messageSubscribers, ActionFamily))
      ensures |calls| >= |old(calls)| && calls[..|old(calls)|] == old(calls)
      ensures Strict(calls[|old(calls)|..], threw) == old(RaiseStrict(baseSubscribers, messageSubscribers, ActionFamily, defaultCallValue, failing))
      ensures threw ==> hasRaised == old(hasRaised) && storedValue == old(storedValue)
      ensures !threw ==> hasRaised && storedValue == defaultCallValue
    {
      var r, made;
      r, made, threw := RaiseStrictStep(baseSubscribers, messageSubscribers, ActionFamily, defaultCallValue, failing);
      baseSubscribers, messageSubscribers, calls := r.base, r.messages, calls + made;
      assert calls[|old(calls)|..] == made;
      if !threw {
        hasRaised, storedValue := true, defaultCallValue;
      }
    }

    /** UnsubscribeAll: see UnsubscribeAllFrom. */
    method UnsubscribeAll(origin: Option<UnityObject>, ghost objs: set<Subscriber>) returns (threw: bool)
      requires forall k :: 0 <= k < |baseSubscribers| && baseSubscribers[k] != null ==> baseSubscribers[k] in objs
      requires forall k :: 0 <= k < |messageSubscribers| && messageSubscribers[k] != null ==> messageSubscribers[k] in objs
      modifies this
      ensures Lists(baseSubscribers, messageSubscribers, threw)
              == UnsubscribeAllFrom(old(baseSubscribers), old(messageSubscribers), |old(messageSubscribers)| - 1, origin, ActionFamily, objs)
      ensures hasRaised == old(hasRaised) && storedValue == old(storedValue) && calls == old(calls)
    {
      var r := UnsubscribeAllLoop(baseSubscribers, messageSubscribers, origin, ActionFamily, objs);
      baseSubscribers, messageSubscribers, threw := r.base, r.messages, r.threw;
    }

    /** Unsubscribe: the hits nulled from the back, then one sweep. */
    method Unsubscribe(origin: Option<UnityObject>, methodName: string) returns (threw: bool)
      modifies this
      ensures Lists(baseSubscribers, messageSubscribers, threw)
              == old(UnsubscribeLists(baseSubscribers, messageSubscribers, origin, methodName, ActionFamily))
      ensures hasRaised == old(hasRaised) && storedValue == old(storedValue) && calls == old(calls)
    {
      var marked;
      marked, threw := MarkLoop(messageSubscribers, origin, Some(methodName));
      if threw {
        messageSubscribers := marked;
        return;
      }
      var r := RemoveNullsBoth(baseSubscribers, marked, ActionFamily);
      baseSubscribers, messageSubscribers, threw := r.base, r.messages, r.threw;
    }
  }

  /**
   * ActionSO.Raise() notifies a lone subscriber twice: once in its own loop
   * and once more through the StoredValue setter.
   */
  lemma RaiseDefaultNotifiesTwice<T>(s: Subscriber, d: T, failing: set<ResponseId>)
    requires s.origin.Some? && s.messageResponse.Some? && s.messageResponse.value !in failing
    ensures RaiseTwice([], [s], d, failing) == Strict([Call(s.messageResponse.value, d), Call(s.messageResponse.value, d)], false)
  {
    var c := Call(s.messageResponse.value, d);
    assert [s][1..] == [] && [s][..0] == [];
    assert SweepForward([s]) == [s];
    assert RemoveNulls([], [s], ActionFamily) == Lists([], [s], false);
    assert CallsBackStrict([s], d, failing) == Strict([c], false);
    assert CallsBack([s], d) == [c];
    assert RaiseCalls([], [s], ActionFamily, d) == [c];
  }

  /**
   * Unsubscribe on two adjacent subscribers of the same origin: both are
   * nulled and the forward sweep leaves one null in the list.
   */
  lemma UnsubscribeLeavesNull(a: Subscriber, b: Subscriber, o: UnityObject)
    requires a.origin == Some(o) && b.origin == Some(o)
    ensures var m := MarkBack([a, b], Some(o), Some(o.name));
            !m.threw && m.list == [null, null] && SweepForward(m.list) == [null]
  {
    assert [a, b][..1] == [a];
    assert [a][..0] == [];
    assert Hit(a, Some(o), Some(o.name)) && Hit(b, Some(o), Some(o.name));
    assert MarkBack([a], Some(o), Some(o.name)) == Swept([null], false);
    SweepForwardSkips();
  }
}

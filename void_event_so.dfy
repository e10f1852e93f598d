/**
 * The parameterless event and action assets: VoidEventSO
 * (Event/ConcreteImplementation/VoidEventSO.cs) and VoidActionSo
 * (ActionSO/ConcreteImplementation/VoidEventSO.cs), which are the same code
 * over the two base classes.
 *
 * Each declares its own private subscriber list, which hides the base
 * class's list: Subscribe, Raise and the unsubscribe loops use the own
 * list, while OnEditorStopped and RemoveNullSubscribers, which the class
 * does not override, only ever see the hidden base list. Unsubscribing
 * replaces entries with null and nothing ever removes them, so once an
 * entry is nulled every later walk over the list reads a null entry.
 */
module VoidChannels {
  import opened Wrappers
  import opened Subscribers
  import opened EventChannels

  /** The responses invoked, in order, and whether an exception escaped. */
  datatype Fired = Fired(responses: seq<ResponseId>, threw: bool)

  /**
   * Raise: from the last entry to the first, each entry's response is
   * invoked when it is set. Nothing is caught: a null entry throws on
   * reading its response, and a failing response throws after being called.
   */
  function FireBack(s: seq<Subscriber?>, failing: set<ResponseId>): Fired
    reads s
  {
    if s == [] then Fired([], false)
    else
      var x := s[|s| - 1];
      if x == null then Fired([], true)
      else if x.response.None? then FireBack(s[..|s| - 1], failing)
      else if x.response.value in failing then Fired([x.response.value], true)
      else
        var rest := FireBack(s[..|s| - 1], failing);
        Fired([x.response.value] + rest.responses, rest.threw)
  }

  /** Raise throws whenever the list holds a null entry. */
  lemma {:induction false} FireBackThrowsOnNull(s: seq<Subscriber?>, failing: set<ResponseId>)
    requires null in s
    ensures FireBack(s, failing).threw
  {
    var x := s[|s| - 1];
    if x != null {
      var p := s[..|s| - 1];
      assert s == p + [x];
      assert null in p;
      FireBackThrowsOnNull(p, failing);
    }
  }

  /**
   * On a list without null entries and without failing responses, Raise
   * completes, invokes every set response and nothing else.
   */
  lemma {:induction false} FireBackCallsAll(s: seq<Subscriber?>, failing: set<ResponseId>)
    requires null !in s
    requires forall k :: 0 <= k < |s| && s[k].response.Some? ==> s[k].response.value !in failing
    ensures var r := FireBack(s, failing);
            && !r.threw
            && (forall k :: 0 <= k < |s| && s[k].response.Some? ==> s[k].response.value in r.responses)
            && (forall j :: 0 <= j < |r.responses| ==> exists k :: 0 <= k < |s| && s[k].response == Some(r.responses[j]))
  {
    if s != [] {
      var p := s[..|s| - 1];
      var x := s[|s| - 1];
      assert forall k :: 0 <= k < |p| ==> p[k] == s[k];
      FireBackCallsAll(p, failing);
      var r := FireBack(s, failing);
      var rp := FireBack(p, failing);
      if x.response.Some? {
        assert r.responses == [x.response.value] + rp.responses;
        forall j | 0 <= j < |r.responses|
          ensures exists k :: 0 <= k < |s| && s[k].response == Some(r.responses[j])
        {
          if j == 0 {
            assert s[|s| - 1].response == Some(r.responses[j]);
          } else {
            assert r.responses[j] == rp.responses[j - 1];
            var k :| 0 <= k < |p| && p[k].response == Some(rp.responses[j - 1]);
            assert s[k] == p[k];
          }
        }
      } else {
        forall j | 0 <= j < |r.responses|
          ensures exists k :: 0 <= k < |s| && s[k].response == Some(r.responses[j])
        {
          var k :| 0 <= k < |p| && p[k].response == Some(rp.responses[j]);
          assert s[k] == p[k];
        }
      }
    }
  }

  /** The Raise loop, on the list as a value. */
  method FireLoop(s: seq<Subscriber?>, failing: set<ResponseId>) returns (responses: seq<ResponseId>, threw: bool)
    ensures Fired(responses, threw) == FireBack(s, failing)
  {
    responses := [];
    var rest := s;
    while rest != []
      invariant FireBack(s, failing) == (var f := FireBack(rest, failing); Fired(responses + f.responses, f.threw))
    {
      var x := rest[|rest| - 1];
      if x == null {
        return responses, true;
      }
      if x.response.Some? {
        responses := responses + [x.response.value];
        if x.response.value in failing {
          return responses, true;
        }
      }
      rest := rest[..|rest| - 1];
    }
    return responses, false;
  }

  /**
   * UnsubscribeAll as evidently intended: the entries of that origin are
   * removed from the list rather than replaced with null.
   */
  method RemoveOrigin(s: seq<Subscriber?>, origin: Option<UnityObject>) returns (r: seq<Subscriber?>)
    ensures r == Without(s, origin)
  {
    r := [];
    var rest := s;
    while rest != []
      invariant Without(rest, origin) + r == Without(s, origin)
    {
      var x := rest[|rest| - 1];
      if !(x != null && x.origin == origin) {
        r := [x] + r;
      }
      rest := rest[..|rest| - 1];
    }
  }

  /**
   * After UnsubscribeAll as written has nulled an entry, Raise throws: a
   * subscriber list without nulls, one entry of which has that origin,
   * is left with a null that the next Raise reads.
   */
  lemma UnsubscribeAllBreaksRaise(s: seq<Subscriber?>, origin: Option<UnityObject>, i: nat, failing: set<ResponseId>)
    requires null !in s && i < |s| && s[i].origin == origin
    ensures var m := MarkBack(s, origin, None);
            !m.threw && null in m.list && FireBack(m.list, failing).threw
  {
    MarkBackNullsHits(s, origin, None);
    var m := MarkBack(s, origin, None);
    assert Hit(s[i], origin, None);
    assert m.list[i] == null;
    FireBackThrowsOnNull(m.list, failing);
  }

  /** A second UnsubscribeAll of the same origin throws on the null the first one left. */
  lemma UnsubscribeAllTwiceThrows(s: seq<Subscriber?>, origin: Option<UnityObject>, i: nat)
    requires null !in s && i < |s| && s[i].origin == origin
    ensures var m := MarkBack(s, origin, None);
            !m.threw && MarkBack(m.list, origin, None).threw
  {
    MarkBackNullsHits(s, origin, None);
    var m := MarkBack(s, origin, None);
    assert Hit(s[i], origin, None);
    assert m.list[i] == null;
    MarkBackThrowsOnNull(m.list, origin, None);
  }

  /** Both unsubscribe loops throw whenever the list holds a null entry. */
  lemma {:induction false} MarkBackThrowsOnNull(s: seq<Subscriber?>, origin: Option<UnityObject>, name: Option<string>)
    requires null in s
    ensures MarkBack(s, origin, name).threw
  {
    var x := s[|s| - 1];
    if x != null && !(name.Some? && origin.None? && x.origin.None?) {
      var p := s[..|s| - 1];
      assert s == p + [x];
      assert null in p;
      MarkBackThrowsOnNull(p, origin, name);
    }
  }

  /**
   * With the intended removal, a list without nulls keeps none, so a later
   * Raise without failing responses completes and calls every response
   * that is left.
   */
  lemma RemoveOriginKeepsRaise(s: seq<Subscriber?>, origin: Option<UnityObject>, failing: set<ResponseId>)
    requires null !in s
    requires forall k :: 0 <= k < |s| && s[k].response.Some? ==> s[k].response.value !in failing
    ensures null !in Without(s, origin)
    ensures !FireBack(Without(s, origin), failing).threw
  {
    WithoutNullFree(s, origin);
    var w := Without(s, origin);
    WithoutWithin(s, origin);
    FireBackCallsAll(w, failing);
  }

  /** Without returns entries of its input. */
  lemma {:induction false} WithoutWithin(s: seq<Subscriber?>, origin: Option<UnityObject>)
    ensures forall k :: 0 <= k < |Without(s, origin)| ==> Without(s, origin)[k] in s
  {
    if s != [] {
      var p := s[..|s| - 1];
      WithoutWithin(p, origin);
      assert forall y :: y in p ==> y in s;
    }
  }

  class VoidChannel {
    /** Which base class: BaseEventSO or BaseActionSO. */
    const family: Family
    /** The base class's _subscribers, hidden by the class's own list. */
    var hidden: seq<Subscriber?>
    /** The class's own _subscribers. */
    var subscribers: seq<Subscriber?>
    var hasRaised: bool
    /** The responses invoked so far, in order. */
    var calls: seq<ResponseId>

    constructor (family: Family)
      ensures this.family == family && hidden == [] && subscribers == [] && !hasRaised && calls == []
    {
      this.family := family;
      hidden := [];
      subscribers := [];
      hasRaised := false;
      calls := [];
    }

    /** Subscribe: one fresh base subscriber appended to the own list. */
    method Subscribe(origin: Option<UnityObject>, methodName: Option<string>, response: Option<ResponseId>)
      modifies this
      ensures |subscribers| == |old(subscribers)| + 1
      ensures subscribers[..|old(subscribers)|] == old(subscribers)
      ensures var s := subscribers[|old(subscribers)|];
              s != null && fresh(s) && !s.message && s.origin == origin && s.methodName == methodName && s.response == response
      ensures hidden == old(hidden) && hasRaised == old(hasRaised) && calls == old(calls)
    {
      var s := new Subscriber(origin, methodName, response);
      subscribers := subscribers + [s];
    }

    /** Raise: see FireBack; HasRaised is set only when no exception escaped. */
    method Raise(failing: set<ResponseId>) returns (threw: bool)
      modifies this
      ensures |calls| >= |old(calls)| && calls[..|old(calls)|] == old(calls)
      ensures Fired(calls[|old(calls)|..], threw) == old(FireBack(subscribers, failing))
      ensures hasRaised == (old(hasRaised) || !threw)
      ensures subscribers == old(subscribers) && hidden == old(hidden)
    {
      var made;
      made, threw := FireLoop(subscribers, failing);
      calls := calls + made;
      assert calls[|old(calls)|..] == made;
      if !threw {
        hasRaised := true;
      }
    }

    /** UnsubscribeAll: every entry of that origin nulled in place, from the back; a null entry throws. */
    method UnsubscribeAll(origin: Option<UnityObject>) returns (threw: bool)
      modifies this
      ensures Swept(subscribers, threw) == old(MarkBack(subscribers, origin, None))
      ensures hidden == old(hidden) && hasRaised == old(hasRaised) && calls == old(calls)
    {
      subscribers, threw := MarkLoop(subscribers, origin, None);
    }

    /** Unsubscribe: the same, for entries whose origin's name is also `methodName`. */
    method Unsubscribe(origin: Option<UnityObject>, methodName: string) returns (threw: bool)
      modifies this
      ensures Swept(subscribers, threw) == old(MarkBack(subscribers, origin, Some(methodName)))
      ensures hidden == old(hidden) && hasRaised == old(hasRaised) && calls == old(calls)
    {
      subscribers, threw := MarkLoop(subscribers, origin, Some(methodName));
    }

    /** UnsubscribeAll as evidently intended: the entries of that origin removed. */
    method UnsubscribeAllChecked(origin: Option<UnityObject>)
      modifies this
      ensures subscribers == old(Without(subscribers, origin))
      ensures hidden == old(hidden) && hasRaised == old(hasRaised) && calls == old(calls)
    {
      subscribers := RemoveOrigin(subscribers, origin);
    }

    /** The inherited RemoveNullSubscribers: it sweeps the hidden base list only. */
    method RemoveNullSubscribers() returns (threw: bool)
      modifies this
      ensures Swept(hidden, threw) == old(BaseSweep(hidden, family))
      ensures subscribers == old(subscribers) && hasRaised == old(hasRaised) && calls == old(calls)
    {
      if family.EventFamily? {
        hidden, threw := EventBaseRemove(hidden);
      } else {
        hidden := ActionBaseRemove(hidden);
        threw := false;
      }
    }

    /** The inherited OnEditorStopped: it clears the hidden base list only. */
    method OnEditorStopped()
      modifies this
      ensures hidden == []
      ensures subscribers == old(subscribers) && hasRaised == old(hasRaised) && calls == old(calls)
    {
      hidden := [];
    }
  }
}

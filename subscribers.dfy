/**
 * Event and action subscribers: BaseEventSubscriber (EventSO.cs) and
 * BaseActionSubscriber (BaseActionSubscriber.cs), which are the same code,
 * with their message-carrying subclasses EventSubscriber<T> and
 * ActionMessageSubscriber<T>; and the list walks the event and action
 * assets run over their subscriber lists.
 *
 * A Unity object is its id and name; `None` is a null or destroyed object,
 * which is what Unity's overloaded == compares against. Delegates are
 * opaque response ids: two delegates are equal exactly when their ids are.
 */
module Subscribers {
  import opened Wrappers

  type ObjId = nat
  type ResponseId = nat

  datatype UnityObject = UnityObject(id: ObjId, name: string)

  /** What Equals and GetHashCode read: the origin, the method name and the base class's response. */
  datatype Key = Key(origin: Option<UnityObject>, methodName: Option<string>, response: Option<ResponseId>)

  class Subscriber {
    /** The runtime type: the message subclass, or the base class itself. */
    const message: bool
    var origin: Option<UnityObject>
    var methodName: Option<string>
    /** The base class's _response, a UnityAction. */
    var response: Option<ResponseId>
    /** The subclass's own _response, a UnityAction<T> hiding the base one; unset on the base class. */
    var messageResponse: Option<ResponseId>

    /** The three-argument base constructor. */
    constructor (origin: Option<UnityObject>, methodName: Option<string>, response: Option<ResponseId>)
      ensures !message && this.origin == origin && this.methodName == methodName
      ensures this.response == response && messageResponse == None
    {
      message := false;
      this.origin := origin;
      this.methodName := methodName;
      this.response := response;
      messageResponse := None;
    }

    /**
     * The subclass constructor: it sets the subclass's response only, so the
     * base _response that equality reads stays null.
     */
    constructor Message(origin: Option<UnityObject>, methodName: Option<string>, response: ResponseId)
      ensures message && this.origin == origin && this.methodName == methodName
      ensures this.response == None && messageResponse == Some(response)
    {
      message := true;
      this.origin := origin;
      this.methodName := methodName;
      this.response := None;
      messageResponse := Some(response);
    }

    function Fields(): Key
      reads this
    {
      Key(origin, methodName, response)
    }

    /**
     * Equals(BaseActionSubscriber): null is never equal, the same instance
     * always is, and otherwise the three fields decide. Equal subscribers
     * have equal hash codes.
     */
    function Equals(other: Subscriber?): (r: bool)
      reads this, other
      ensures r <==> other != null && Fields() == other.Fields()
      ensures r ==> HashCode() == other.HashCode()
    {
      if other == null then false
      else if other == this then true
      else origin == other.origin && methodName == other.methodName && response == other.response
    }

    /** Equals(object): an instance of another runtime type is never equal. */
    function EqualsObject(other: Subscriber?): (r: bool)
      reads this, other
      ensures r <==> other != null && (other == this || (other.message == message && Fields() == other.Fields()))
    {
      if other == null then false
      else if other == this then true
      else if other.message != message then false
      else Equals(other)
    }

    /** HashCode.Combine(_origin, _methodName, _response), modelled as the triple it combines. */
    function HashCode(): Key
      reads this
    {
      Key(origin, methodName, response)
    }

    /** The Origin setter. */
    method SetOrigin(o: Option<UnityObject>)
      modifies this
      ensures origin == o && methodName == old(methodName)
      ensures response == old(response) && messageResponse == old(messageResponse)
    {
      origin := o;
    }

    /**
     * SetNull clears the origin and the method name; the response it means
     * to clear is a fresh local, so _response is kept.
     */
    method SetNull()
      modifies this
      ensures origin == None && methodName == None
      ensures response == old(response) && messageResponse == old(messageResponse)
    {
      origin := None;
      methodName := None;
    }
  }

  /** Two subscribers built by the subclass constructor are equal whatever their responses. */
  lemma MessageEqualityIgnoresResponse(a: Subscriber, b: Subscriber)
    requires a.message && b.message && a.response == None && b.response == None
    requires a.origin == b.origin && a.methodName == b.methodName
    ensures a.Equals(b) && b.Equals(a) && a.EqualsObject(b)
  {
  }

  /** Equals is an equivalence on non-null subscribers. */
  lemma EqualsIsEquivalence(a: Subscriber, b: Subscriber, c: Subscriber)
    ensures a.Equals(a)
    ensures a.Equals(b) ==> b.Equals(a)
    ensures a.Equals(b) && b.Equals(c) ==> a.Equals(c)
  {
  }

  // ---------------------------------------------------------------------
  // Removing null subscribers
  // ---------------------------------------------------------------------

  /**
   * The derived RemoveNullSubscribers: a forward index loop calling RemoveAt.
   * Removing index i moves the next entry onto i, and the loop then steps
   * past it unchecked.
   */
  function SweepForward(s: seq<Subscriber?>): seq<Subscriber?>
  {
    if s == [] then []
    else if s[0] != null then [s[0]] + SweepForward(s[1..])
    else if |s| == 1 then []
    else [s[1]] + SweepForward(s[2..])
  }

  /** Some null directly follows another. */
  predicate AdjacentNulls(s: seq<Subscriber?>)
  {
    exists k :: 0 <= k < |s| - 1 && s[k] == null && s[k + 1] == null
  }

  /**
   * The forward sweep keeps every non-null entry in order and drops nulls,
   * and a null survives it exactly when two nulls were adjacent.
   */
  lemma {:induction false} SweepForwardKeeps(s: seq<Subscriber?>)
    ensures forall x :: x != null ==> (x in SweepForward(s) <==> x in s)
    ensures null in SweepForward(s) <==> AdjacentNulls(s)
    ensures |SweepForward(s)| <= |s|
  {
    if s != [] {
      if s[0] != null {
        SweepForwardKeeps(s[1..]);
        AdjacentShift(s, 1);
      } else if |s| > 1 {
        SweepForwardKeeps(s[2..]);
        AdjacentShift(s, 2);
        if s[1] == null {
          assert AdjacentNulls(s) by { assert s[0] == null && s[1] == null; }
        }
      }
    }
  }

  /** Adjacent nulls of a list that starts with a non-null, or of one dropping two entries. */
  lemma AdjacentShift(s: seq<Subscriber?>, n: nat)
    requires 1 <= n <= 2 && n <= |s|
    requires n == 1 ==> s[0] != null
    requires n == 2 ==> s[0] == null
    ensures n == 1 ==> (AdjacentNulls(s) <==> AdjacentNulls(s[1..]))
    ensures n == 2 ==> (AdjacentNulls(s) <==> s[1] == null || AdjacentNulls(s[2..]))
  {
    if AdjacentNulls(s) {
      var k :| 0 <= k < |s| - 1 && s[k] == null && s[k + 1] == null;
      if n == 1 {
        assert s[1..][k - 1] == s[k] && s[1..][k] == s[k + 1];
      } else if k >= 2 {
        assert s[2..][k - 2] == s[k] && s[2..][k - 1] == s[k + 1];
      }
    }
    if n == 1 && AdjacentNulls(s[1..]) {
      var k :| 0 <= k < |s[1..]| - 1 && s[1..][k] == null && s[1..][k + 1] == null;
      assert s[k + 1] == null && s[k + 2] == null;
    }
    if n == 2 && AdjacentNulls(s[2..]) {
      var k :| 0 <= k < |s[2..]| - 1 && s[2..][k] == null && s[2..][k + 1] == null;
      assert s[k + 2] == null && s[k + 3] == null;
    }
  }

  /** Two adjacent nulls: the sweep removes the first and leaves the second. */
  lemma SweepForwardSkips()
    ensures SweepForward([null, null]) == [null]
  {
  }

  /** The intended sweep: every null is dropped and every other entry kept in order. */
  function WithoutNulls(s: seq<Subscriber?>): (r: seq<Subscriber?>)
    ensures null !in r
    ensures forall k :: 0 <= k < |r| ==> r[k] in s
    ensures forall k :: 0 <= k < |s| && s[k] != null ==> s[k] in r
  {
    if s == [] then [] else if s[0] == null then WithoutNulls(s[1..]) else [s[0]] + WithoutNulls(s[1..])
  }

  /** The forward RemoveAt loop, as written. */
  method RemoveNullsForward(s: seq<Subscriber?>) returns (r: seq<Subscriber?>)
    ensures r == SweepForward(s)
  {
    // The list is r + rest and the loop index is |r|.
    r := [];
    var rest := s;
    while rest != []
      invariant r + SweepForward(rest) == SweepForward(s)
    {
      if rest[0] != null {
        r := r + [rest[0]];
        rest := rest[1..];
      } else if |rest| == 1 {
        rest := [];
      } else {
        r := r + [rest[1]];
        rest := rest[2..];
      }
    }
  }


  /** The forward loop as evidently intended: the index only advances past an entry it kept. */
  method RemoveNullsChecked(s: seq<Subscriber?>) returns (r: seq<Subscriber?>)
    ensures r == WithoutNulls(s)
  {
    r := [];
    var rest := s;
    while rest != []
      invariant r + WithoutNulls(rest) == WithoutNulls(s)
    {
      if rest[0] != null {
        r := r + [rest[0]];
      }
      rest := rest[1..];
    }
  }


  /** An entry the base sweeps keep: non-null with a non-null origin. */
  predicate Alive(x: Subscriber?)
    reads x
  {
    x != null && x.origin.Some?
  }

  /** The entries of `s` that are alive, in order. */
  function Live(s: seq<Subscriber?>): (r: seq<Subscriber?>)
    reads s
    ensures |r| <= |s|
  {
    if s == [] then []
    else Live(s[..|s| - 1]) + (if Alive(s[|s| - 1]) then [s[|s| - 1]] else [])
  }

  /** The sweep leaves a list as it is exactly when every entry is alive. */
  lemma {:induction false} LiveUnchanged(s: seq<Subscriber?>)
    ensures Live(s) == s <==> forall k :: 0 <= k < |s| ==> Alive(s[k])
  {
    if s != [] {
      var p := s[..|s| - 1];
      LiveUnchanged(p);
      if Live(s) == s {
        assert Alive(s[|s| - 1]);
        assert Live(p) == Live(s)[..|s| - 1] == p;
      }
    }
  }

  /** Live keeps exactly the live entries: all of them, and nothing else. */
  lemma {:induction false} LiveKeepsAlive(s: seq<Subscriber?>)
    ensures forall k :: 0 <= k < |Live(s)| ==> Live(s)[k] in s && Alive(Live(s)[k])
    ensures forall k :: 0 <= k < |s| && Alive(s[k]) ==> s[k] in Live(s)
  {
    if s != [] {
      var p := s[..|s| - 1];
      LiveKeepsAlive(p);
      assert forall k :: 0 <= k < |p| ==> p[k] == s[k];
    }
  }

  datatype Swept = Swept(list: seq<Subscriber?>, threw: bool)

  /**
   * BaseEventSO.RemoveNullSubscribers: a backward loop that reads the
   * origin before it tests the entry for null, so a null entry throws. The
   * entries after it have already been filtered; those before it are left.
   */
  function EventBaseSweep(s: seq<Subscriber?>): Swept
    reads s
  {
    if s == [] then Swept([], false)
    else if s[|s| - 1] == null then Swept(s, true)
    else
      var rest := EventBaseSweep(s[..|s| - 1]);
      Swept(rest.list + (if Alive(s[|s| - 1]) then [s[|s| - 1]] else []), rest.threw)
  }

  /** The event base sweep throws exactly on a list holding a null, and otherwise keeps the live entries. */
  lemma {:induction false} EventBaseSweepIsLive(s: seq<Subscriber?>)
    ensures EventBaseSweep(s).threw <==> null in s
    ensures !EventBaseSweep(s).threw ==> EventBaseSweep(s).list == Live(s)
  {
    if s != [] && s[|s| - 1] != null {
      EventBaseSweepIsLive(s[..|s| - 1]);
      assert s == s[..|s| - 1] + [s[|s| - 1]];
    }
  }

  /**
   * The event base sweep as a backward RemoveAt loop: `threw` reports the
   * NullReferenceException.
   */
  method EventBaseRemove(s: seq<Subscriber?>) returns (r: seq<Subscriber?>, threw: bool)
    ensures Swept(r, threw) == EventBaseSweep(s)
  {
    // The list is rest + kept and the loop index is |rest| - 1.
    var kept := [];
    var rest := s;
    while rest != []
      invariant EventBaseSweep(s) == (var b := EventBaseSweep(rest); Swept(b.list + kept, b.threw))
    {
      var x := rest[|rest| - 1];
      if x == null {
        return rest + kept, true;
      }
      if Alive(x) {
        kept := [x] + kept;
      }
      rest := rest[..|rest| - 1];
    }
    return kept, false;
  }


  /**
   * BaseActionSO.RemoveNullSubscribers: a backward RemoveAt loop that tests
   * for null first, so it removes null entries and null origins alike.
   */
  method ActionBaseRemove(s: seq<Subscriber?>) returns (r: seq<Subscriber?>)
    ensures r == Live(s)
  {
    r := [];
    var rest := s;
    while rest != []
      invariant Live(rest) + r == Live(s)
    {
      var x := rest[|rest| - 1];
      if x != null && x.origin.Some? {
        r := [x] + r;
      }
      rest := rest[..|rest| - 1];
    }
  }


  // ---------------------------------------------------------------------
  // Notifying subscribers
  // ---------------------------------------------------------------------

  /** One invocation of a response with the value passed to it. */
  datatype Call<T> = Call(response: ResponseId, value: T)

  /** The response a message subscriber invokes, if it has one. */
  function CallOf<T>(x: Subscriber?, v: T): seq<Call<T>>
    reads x
  {
    if x != null && x.messageResponse.Some? then [Call(x.messageResponse.value, v)] else []
  }

  /**
   * Raise(value): every entry from the last to the first invokes its
   * response with `value`; an exception, from a null entry or from the
   * response, is caught and the loop goes on.
   */
  function CallsBack<T>(s: seq<Subscriber?>, v: T): (r: seq<Call<T>>)
    reads s
    ensures |r| <= |s|
  {
    if s == [] then [] else CallOf(s[|s| - 1], v) + CallsBack(s[..|s| - 1], v)
  }

  /** Every subscriber with a response is called, and only they. */
  lemma {:induction false} CallsBackCallsAll<T>(s: seq<Subscriber?>, v: T, rid: ResponseId)
    ensures Call(rid, v) in CallsBack(s, v) <==> exists k :: 0 <= k < |s| && s[k] != null && s[k].messageResponse == Some(rid)
  {
    if s != [] {
      var p := s[..|s| - 1];
      CallsBackCallsAll(p, v, rid);
      if exists k :: 0 <= k < |s| && s[k] != null && s[k].messageResponse == Some(rid) {
        var k :| 0 <= k < |s| && s[k] != null && s[k].messageResponse == Some(rid);
        if k < |p| {
          assert p[k] == s[k];
        }
      }
      if exists k :: 0 <= k < |p| && p[k] != null && p[k].messageResponse == Some(rid) {
        var k :| 0 <= k < |p| && p[k] != null && p[k].messageResponse == Some(rid);
        assert s[k] == p[k];
      }
    }
  }

  /** The outcome of a loop whose exceptions are not caught. */
  datatype Strict<T> = Strict(calls: seq<Call<T>>, threw: bool)

  /**
   * Raise(): the same backward loop with nothing caught: a null entry
   * throws before any call, a throwing response after its own call, and
   * either ends the loop.
   */
  function CallsBackStrict<T>(s: seq<Subscriber?>, v: T, failing: set<ResponseId>): Strict<T>
    reads s
  {
    if s == [] then Strict([], false)
    else
      var x := s[|s| - 1];
      if x == null then Strict([], true)
      else if x.messageResponse.Some? && x.messageResponse.value in failing then Strict(CallOf(x, v), true)
      else
        var rest := CallsBackStrict(s[..|s| - 1], v, failing);
        Strict(CallOf(x, v) + rest.calls, rest.threw)
  }

  /** With no null entry and no throwing response, Raise() makes the calls Raise(value) makes. */
  lemma {:induction false} StrictAgrees<T>(s: seq<Subscriber?>, v: T, failing: set<ResponseId>)
    requires null !in s
    requires forall k :: 0 <= k < |s| && s[k].messageResponse.Some? ==> s[k].messageResponse.value !in failing
    ensures CallsBackStrict(s, v, failing) == Strict(CallsBack(s, v), false)
  {
    if s != [] {
      var p := s[..|s| - 1];
      assert forall k :: 0 <= k < |p| ==> p[k] == s[k];
      StrictAgrees(p, v, failing);
    }
  }

  /** A null entry makes Raise() throw. */
  lemma {:induction false} StrictThrowsOnNull<T>(s: seq<Subscriber?>, v: T, failing: set<ResponseId>)
    requires null in s
    ensures CallsBackStrict(s, v, failing).threw
  {
    var x := s[|s| - 1];
    if x != null && !(x.messageResponse.Some? && x.messageResponse.value in failing) {
      assert s == s[..|s| - 1] + [x];
      StrictThrowsOnNull(s[..|s| - 1], v, failing);
    }
  }

  /** The caught backward loop. */
  method NotifyBack<T>(s: seq<Subscriber?>, v: T) returns (calls: seq<Call<T>>)
    ensures calls == CallsBack(s, v)
  {
    calls := [];
    var rest := s;
    while rest != []
      invariant calls + CallsBack(rest, v) == CallsBack(s, v)
    {
      var x := rest[|rest| - 1];
      if x != null && x.messageResponse.Some? {
        calls := calls + [Call(x.messageResponse.value, v)];
      }
      rest := rest[..|rest| - 1];
    }
  }


  /** The uncaught backward loop. */
  method NotifyBackStrict<T>(s: seq<Subscriber?>, v: T, failing: set<ResponseId>) returns (calls: seq<Call<T>>, threw: bool)
    ensures Strict(calls, threw) == CallsBackStrict(s, v, failing)
  {
    calls := [];
    var rest := s;
    while rest != []
      invariant var b := CallsBackStrict(rest, v, failing); Strict(calls + b.calls, b.threw) == CallsBackStrict(s, v, failing)
    {
      var x := rest[|rest| - 1];
      if x == null {
        return calls, true;
      }
      if x.messageResponse.Some? {
        calls := calls + [Call(x.messageResponse.value, v)];
        if x.messageResponse.value in failing {
          return calls, true;
        }
      }
      rest := rest[..|rest| - 1];
    }
    return calls, false;
  }

}

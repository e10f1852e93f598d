/**
 * The requirements a mission objective waits on.
 *
 * BaseActionObjective (ActionSO/MessageListener/BaseActionObjective.cs)
 * with AreaObjective and ItemActionObjective
 * (ActionSO/MessageListener/CollisionMessageListener.cs) is one class here,
 * ActionObjective, whose kind says which subclass it is. Likewise
 * BaseActionRequirement and ActionRequirement<T>
 * (Event/MessageListener/MessageListener.cs) with CollisionActionRequirement
 * and ItemActionRequirement (Event/MessageListener/CollisionMessageListener.cs)
 * are the class Requirement.
 *
 * An event payload is reduced to what the requirements read from it: the
 * collision's resolved other collider, or the item and quantity of an item
 * change. The delegates a requirement hands out are response ids, and the
 * callbacks and UnityEvents it invokes are kept as a log.
 */
module Requirements {
  import opened Wrappers
  import opened Subscribers
  import opened EventChannels
  import Inventory

  type ColliderId = nat
  type CallbackId = nat

  /** What an event carries: CollisionData's other collider, or ItemData's item and quantity. */
  datatype Payload =
    | Signal
    | CollisionPayload(other: Option<ColliderId>)
    | ItemPayload(item: Inventory.Item?, quantity: Inventory.Int32)

  /** Outside effects of completing, in order. */
  datatype Invocation = UnityEventInvoked | CallbackInvoked(id: CallbackId)

  // ---------------------------------------------------------------------
  // BaseActionObjective, AreaObjective, ItemActionObjective
  // ---------------------------------------------------------------------

  datatype ObjectiveKind =
    | AreaObjective(target: Option<ColliderId>)
    | ItemActionObjective(item: Inventory.Item?, quantityChange: Inventory.Int32)

  class ActionObjective {
    const kind: ObjectiveKind
    /** _isComplete, the one saved field of the base class. */
    var isComplete: bool
    /** AreaObjective: _parent, collisionAction and the callback event. */
    var parent: Option<UnityObject>
    var collisionAction: ActionSO?<Payload>
    var callback: Option<CallbackId>
    /** ItemActionObjective's saved running total. */
    var currentDelta: Inventory.Int32
    var invoked: seq<Invocation>

    constructor (kind: ObjectiveKind, collisionAction: ActionSO?<Payload>)
      ensures this.kind == kind && this.collisionAction == collisionAction
      ensures !isComplete && parent.None? && callback.None? && currentDelta == 0 && invoked == []
    {
      this.kind := kind;
      this.collisionAction := collisionAction;
      isComplete := false;
      parent := None;
      callback := None;
      currentDelta := 0;
      invoked := [];
    }

    /** The HasCompleteAction getter. */
    function HasCompleteAction(): (r: bool)
      reads this
      ensures r == isComplete
    {
      isComplete
    }

    /** The HasCompleteAction setter: only the flag changes. */
    method SetHasCompleteAction(value: bool)
      modifies this
      ensures HasCompleteAction() == value
      ensures parent == old(parent) && callback == old(callback) && currentDelta == old(currentDelta)
      ensures invoked == old(invoked) && collisionAction == old(collisionAction)
    {
      isComplete := value;
    }

    /** Complete: the requirement is met. */
    method Complete()
      modifies this
      ensures HasCompleteAction()
      ensures parent == old(parent) && callback == old(callback) && currentDelta == old(currentDelta)
      ensures invoked == old(invoked) && collisionAction == old(collisionAction)
    {
      isComplete := true;
    }

    /** Reset: the requirement is open again. */
    method Reset()
      modifies this
      ensures !HasCompleteAction()
      ensures parent == old(parent) && callback == old(callback) && currentDelta == old(currentDelta)
      ensures invoked == old(invoked) && collisionAction == old(collisionAction)
    {
      isComplete := false;
    }

    /**
     * Setup. For an area objective: the parent is recorded, `response`
     * (its OnEventRaised) is subscribed to the collision action under the
     * parent and method name, and the callback stored; a missing action
     * throws after the parent is recorded, and the exception is logged. An
     * item objective does nothing.
     */
    method Setup(origin: Option<UnityObject>, methodName: string, cb: Option<CallbackId>, response: ResponseId)
      returns (logged: bool)
      modifies this, collisionAction
      ensures collisionAction == old(collisionAction) && isComplete == old(isComplete)
      ensures currentDelta == old(currentDelta) && invoked == old(invoked)
      ensures logged <==> kind.AreaObjective? && collisionAction == null
      ensures kind.ItemActionObjective? ==> parent == old(parent) && callback == old(callback)
      ensures kind.AreaObjective? ==> parent == origin
      ensures kind.AreaObjective? ==> callback == if logged then old(callback) else cb
      ensures kind.AreaObjective? && collisionAction != null ==>
                var subs := collisionAction.messageSubscribers;
                && |subs| == |old(collisionAction.messageSubscribers)| + 1
                && subs[..|subs| - 1] == old(collisionAction.messageSubscribers)
                && subs[|subs| - 1] != null && subs[|subs| - 1].origin == origin
                && subs[|subs| - 1].methodName == Some(methodName) && subs[|subs| - 1].messageResponse == Some(response)
      ensures collisionAction != null ==>
                && collisionAction.baseSubscribers == old(collisionAction.baseSubscribers)
                && collisionAction.hasRaised == old(collisionAction.hasRaised)
                && collisionAction.storedValue == old(collisionAction.storedValue)
                && collisionAction.calls == old(collisionAction.calls)
      ensures kind.ItemActionObjective? && collisionAction != null ==>
                collisionAction.messageSubscribers == old(collisionAction.messageSubscribers)
    {
      if kind.ItemActionObjective? {
        return false;
      }
      parent := origin;
      if collisionAction == null {
        return true;
      }
      collisionAction.Subscribe(origin, Some(methodName), response);
      parent := origin;
      callback := cb;
      return false;
    }

    /**
     * Dispose. For an area objective: Unsubscribe on the collision action,
     * whose exceptions, and a missing action, are logged. An item
     * objective does nothing.
     */
    method Dispose(origin: Option<UnityObject>, methodName: string) returns (logged: bool)
      modifies collisionAction
      ensures kind.ItemActionObjective? ==> !logged
      ensures kind.AreaObjective? && collisionAction == null ==> logged
      ensures kind.AreaObjective? && collisionAction != null ==>
                Lists(collisionAction.baseSubscribers, collisionAction.messageSubscribers, logged)
                == old(UnsubscribeLists(collisionAction.baseSubscribers, collisionAction.messageSubscribers,
                                        origin, methodName, ActionFamily))
      ensures kind.ItemActionObjective? && collisionAction != null ==> unchanged(collisionAction)
    {
      if kind.ItemActionObjective? {
        return false;
      }
      if collisionAction == null {
        return true;
      }
      logged := collisionAction.Unsubscribe(origin, methodName);
    }

    /**
     * AreaObjective.OnEventRaised: a collision whose other collider is not
     * the target is ignored; otherwise the objective completes and then
     * the stored callback, if any, is invoked.
     */
    method OnEventRaised(value: Payload)
      requires kind.AreaObjective? && value.CollisionPayload?
      modifies this
      ensures parent == old(parent) && callback == old(callback) && currentDelta == old(currentDelta)
      ensures value.other != kind.target ==> isComplete == old(isComplete) && invoked == old(invoked)
      ensures value.other == kind.target ==>
                isComplete && invoked == old(invoked) + (if callback.Some? then [CallbackInvoked(callback.value)] else [])
    {
      if value.other != kind.target {
        return;
      }
      Complete();
      if callback.Some? {
        invoked := invoked + [CallbackInvoked(callback.value)];
      }
    }
  }

  // ---------------------------------------------------------------------
  // BaseActionRequirement, ActionRequirement<T> and its two subclasses
  // ---------------------------------------------------------------------

  datatype RequirementKind =
    | PlainRequirement
    | CollisionRequirement(target: Option<ColliderId>)
    | ItemRequirement(item: Inventory.Item?, quantityChange: Inventory.Int32)

  /** Whether a payload is of the type the requirement's event carries. */
  predicate Carries(kind: RequirementKind, value: Payload)
  {
    match kind
    case PlainRequirement => true
    case CollisionRequirement(_) => value.CollisionPayload?
    case ItemRequirement(_, _) => value.ItemPayload?
  }

  /**
   * ItemActionRequirement's counter step: the quantity is added with C#
   * int wrap-around, and reaching the target clamps the total to it and
   * completes.
   */
  function CountStep(delta: Inventory.Int32, target: Inventory.Int32, quantity: Inventory.Int32): (r: (Inventory.Int32, bool))
    ensures r.1 <==> Inventory.AddInt(delta, quantity) >= target
    ensures r.1 ==> r.0 == target
    ensures !r.1 ==> r.0 == Inventory.AddInt(delta, quantity)
    ensures r.0 <= target
  {
    var sum := Inventory.AddInt(delta, quantity);
    if sum >= target then (target, true) else (sum, false)
  }

  /**
   * Without wrap-around, a run of non-negative quantities completes a
   * counter below its target once their total reaches it.
   */
  lemma {:induction false} CountReachesTarget(delta: Inventory.Int32, target: Inventory.Int32, qs: seq<Inventory.Int32>)
    requires forall k :: 0 <= k < |qs| ==> qs[k] >= 0
    requires delta + Sum(qs) < 0x8000_0000
    requires delta < target <= delta + Sum(qs)
    ensures Counted(delta, target, qs).1
    decreases |qs|
  {
    if qs != [] {
      var step := CountStep(delta, target, qs[0]);
      assert forall k :: 0 <= k < |qs[1..]| ==> qs[1..][k] == qs[k + 1];
      SumNonNegative(qs[1..]);
      assert step.0 == delta + qs[0] || step.1;
      if !step.1 {
        CountReachesTarget(step.0, target, qs[1..]);
      }
    }
  }

  /** The sum of a run of quantities. */
  function Sum(qs: seq<int>): int
  {
    if qs == [] then 0 else qs[0] + Sum(qs[1..])
  }

  lemma {:induction false} SumNonNegative(qs: seq<int>)
    requires forall k :: 0 <= k < |qs| ==> qs[k] >= 0
    ensures Sum(qs) >= 0
  {
    if qs != [] {
      SumNonNegative(qs[1..]);
    }
  }

  /** The counter after a run of matching item events: its total, and whether it completed. */
  function Counted(delta: Inventory.Int32, target: Inventory.Int32, qs: seq<Inventory.Int32>): (Inventory.Int32, bool)
    decreases |qs|
  {
    if qs == [] then (delta, false)
    else
      var step := CountStep(delta, target, qs[0]);
      if step.1 then (step.0, true) else Counted(step.0, target, qs[1..])
  }

  class Requirement {
    const kind: RequirementKind
    /** _isComplete, saved. */
    var isComplete: bool
    /** ItemActionRequirement's saved running total. */
    var currentDelta: Inventory.Int32
    /** _event, _parent and messageCallback. */
    var event: EventSO?<Payload>
    var parent: Option<UnityObject>
    var messageCallback: Option<CallbackId>
    var invoked: seq<Invocation>

    constructor (kind: RequirementKind, event: EventSO?<Payload>)
      ensures this.kind == kind && this.event == event
      ensures !isComplete && currentDelta == 0 && parent.None? && messageCallback.None? && invoked == []
    {
      this.kind := kind;
      this.event := event;
      isComplete := false;
      currentDelta := 0;
      parent := None;
      messageCallback := None;
      invoked := [];
    }

    /** The HasCompleteAction getter. */
    function HasCompleteAction(): (r: bool)
      reads this
      ensures r == isComplete
    {
      isComplete
    }

    /** Reset: the requirement is open again. */
    method Reset()
      modifies this
      ensures !HasCompleteAction()
      ensures currentDelta == old(currentDelta) && event == old(event) && parent == old(parent)
      ensures messageCallback == old(messageCallback) && invoked == old(invoked)
    {
      isComplete := false;
    }

    /**
     * Setup: the callback is stored, `response` (OnEventRaised) subscribed
     * to the event under the parent and method name, and the parent
     * recorded. A missing event throws after the callback is stored and
     * before the parent is recorded; the exception is logged.
     */
    method Setup(origin: Option<UnityObject>, methodName: string, cb: Option<CallbackId>, response: ResponseId)
      returns (logged: bool)
      modifies this, event
      ensures event == old(event) && isComplete == old(isComplete) && currentDelta == old(currentDelta)
      ensures invoked == old(invoked) && messageCallback == cb
      ensures logged <==> event == null
      ensures parent == if logged then old(parent) else origin
      ensures event != null ==>
                var subs := event.messageSubscribers;
                && |subs| == |old(event.messageSubscribers)| + 1
                && subs[..|subs| - 1] == old(event.messageSubscribers)
                && subs[|subs| - 1] != null && subs[|subs| - 1].origin == origin
                && subs[|subs| - 1].methodName == Some(methodName) && subs[|subs| - 1].messageResponse == Some(response)
    {
      messageCallback := cb;
      if event == null {
        return true;
      }
      event.Subscribe(origin, Some(methodName), response);
      parent := origin;
      return false;
    }

    /** Dispose: Unsubscribe on the event; its exceptions, and a missing event, are logged. */
    method Dispose(origin: Option<UnityObject>, methodName: string) returns (logged: bool)
      modifies event
      ensures event == null ==> logged
      ensures event != null ==>
                Lists(event.baseSubscribers, event.messageSubscribers, logged)
                == old(UnsubscribeLists(event.baseSubscribers, event.messageSubscribers, origin, methodName, EventFamily))
    {
      if event == null {
        return true;
      }
      logged := event.Unsubscribe(origin, methodName);
    }

    /** Complete: the flag set, then the UnityEvent, then the callback if one is stored. */
    method Complete()
      modifies this
      ensures HasCompleteAction()
      ensures invoked == old(invoked) + [UnityEventInvoked]
                         + (if messageCallback.Some? then [CallbackInvoked(messageCallback.value)] else [])
      ensures currentDelta == old(currentDelta) && event == old(event) && parent == old(parent)
      ensures messageCallback == old(messageCallback)
    {
      isComplete := true;
      invoked := invoked + [UnityEventInvoked];
      if messageCallback.Some? {
        invoked := invoked + [CallbackInvoked(messageCallback.value)];
      }
    }

    /**
     * OnEventRaised. A plain requirement always completes; a collision
     * requirement completes only for its target collider; an item
     * requirement ignores other items, adds the quantity and, on reaching
     * its target, clamps the total to it and completes.
     */
    method OnEventRaised(value: Payload)
      requires Carries(kind, value)
      modifies this
      ensures event == old(event) && parent == old(parent) && messageCallback == old(messageCallback)
      ensures var completes := match kind
                case PlainRequirement => true
                case CollisionRequirement(target) => value.other == target
                case ItemRequirement(item, target) =>
                  value.item == item && CountStep(old(currentDelta), target, value.quantity).1;
              && (completes ==> isComplete && invoked == old(invoked) + [UnityEventInvoked]
                                  + (if messageCallback.Some? then [CallbackInvoked(messageCallback.value)] else []))
              && (!completes ==> isComplete == old(isComplete) && invoked == old(invoked))
      ensures kind.ItemRequirement? && value.item == kind.item ==>
                currentDelta == CountStep(old(currentDelta), kind.quantityChange, value.quantity).0
      ensures !(kind.ItemRequirement? && value.item == kind.item) ==> currentDelta == old(currentDelta)
    {
      match kind
      case PlainRequirement =>
        Complete();
      case CollisionRequirement(target) =>
        if value.other != target {
          return;
        }
        Complete();
      case ItemRequirement(item, target) =>
        if value.item != item {
          return;
        }
        currentDelta := Inventory.AddInt(currentDelta, value.quantity);
        if currentDelta >= target {
          currentDelta := target;
          Complete();
        }
    }
  }
}

/**
 * VariableReference<T> (VariableReference.cs): a value that reads an
 * EventSO<T>'s last raised value when `isConstant` is set and an event is
 * assigned, and its own constant otherwise. Writing it stores the
 * constant and then raises the event.
 */
module VariableReferences {
  import opened Wrappers
  import opened Subscribers
  import opened EventChannels

  class VariableReference<T> {
    /** _event. */
    var event: EventSO?<T>
    /** _isConstant: set, the reference follows the event. */
    var isConstant: bool
    /** _constantValue. */
    var constantValue: T

    /** A fresh reference: no event, and _isConstant set as its field initialiser does. */
    constructor (constantValue: T)
      ensures event == null && isConstant && this.constantValue == constantValue
    {
      event := null;
      isConstant := true;
      this.constantValue := constantValue;
    }

    /** IsValid: an event is set, or the reference does not follow one. */
    predicate IsValid()
      reads this
    {
      event != null || !isConstant
    }

    /**
     * The CurrentValue getter: the event's last raised value when the
     * reference follows an event that is set, and the constant otherwise.
     * The guard rules out a null event wherever the event is read, so the
     * getter's catch never runs.
     */
    function CurrentValue(): (v: T)
      reads this, event
      ensures isConstant && event != null ==> v == event.lastValueRaised
      ensures !(isConstant && event != null) ==> v == constantValue
    {
      if isConstant && IsValid() then event.lastValueRaised else constantValue
    }

    /**
     * The CurrentValue setter: the constant is stored first, then the event
     * is raised with the value, which throws when there is no event. The
     * value reads back unless the event was followed and its sweep threw.
     */
    method SetCurrentValue(v: T) returns (threw: bool)
      modifies this, event
      ensures constantValue == v && event == old(event) && isConstant == old(isConstant)
      ensures event == null ==> threw
      ensures event != null ==>
                Lists(event.baseSubscribers, event.messageSubscribers, threw)
                == old(RemoveNulls(event.baseSubscribers, event.messageSubscribers, EventFamily))
                && event.calls == old(event.calls + RaiseCalls(event.baseSubscribers, event.messageSubscribers, EventFamily, v))
      ensures !threw || !isConstant ==> CurrentValue() == v
    {
      constantValue := v;
      if event == null {
        return true;
      }
      threw := event.Raise(v);
    }

    /** GetEvent. */
    function GetEvent(): (e: EventSO?<T>)
      reads this
      ensures e == event
    {
      event
    }

    /** SetEvent: GetEvent returns the event just set, and nothing else changes. */
    method SetEvent(e: EventSO?<T>)
      modifies this
      ensures GetEvent() == e
      ensures isConstant == old(isConstant) && constantValue == old(constantValue)
    {
      event := e;
    }
  }
}

/**
 * Objective (Mission/Objective.cs), its subclass FreeformTriggerObjective
 * (Mission/FreeformTriggerObjective.cs), and Mission (Mission/Mission.cs).
 *
 * An objective is Locked while it has prerequisites, InProgress once
 * started or unlocked, and Completed when done; its progress state is one
 * of three state assets, or none before Init and after the editor stops,
 * and reading the kind of a missing state throws. A mission reports the
 * start and completion of its objectives, and its own completion, to its
 * data manager; the data manager class in this repository does not declare
 * those three methods, so the calls are kept as a log on the mission.
 *
 * A freeform trigger objective is an Objective whose `freeform` flag is
 * set: it tracks which triggers of a runtime set have been entered by a
 * collider with the expected tag and completes once all have.
 */
module Objectives {
  import opened Wrappers
  import RuntimeSets
  import MissionObjectives

  type TriggerId = nat
  type ColliderId = nat

  /** LockedObjective, InProgressObjective and CompletedObjective, the three state assets. */
  datatype StateKind = LockedState | InProgressState | CompletedState

  /** The calls a mission makes on its data manager. */
  datatype ManagerCall =
    | ObjectiveStarted(objective: Objective)
    | ObjectiveCompleted(objective: Objective)
    | MissionCompleted(mission: Mission)

  /** CollisionEnteredData: a trigger, whether it has been entered, and by which collider. */
  datatype Tracked = Tracked(trigger: TriggerId, entered: bool, other: Option<ColliderId>)

  /** IsCompleted of a missing state throws; otherwise whether it is the completed state. */
  function StateIsCompleted(o: Objective): (r: Outcome<bool>)
    reads o
    ensures r.Threw? <==> o.progressState.None?
    ensures r == Returned(true) <==> o.progressState == Some(CompletedState)
  {
    if o.progressState.None? then Threw else Returned(o.progressState.value == CompletedState)
  }

  /**
   * The loop of Mission.IsCompleted and of ValidatePrerequisites: the
   * objectives in order, false at the first that is not completed, and an
   * exception at a null entry or a missing state reached before that.
   */
  function AllCompleted(objs: seq<Objective?>): (r: Outcome<bool>)
    reads objs
  {
    if objs == [] then Returned(true)
    else if objs[0] == null then Threw
    else match StateIsCompleted(objs[0])
      case Threw => Threw
      case Returned(c) => if !c then Returned(false) else AllCompleted(objs[1..])
  }

  /** An objective that is there and in the completed state. */
  predicate Done(o: Objective?)
    reads o
  {
    o != null && o.progressState == Some(CompletedState)
  }

  /**
   * AllCompleted is true exactly when every entry is an objective in the
   * completed state, so also for no objectives at all.
   */
  lemma {:induction false} AllCompletedTrue(objs: seq<Objective?>)
    ensures AllCompleted(objs) == Returned(true) <==> forall k :: 0 <= k < |objs| ==> Done(objs[k])
  {
    if objs != [] {
      var t := objs[1..];
      AllCompletedTrue(t);
      assert forall k :: 0 <= k < |t| ==> t[k] == objs[k + 1];
      if forall k :: 0 <= k < |t| ==> Done(t[k]) {
        assert forall k :: 1 <= k < |objs| ==> Done(objs[k]) by {
          forall k | 1 <= k < |objs|
            ensures Done(objs[k])
          {
            assert objs[k] == t[k - 1];
          }
        }
      }
    }
  }

  /** Entry `i` is the first that is not completed, and it has a state. */
  predicate FirstIncomplete(objs: seq<Objective?>, i: int)
    reads objs
  {
    0 <= i < |objs| && objs[i] != null && objs[i].progressState.Some? && !Done(objs[i])
    && forall k :: 0 <= k < i ==> Done(objs[k])
  }

  /**
   * AllCompleted is false exactly when some objective has a state other
   * than completed and every entry before it is completed.
   */
  lemma {:induction false} AllCompletedFalse(objs: seq<Objective?>)
    ensures AllCompleted(objs) == Returned(false) <==> exists i :: FirstIncomplete(objs, i)
  {
    if objs != [] {
      var t := objs[1..];
      AllCompletedFalse(t);
      if AllCompleted(objs) == Returned(false) && Done(objs[0]) {
        var i :| FirstIncomplete(t, i);
        assert forall k :: 0 <= k < i ==> t[k] == objs[k + 1];
        assert FirstIncomplete(objs, i + 1);
      } else if AllCompleted(objs) == Returned(false) {
        assert FirstIncomplete(objs, 0);
      }
      if exists i :: FirstIncomplete(objs, i) {
        var i :| FirstIncomplete(objs, i);
        if i > 0 {
          assert forall k :: 0 <= k < i - 1 ==> t[k] == objs[k + 1];
          assert FirstIncomplete(t, i - 1);
        }
      }
    }
  }

  /** The ObjectiveStarted calls Mission.Init makes: one per objective without prerequisites, in order. */
  function StartedCalls(objs: seq<Objective?>): (r: seq<ManagerCall>)
    ensures |r| <= |objs|
  {
    if objs == [] then [] else StartedCall(objs[0]) + StartedCalls(objs[1..])
  }

  /** The call Init makes for one objective, if it makes one. */
  function StartedCall(o: Objective?): (r: seq<ManagerCall>)
    ensures |r| <= 1
  {
    if o == null || o.StartLocked() then [] else [ObjectiveStarted(o)]
  }

  /** Every call StartedCalls lists starts one of the objectives, and every objective without prerequisites is started. */
  lemma {:induction false} StartedCallsSpec(objs: seq<Objective?>)
    ensures forall j :: 0 <= j < |StartedCalls(objs)| ==>
              StartedCalls(objs)[j].ObjectiveStarted? && StartedCalls(objs)[j].objective in objs
              && !StartedCalls(objs)[j].objective.StartLocked()
    ensures forall k :: 0 <= k < |objs| && objs[k] != null && !objs[k].StartLocked() ==>
              ObjectiveStarted(objs[k]) in StartedCalls(objs)
  {
    if objs != [] {
      var t := objs[1..];
      StartedCallsSpec(t);
      assert forall k :: 0 <= k < |t| ==> t[k] == objs[k + 1];
    }
  }

  /** Whether Objective.Init throws, from the objective's configuration alone. */
  predicate InitThrows(o: Objective, manager: MissionObjectives.MissionDataManager?)
  {
    (!o.StartLocked() && manager == null) || (o.freeform && (o.triggerSet == null || !o.hasChannel))
  }

  /** The position of the first tracked entry for `trigger`: List.Find's match. */
  function FindTracked(s: seq<Tracked>, trigger: TriggerId): (r: Option<nat>)
    ensures r.Some? ==> r.value < |s| && s[r.value].trigger == trigger
    ensures r.Some? ==> forall k :: 0 <= k < r.value ==> s[k].trigger != trigger
    ensures r.None? ==> forall k :: 0 <= k < |s| ==> s[k].trigger != trigger
  {
    if s == [] then None
    else if s[0].trigger == trigger then Some(0)
    else match FindTracked(s[1..], trigger)
      case None => None
      case Some(i) => Some(i + 1)
  }

  /**
   * The number of subscriptions a freeform objective holds on its collider
   * channel after OnSceneStopped, given how many it held: as written
   * (`disposes` false) the count is untouched, because SceneDispose runs
   * after IsActive has been cleared and so returns before unsubscribing.
   */
  function AfterSceneStop(subscriptions: nat, disposes: bool): (r: nat)
    ensures disposes ==> r == 0
    ensures !disposes ==> r == subscriptions
  {
    if disposes then 0 else subscriptions
  }

  /**
   * The subscriptions after `cycles` scene cycles of an active freeform
   * objective: each OnSceneStarted subscribes once more, each
   * OnSceneStopped ends the cycle.
   */
  function AfterCycles(start: nat, cycles: nat, disposes: bool): (r: nat)
  {
    if cycles == 0 then start else AfterSceneStop(AfterCycles(start, cycles - 1, disposes) + 1, disposes)
  }

  /**
   * As written, the subscriptions pile up: after n scene cycles the
   * objective is subscribed n times more than before, so each collider
   * message then reaches OnTriggerEnterMessage n times.
   */
  lemma {:induction false} SubscriptionsPileUp(start: nat, cycles: nat)
    ensures AfterCycles(start, cycles, false) == start + cycles
  {
    if cycles > 0 {
      SubscriptionsPileUp(start, cycles - 1);
    }
  }

  /** Disposing on scene stop, as evidently intended, leaves no subscription after any number of cycles. */
  lemma {:induction false} SubscriptionsDisposed(start: nat, cycles: nat)
    requires cycles > 0
    ensures AfterCycles(start, cycles, true) == 0
  {
  }

  /** The trackingCollisions array InitializeTrackingCollisions builds: one entry per trigger, none entered. */
  method NewTracking(items: seq<TriggerId>) returns (a: array<Tracked>)
    ensures fresh(a) && a.Length == |items|
    ensures forall k :: 0 <= k < a.Length ==> a[k] == Tracked(items[k], false, None)
  {
    a := new Tracked[|items|];
    for i := 0 to |items|
      invariant forall k :: 0 <= k < i ==> a[k] == Tracked(items[k], false, None)
    {
      a[i] := Tracked(items[i], false, None);
    }
  }

  class Objective {
    /** The prerequisites array; StartLocked reads its length. */
    const prerequisites: seq<Objective?>
    /** Whether this is a FreeformTriggerObjective, and that subclass's configuration. */
    const freeform: bool
    const triggerSet: RuntimeSets.RuntimeSet?<TriggerId>
    const hasChannel: bool
    const disableTriggersOnEnter: bool

    var attachedMission: Mission?
    var progressState: Option<StateKind>
    var isActive: bool
    /** Whether lastCompletedObjectiveVR has an event, and this objective's subscriptions to it. */
    var hasCompletionEvent: bool
    var completionSubscriptions: nat
    /** FreeformTriggerObjective: trackingCollisions, the channel subscriptions, the triggers switched off. */
    var tracking: array?<Tracked>
    var channelSubscriptions: nat
    var disabledTriggers: seq<TriggerId>

    constructor (prerequisites: seq<Objective?>, freeform: bool, triggerSet: RuntimeSets.RuntimeSet?<TriggerId>,
                 hasChannel: bool, disableTriggersOnEnter: bool)
      ensures this.prerequisites == prerequisites && this.freeform == freeform && this.triggerSet == triggerSet
      ensures this.hasChannel == hasChannel && this.disableTriggersOnEnter == disableTriggersOnEnter
      ensures attachedMission == null && progressState.None? && !isActive && !hasCompletionEvent
      ensures completionSubscriptions == 0 && tracking == null && channelSubscriptions == 0 && disabledTriggers == []
    {
      this.prerequisites := prerequisites;
      this.freeform := freeform;
      this.triggerSet := triggerSet;
      this.hasChannel := hasChannel;
      this.disableTriggersOnEnter := disableTriggersOnEnter;
      attachedMission := null;
      progressState := None;
      isActive := false;
      hasCompletionEvent := false;
      completionSubscriptions := 0;
      tracking := null;
      channelSubscriptions := 0;
      disabledTriggers := [];
    }

    /** startLocked: whether there are prerequisites. */
    predicate StartLocked()
    {
      |prerequisites| > 0
    }

    /** IsLocked: a missing state throws. */
    function IsLocked(): (r: Outcome<bool>)
      reads this
      ensures r.Threw? <==> progressState.None?
      ensures r == Returned(true) <==> progressState == Some(LockedState)
    {
      if progressState.None? then Threw else Returned(progressState.value == LockedState)
    }

    /** IsInProgress: a missing state throws. */
    function IsInProgress(): (r: Outcome<bool>)
      reads this
      ensures r.Threw? <==> progressState.None?
      ensures r == Returned(true) <==> progressState == Some(InProgressState)
    {
      if progressState.None? then Threw else Returned(progressState.value == InProgressState)
    }

    /** At most one of IsLocked, IsInProgress and IsCompleted holds, and one does whenever there is a state. */
    lemma StatesExclusive()
      ensures progressState.Some? ==>
                (IsLocked() == Returned(true)) || (IsInProgress() == Returned(true)) || (StateIsCompleted(this) == Returned(true))
      ensures !(IsLocked() == Returned(true) && IsInProgress() == Returned(true))
      ensures !(IsLocked() == Returned(true) && StateIsCompleted(this) == Returned(true))
      ensures !(IsInProgress() == Returned(true) && StateIsCompleted(this) == Returned(true))
    {
    }

    /**
     * ValidateContext: a mission is attached and the objective is in
     * progress, the second read only when the first holds. A freeform
     * objective first needs a non-empty trigger set; a missing set throws.
     */
    function ValidateContext(): (r: Outcome<bool>)
      reads this, triggerSet
      ensures !freeform ==>
                (r.Threw? <==> attachedMission != null && progressState.None?)
                && (r == Returned(true) <==> attachedMission != null && progressState == Some(InProgressState))
      ensures freeform ==>
                (r.Threw? <==> triggerSet == null || (triggerSet.items != [] && attachedMission != null && progressState.None?))
                && (r == Returned(true) <==>
                      triggerSet != null && triggerSet.items != [] && attachedMission != null
                      && progressState == Some(InProgressState))
    {
      if freeform && triggerSet == null then Threw
      else if freeform && triggerSet.items == [] then Returned(false)
      else if attachedMission == null then Returned(false)
      else IsInProgress()
    }

    /**
     * ValidatePrerequisites: true when not Locked, and otherwise whether
     * every prerequisite is completed; a missing state throws.
     */
    function ValidatePrerequisites(): (r: Outcome<bool>)
      reads this, prerequisites
      ensures progressState.None? ==> r.Threw?
      ensures progressState.Some? && progressState != Some(LockedState) ==> r == Returned(true)
      ensures progressState == Some(LockedState) ==> r == AllCompleted(prerequisites)
    {
      match IsLocked()
      case Threw => Threw
      case Returned(locked) => if !locked then Returned(true) else AllCompleted(prerequisites)
    }

    /** HasEnteredAllTriggers: false while inactive; otherwise every tracked entry entered, a missing array throwing. */
    function HasEnteredAllTriggers(): (r: Outcome<bool>)
      reads this, tracking
      ensures !isActive ==> r == Returned(false)
      ensures isActive && tracking == null ==> r.Threw?
      ensures isActive && tracking != null ==> (r == Returned(true) <==> forall k :: 0 <= k < tracking.Length ==> tracking[k].entered)
      ensures isActive && tracking != null ==> r.Returned?
    {
      if !isActive then Returned(false)
      else if tracking == null then Threw
      else Returned(forall k :: 0 <= k < tracking.Length ==> tracking[k].entered)
    }

    /** SetActive. */
    method SetActive(value: bool)
      modifies this
      ensures isActive == value
      ensures progressState == old(progressState) && attachedMission == old(attachedMission) && tracking == old(tracking)
    {
      isActive := value;
    }

    /** Update: it only reads the state's kind, which throws when there is none. */
    method Update() returns (threw: bool)
      ensures threw <==> progressState.None?
    {
      threw := progressState.None?;
    }

    /**
     * InitializeTrackingCollisions: the array is cleared, then rebuilt with
     * one not-yet-entered entry per trigger of the set, in the set's
     * order, and the objective subscribes to the channel. A missing set
     * throws before the array is built, and a missing channel after.
     */
    method InitializeTracking() returns (threw: bool)
      modifies this
      ensures threw <==> triggerSet == null || !hasChannel
      ensures triggerSet == null ==> tracking == null
      ensures triggerSet != null ==>
                tracking != null && fresh(tracking) && tracking.Length == |triggerSet.items|
                && forall k :: 0 <= k < tracking.Length ==> tracking[k] == Tracked(triggerSet.items[k], false, None)
      ensures channelSubscriptions == old(channelSubscriptions) + (if threw then 0 else 1)
      ensures progressState == old(progressState) && attachedMission == old(attachedMission) && isActive == old(isActive)
      ensures completionSubscriptions == old(completionSubscriptions) && hasCompletionEvent == old(hasCompletionEvent)
      ensures disabledTriggers == old(disabledTriggers)
    {
      tracking := null;
      if triggerSet == null {
        return true;
      }
      tracking := NewTracking(triggerSet.items);
      if !hasChannel {
        return true;
      }
      channelSubscriptions := channelSubscriptions + 1;
      return false;
    }

    /**
     * Init: the mission attached. With prerequisites the objective is
     * inactive and Locked; without, it is InProgress and active and the
     * mission reports the start, which throws when there is no mission or
     * the mission has no manager. A freeform objective then initialises
     * its tracking.
     */
    method Init(mission: Mission?) returns (threw: bool)
      modifies this, mission
      ensures attachedMission == mission
      ensures progressState == Some(if StartLocked() then LockedState else InProgressState)
      ensures isActive == !StartLocked()
      ensures threw <==> InitThrows(this, if mission == null then null else old(mission.missionDataManager))
      ensures mission != null ==>
                mission.missionDataManager == old(mission.missionDataManager)
                && mission.sent == old(mission.sent)
                   + (if StartLocked() || mission.missionDataManager == null then [] else [ObjectiveStarted(this)])
      ensures completionSubscriptions == old(completionSubscriptions) && hasCompletionEvent == old(hasCompletionEvent)
      ensures disabledTriggers == old(disabledTriggers)
      ensures !freeform ==> tracking == old(tracking) && channelSubscriptions == old(channelSubscriptions)
    {
      attachedMission := mission;
      if StartLocked() {
        isActive := false;
        progressState := Some(LockedState);
      } else {
        progressState := Some(InProgressState);
        isActive := true;
        if mission == null {
          return true;
        }
        threw := mission.StartObjective(this);
        if threw {
          return;
        }
      }
      if freeform {
        threw := InitializeTracking();
      } else {
        threw := false;
      }
    }

    /**
     * Unlock: a missing state or mission throws NullReferenceException, a
     * state other than Locked InvalidOperationException. Otherwise the
     * objective is InProgress and the mission reports the start; when that
     * throws, for want of a manager, the exception is logged and the
     * objective stays inactive.
     */
    method Unlock() returns (threw: bool)
      modifies this, attachedMission
      ensures threw <==> old(progressState) != Some(LockedState) || old(attachedMission) == null
      ensures threw ==> progressState == old(progressState) && isActive == old(isActive)
      ensures attachedMission == old(attachedMission)
      ensures !threw ==>
                progressState == Some(InProgressState)
                && isActive == (old(isActive) || attachedMission.missionDataManager != null)
                && attachedMission.missionDataManager == old(attachedMission.missionDataManager)
                && attachedMission.sent == old(attachedMission.sent)
                   + (if attachedMission.missionDataManager == null then [] else [ObjectiveStarted(this)])
      ensures tracking == old(tracking) && channelSubscriptions == old(channelSubscriptions)
    {
      if progressState.None? || attachedMission == null {
        return true;
      }
      if progressState.value != LockedState {
        return true;
      }
      progressState := Some(InProgressState);
      var failed := attachedMission.StartObjective(this);
      if !failed {
        isActive := true;
      }
      return false;
    }

    /**
     * Complete: the completed state, then the mission told; a missing
     * mission, and anything the mission throws, is logged.
     */
    method Complete()
      modifies this, attachedMission
      ensures progressState == Some(CompletedState)
      ensures attachedMission == old(attachedMission) && isActive == old(isActive)
      ensures tracking == old(tracking) && channelSubscriptions == old(channelSubscriptions)
      ensures disabledTriggers == old(disabledTriggers)
      ensures attachedMission != null ==>
                attachedMission.missionDataManager == old(attachedMission.missionDataManager)
                && attachedMission.sent == old(attachedMission.sent) + attachedMission.CompletionCalls(this)
    {
      progressState := Some(CompletedState);
      if attachedMission == null {
        return;
      }
      var _ := attachedMission.CompleteObjective(this);
    }

    /**
     * OnObjectiveCompleted: when Locked with every prerequisite completed,
     * the objective unlocks. Reading a missing state, or a prerequisite
     * that is null or has no state, throws.
     */
    method OnObjectiveCompleted() returns (threw: bool)
      modifies this, attachedMission
      ensures var v := old(ValidatePrerequisites());
              threw <==> (old(progressState).None? || v.Threw?
                          || (old(progressState) == Some(LockedState) && v == Returned(true) && old(attachedMission) == null))
      ensures (old(progressState) == Some(LockedState) && old(ValidatePrerequisites()) == Returned(true)
               && old(attachedMission) != null) ==> progressState == Some(InProgressState)
      ensures !(old(progressState) == Some(LockedState) && old(ValidatePrerequisites()) == Returned(true)) ==>
                progressState == old(progressState) && isActive == old(isActive)
      ensures attachedMission == old(attachedMission)
    {
      match IsLocked()
      case Threw => return true;
      case Returned(locked) =>
        if !locked {
          return false;
        }
        match ValidatePrerequisites()
        case Threw => return true;
        case Returned(ok) =>
          if !ok {
            return false;
          }
          threw := Unlock();
    }

    /** OnEnable: an event missing from lastCompletedObjectiveVR is loaded, which may find none. */
    method OnEnable(loaded: bool)
      modifies this
      ensures hasCompletionEvent == (old(hasCompletionEvent) || loaded)
      ensures completionSubscriptions == old(completionSubscriptions) && progressState == old(progressState)
      ensures isActive == old(isActive)
    {
      if !hasCompletionEvent {
        hasCompletionEvent := loaded;
      }
    }

    /** OnDisable: every subscription of this objective to the completion event removed; a missing event throws. */
    method OnDisable() returns (threw: bool)
      modifies this
      ensures threw <==> !hasCompletionEvent
      ensures completionSubscriptions == if threw then old(completionSubscriptions) else 0
      ensures progressState == old(progressState) && isActive == old(isActive) && attachedMission == old(attachedMission)
    {
      if !hasCompletionEvent {
        return true;
      }
      completionSubscriptions := 0;
      return false;
    }

    /**
     * OnSceneStarted: IsActive becomes ValidateContext, then a Locked-at-
     * start objective subscribes to the completion event; a freeform
     * objective that is active then initialises its tracking.
     */
    method OnSceneStarted() returns (threw: bool)
      modifies this
      ensures old(ValidateContext()).Threw? ==> threw && isActive == old(isActive)
      ensures old(ValidateContext()).Returned? ==> isActive == old(ValidateContext()).value
      ensures old(ValidateContext()).Returned? && StartLocked() ==>
                completionSubscriptions == old(completionSubscriptions) + (if hasCompletionEvent then 1 else 0)
      ensures old(ValidateContext()).Returned? && StartLocked() && !hasCompletionEvent ==> threw
      ensures !StartLocked() ==> completionSubscriptions == old(completionSubscriptions)
      ensures old(ValidateContext()).Returned? && (!StartLocked() || hasCompletionEvent) && freeform && isActive ==>
                channelSubscriptions == old(channelSubscriptions) + (if triggerSet != null && hasChannel then 1 else 0)
      ensures !(freeform && isActive) ==> channelSubscriptions == old(channelSubscriptions)
      ensures progressState == old(progressState) && attachedMission == old(attachedMission)
      ensures hasCompletionEvent == old(hasCompletionEvent)
    {
      match ValidateContext()
      case Threw => return true;
      case Returned(v) =>
        isActive := v;
        if StartLocked() {
          if !hasCompletionEvent {
            return true;
          }
          completionSubscriptions := completionSubscriptions + 1;
        }
        if !freeform || !isActive {
          return false;
        }
        threw := InitializeTracking();
    }

    /**
     * SceneDispose: the tracking array emptied; an active objective then
     * unsubscribes everything from the channel, which throws when there is
     * no channel.
     */
    method SceneDispose() returns (threw: bool)
      modifies this
      ensures tracking != null && fresh(tracking) && tracking.Length == 0
      ensures threw <==> isActive && !hasChannel
      ensures channelSubscriptions == if isActive && hasChannel then 0 else old(channelSubscriptions)
      ensures isActive == old(isActive) && progressState == old(progressState) && attachedMission == old(attachedMission)
      ensures completionSubscriptions == old(completionSubscriptions)
    {
      tracking := new Tracked[0];
      if !isActive {
        return false;
      }
      if !hasChannel {
        return true;
      }
      channelSubscriptions := 0;
      return false;
    }

    /**
     * OnSceneStopped as written: IsActive cleared, then, for a freeform
     * objective, SceneDispose, which finds it inactive and so never
     * unsubscribes from the channel.
     */
    method OnSceneStopped()
      modifies this
      ensures !isActive
      ensures channelSubscriptions == AfterSceneStop(old(channelSubscriptions), false)
      ensures freeform ==> tracking != null && tracking.Length == 0
      ensures !freeform ==> tracking == old(tracking)
      ensures progressState == old(progressState) && attachedMission == old(attachedMission)
    {
      isActive := false;
      if freeform {
        var _ := SceneDispose();
      }
    }

    /**
     * OnSceneStopped as evidently intended: a freeform objective disposes
     * its scene subscriptions while still active, then IsActive is cleared.
     */
    method OnSceneStoppedChecked() returns (threw: bool)
      modifies this
      ensures !isActive
      ensures threw <==> freeform && old(isActive) && !hasChannel
      ensures channelSubscriptions
              == if freeform && hasChannel then AfterSceneStop(old(channelSubscriptions), old(isActive)) else old(channelSubscriptions)
      ensures progressState == old(progressState) && attachedMission == old(attachedMission)
    {
      threw := false;
      if freeform {
        threw := SceneDispose();
      }
      isActive := false;
    }

    /**
     * OnEditorStopped: inactive, no state, no mission, then every
     * subscription to the completion event removed; a missing event throws.
     */
    method OnEditorStopped() returns (threw: bool)
      modifies this
      ensures !isActive && progressState.None? && attachedMission == null
      ensures threw <==> !hasCompletionEvent
      ensures completionSubscriptions == if threw then old(completionSubscriptions) else 0
    {
      isActive := false;
      progressState := None;
      attachedMission := null;
      threw := OnDisable();
    }

    /**
     * OnTriggerEnterMessage: a message for a trigger outside the set, or
     * arriving while inactive, or whose other collider lacks the expected
     * tag, is ignored. Otherwise the first tracked entry for the trigger is
     * marked entered by that collider, the trigger switched off if so
     * configured, and the objective completes once every entry is entered.
     * A missing set throws, and so does a trigger with no tracked entry.
     */
    method OnTriggerEnterMessage(trigger: TriggerId, hasTag: bool, other: ColliderId) returns (threw: bool)
      modifies this, tracking, attachedMission
      ensures tracking == old(tracking) && isActive == old(isActive) && attachedMission == old(attachedMission)
      ensures triggerSet == null ==> threw
      ensures var ignored := triggerSet != null && (trigger !in triggerSet.items || !isActive || !hasTag);
              ignored ==> !threw && progressState == old(progressState) && disabledTriggers == old(disabledTriggers)
                          && (tracking != null ==> tracking[..] == old(tracking[..]))
      ensures var handled := triggerSet != null && trigger in triggerSet.items && isActive && hasTag;
              handled ==>
                (threw <==> tracking == null || FindTracked(old(tracking[..]), trigger).None?)
                && (threw ==> progressState == old(progressState) && disabledTriggers == old(disabledTriggers))
                && (!threw ==>
                      var i := FindTracked(old(tracking[..]), trigger).value;
                      tracking[..] == old(tracking[..])[i := Tracked(trigger, true, Some(other))]
                      && disabledTriggers == old(disabledTriggers) + (if disableTriggersOnEnter then [trigger] else [])
                      && (HasEnteredAllTriggers() == Returned(true) ==> progressState == Some(CompletedState))
                      && (HasEnteredAllTriggers() != Returned(true) ==> progressState == old(progressState)))
    {
      if triggerSet == null {
        return true;
      }
      if trigger !in triggerSet.items || !isActive {
        return false;
      }
      if !hasTag {
        return false;
      }
      if tracking == null {
        return true;
      }
      var found := FindTracked(tracking[..], trigger);
      if found.None? {
        return true;
      }
      var i := found.value;
      tracking[i] := Tracked(trigger, true, Some(other));
      if disableTriggersOnEnter {
        disabledTriggers := disabledTriggers + [trigger];
      }
      if HasEnteredAllTriggers() == Returned(true) {
        Complete();
      }
      return false;
    }
  }

  class Mission {
    /** The objectives array, in the order the enumerator yields them. */
    const objectives: seq<Objective?>
    var missionDataManager: MissionObjectives.MissionDataManager?
    /** The calls made on the data manager, in order. */
    var sent: seq<ManagerCall>

    constructor (objectives: seq<Objective?>)
      ensures this.objectives == objectives && missionDataManager == null && sent == []
    {
      this.objectives := objectives;
      missionDataManager := null;
      sent := [];
    }

    /** IsCompleted: every objective completed; see AllCompletedTrue and AllCompletedFalse. */
    function IsCompleted(): (r: Outcome<bool>)
      reads this, objectives
      ensures r == AllCompleted(objectives)
    {
      AllCompleted(objectives)
    }

    /** The calls CompleteObjective makes on a present manager: the objective's completion, then the mission's if it is now complete. */
    function CompletionCalls(o: Objective): (r: seq<ManagerCall>)
      reads this, objectives
      ensures missionDataManager == null ==> r == []
      ensures missionDataManager != null ==> |r| >= 1 && r[0] == ObjectiveCompleted(o)
      ensures MissionCompleted(this) in r <==> missionDataManager != null && IsCompleted() == Returned(true)
    {
      if missionDataManager == null then []
      else [ObjectiveCompleted(o)] + (if IsCompleted() == Returned(true) then [MissionCompleted(this)] else [])
    }

    /** StartObjective: reported to the manager; a missing manager throws. */
    method StartObjective(o: Objective) returns (threw: bool)
      modifies this
      ensures threw <==> missionDataManager == null
      ensures sent == old(sent) + (if threw then [] else [ObjectiveStarted(o)])
      ensures missionDataManager == old(missionDataManager)
    {
      if missionDataManager == null {
        return true;
      }
      sent := sent + [ObjectiveStarted(o)];
      return false;
    }

    /** CompleteMission: reported to the manager; a missing manager throws, and that is logged. */
    method CompleteMission()
      modifies this
      ensures sent == old(sent) + (if missionDataManager == null then [] else [MissionCompleted(this)])
      ensures missionDataManager == old(missionDataManager)
    {
      if missionDataManager == null {
        return;
      }
      sent := sent + [MissionCompleted(this)];
    }

    /**
     * CheckRemainingObjectives: CompleteMission exactly when IsCompleted
     * holds; an exception from IsCompleted escapes.
     */
    method CheckRemainingObjectives() returns (threw: bool)
      modifies this
      ensures threw <==> IsCompleted().Threw?
      ensures sent == old(sent)
                      + (if missionDataManager != null && IsCompleted() == Returned(true) then [MissionCompleted(this)] else [])
      ensures missionDataManager == old(missionDataManager)
    {
      match IsCompleted()
      case Threw => return true;
      case Returned(c) =>
        if c {
          CompleteMission();
        }
        return false;
    }

    /**
     * CompleteObjective: the completion reported to the manager, which
     * throws when there is none, then CheckRemainingObjectives.
     */
    method CompleteObjective(o: Objective) returns (threw: bool)
      modifies this
      ensures threw <==> missionDataManager == null || IsCompleted().Threw?
      ensures sent == old(sent) + CompletionCalls(o)
      ensures missionDataManager == old(missionDataManager)
    {
      if missionDataManager == null {
        return true;
      }
      sent := sent + [ObjectiveCompleted(o)];
      threw := CheckRemainingObjectives();
    }

    /** One step of Init: the objective initialised with this mission, and the start reported when it is unlocked. */
    method InitObjective(o: Objective) returns (threw: bool)
      modifies this, o
      ensures threw <==> InitThrows(o, missionDataManager)
      ensures Initialised(o, this) && missionDataManager == old(missionDataManager)
      ensures !threw ==> sent == old(sent) + StartedCall(o)
    {
      threw := o.Init(this);
    }

    /**
     * Init: the manager recorded, then every objective initialised with
     * this mission in array order; a null objective, or an exception from
     * an objective's Init, stops the loop.
     */
    method Init(manager: MissionObjectives.MissionDataManager?) returns (threw: bool)
      modifies this, objectives
      ensures missionDataManager == manager
      ensures threw <==> !InitSucceeds(objectives, manager)
      ensures !threw ==> forall k :: 0 <= k < |objectives| ==> Initialised(objectives[k], this)
      ensures !threw ==> sent == old(sent) + StartedCalls(objectives)
    {
      missionDataManager := manager;
      var i := 0;
      while i < |objectives|
        invariant 0 <= i <= |objectives| && missionDataManager == manager
        invariant forall k :: 0 <= k < i ==> objectives[k] != null && !InitThrows(objectives[k], manager)
        invariant forall k :: 0 <= k < i ==> Initialised(objectives[k], this)
        invariant sent + StartedCalls(objectives[i..]) == old(sent) + StartedCalls(objectives)
      {
        var o := objectives[i];
        if o == null {
          assert !InitSucceeds(objectives, manager) by {
            assert objectives[i] == null;
          }
          return true;
        }
        assert objectives[i..][1..] == objectives[i + 1..];
        ghost var before := sent;
        threw := InitObjective(o);
        if threw {
          assert !InitSucceeds(objectives, manager) by {
            assert InitThrows(objectives[i], manager);
          }
          return;
        }
        AppendAssoc(before, StartedCall(o), StartedCalls(objectives[i + 1..]));
        i := i + 1;
      }
      return false;
    }
  }

  /** Every entry is an objective whose Init does not throw. */
  predicate InitSucceeds(objs: seq<Objective?>, manager: MissionObjectives.MissionDataManager?)
  {
    forall k :: 0 <= k < |objs| ==> objs[k] != null && !InitThrows(objs[k], manager)
  }

  /** The state Objective.Init leaves: attached to the mission, active and InProgress without prerequisites, inactive and Locked with. */
  predicate Initialised(o: Objective?, m: Mission)
    reads o
  {
    o != null && o.attachedMission == m && o.isActive == !o.StartLocked()
    && o.progressState == Some(if o.StartLocked() then LockedState else InProgressState)
  }
}

/**
 * MissionObjective (Mission/MissionObjective.cs) and MissionDataManager
 * (Mission/MissionDataManager.cs).
 *
 * A mission objective moves through Locked, InProgress and Finished; it
 * sets up its requirements when started, completes once every requirement
 * is complete, and then reports itself to the data manager. The manager
 * keeps the ongoing and the completed objectives as lists of asset
 * references and re-initialises them on load.
 *
 * An asset reference is its GUID: ScriptableObjectReference's equality
 * compares GUIDs only, and its Value resolves the GUID through the asset
 * registry, which is the parameter `assets` here.
 */
module MissionObjectives {
  import opened Wrappers
  import Requirements
  import VariableReferences
  import RuntimeSets

  datatype Progress = Locked | InProgress | Finished

  /** ScriptableObjectReference<MissionObjective>, by its GUID. */
  datatype MissionRef = MissionRef(guid: string)

  /** What MissionObjective asks of its requirements, in order, by index. */
  datatype ActionStep = SetupCalled(index: nat) | DisposeCalled(index: nat)

  /** SetupActions or DisposeActions: one call per requirement, in list order. */
  function Steps(n: nat, setup: bool): (r: seq<ActionStep>)
    ensures |r| == n
    ensures forall k :: 0 <= k < n ==> r[k] == if setup then SetupCalled(k) else DisposeCalled(k)
  {
    if n == 0 then [] else Steps(n - 1, setup) + [if setup then SetupCalled(n - 1) else DisposeCalled(n - 1)]
  }

  /** How many requirements report HasCompleteAction. */
  function CountComplete(rs: seq<Requirements.ActionObjective>): (c: nat)
    reads rs
    ensures c <= |rs|
  {
    if rs == [] then 0 else CountComplete(rs[..|rs| - 1]) + (if rs[|rs| - 1].isComplete then 1 else 0)
  }

  /** The count reaches the number of requirements exactly when every one is complete; so always for none. */
  lemma {:induction false} CountCompleteAll(rs: seq<Requirements.ActionObjective>)
    ensures CountComplete(rs) == |rs| <==> forall k :: 0 <= k < |rs| ==> rs[k].isComplete
  {
    if rs != [] {
      var p := rs[..|rs| - 1];
      CountCompleteAll(p);
      assert forall k :: 0 <= k < |p| ==> p[k] == rs[k];
    }
  }

  /**
   * ResetEverything on the HasCompleteAction flags of distinct
   * requirements, as written: a Locked objective clears only the first
   * flag, any other clears them all. MissionObjective.ResetEverything
   * states the same flag by flag.
   */
  function ResetAsWritten(flags: seq<bool>, locked: bool): (r: seq<bool>)
    ensures |r| == |flags| && (flags != [] ==> !r[0])
    ensures locked ==> forall k :: 1 <= k < |flags| ==> r[k] == flags[k]
    ensures !locked ==> forall k :: 0 <= k < |flags| ==> !r[k]
  {
    if flags == [] then []
    else if locked then [false] + flags[1..]
    else seq(|flags|, _ => false)
  }

  /** ResetEverything as evidently intended: every flag cleared, whatever the progress. */
  function ResetIntended(flags: seq<bool>): (r: seq<bool>)
  {
    seq(|flags|, _ => false)
  }

  /**
   * Resetting a Locked objective as written, which OnEditorStopped always
   * does, leaves a completed second requirement completed.
   */
  lemma ResetLockedKeepsSecond()
    ensures ResetAsWritten([true, true], true) == [false, true]
    ensures ResetIntended([true, true]) == [false, false]
  {
    assert [true, true][1..] == [true];
  }

  /** The intended reset leaves no requirement complete and agrees with the written one on an objective that is not Locked. */
  lemma ResetIntendedClears(flags: seq<bool>)
    ensures forall k :: 0 <= k < |ResetIntended(flags)| ==> !ResetIntended(flags)[k]
    ensures |ResetIntended(flags)| == |flags|
    ensures ResetAsWritten(flags, false) == ResetIntended(flags)
  {
  }

  /** The position of the first reference that resolves to `o`, if any: FirstOrDefault's match. */
  function FindResolving(s: seq<MissionRef>, assets: map<string, MissionObjective>, o: MissionObjective): (r: Option<nat>)
    ensures r.Some? ==> r.value < |s| && s[r.value].guid in assets && assets[s[r.value].guid] == o
    ensures r.Some? ==> forall k :: 0 <= k < r.value ==> !(s[k].guid in assets && assets[s[k].guid] == o)
    ensures r.None? ==> forall k :: 0 <= k < |s| ==> !(s[k].guid in assets && assets[s[k].guid] == o)
  {
    if s == [] then None
    else if s[0].guid in assets && assets[s[0].guid] == o then Some(0)
    else match FindResolving(s[1..], assets, o)
      case None => None
      case Some(i) => Some(i + 1)
  }

  /**
   * CompleteObjective's list update as written: the first ongoing
   * reference resolving to the objective is removed and appended to the
   * completed list; when there is none, Remove(null) removes nothing and a
   * null is appended.
   */
  function MoveAsWritten(ongoing: seq<MissionRef>, completed: seq<Option<MissionRef>>,
                         assets: map<string, MissionObjective>, o: MissionObjective)
    : (r: (seq<MissionRef>, seq<Option<MissionRef>>))
    ensures |r.1| == |completed| + 1 && r.1[..|completed|] == completed
    ensures FindResolving(ongoing, assets, o).None? ==> r.0 == ongoing && r.1[|completed|].None?
    ensures FindResolving(ongoing, assets, o).Some? ==>
              var i := FindResolving(ongoing, assets, o).value;
              r.0 == ongoing[..i] + ongoing[i + 1..] && r.1[|completed|] == Some(ongoing[i])
  {
    match FindResolving(ongoing, assets, o)
    case None => (ongoing, completed + [None])
    case Some(i) =>
      RemovedFirstAt(ongoing, i);
      (RuntimeSets.RemovedFirst(ongoing, ongoing[i]), completed + [Some(ongoing[i])])
  }

  /** CompleteObjective's list update as evidently intended: an objective that is not ongoing leaves both lists alone. */
  function MoveChecked(ongoing: seq<MissionRef>, completed: seq<Option<MissionRef>>,
                       assets: map<string, MissionObjective>, o: MissionObjective)
    : (r: (seq<MissionRef>, seq<Option<MissionRef>>))
    ensures FindResolving(ongoing, assets, o).None? ==> r == (ongoing, completed)
    ensures FindResolving(ongoing, assets, o).Some? ==> r == MoveAsWritten(ongoing, completed, assets, o)
  {
    if FindResolving(ongoing, assets, o).None? then (ongoing, completed)
    else MoveAsWritten(ongoing, completed, assets, o)
  }

  /**
   * List.Remove of the first match: with no equal entry before position
   * `i`, it removes exactly the entry at `i`.
   */
  lemma {:induction false} RemovedFirstAt(s: seq<MissionRef>, i: nat)
    requires i < |s| && forall k :: 0 <= k < i ==> s[k] != s[i]
    ensures RuntimeSets.RemovedFirst(s, s[i]) == s[..i] + s[i + 1..]
  {
    if i > 0 {
      var t := s[1..];
      assert t[i - 1] == s[i];
      assert forall k :: 0 <= k < i - 1 ==> t[k] == s[k + 1];
      RemovedFirstAt(t, i - 1);
      assert t[..i - 1] == s[1..i] && t[i..] == s[i + 1..];
      assert s[..i] == [s[0]] + s[1..i];
    }
  }

  /** Whether OnLoad throws: an ongoing reference that does not resolve, or a completed entry that is null or does not resolve. */
  predicate LoadFails(ongoing: seq<MissionRef>, completed: seq<Option<MissionRef>>, assets: map<string, MissionObjective>)
  {
    (exists k :: 0 <= k < |ongoing| && ongoing[k].guid !in assets)
    || (exists k :: 0 <= k < |completed| && (completed[k].None? || completed[k].value.guid !in assets))
  }

  /**
   * The null CompleteObjective appends: completing an objective that is not
   * ongoing leaves a null in the completed list, on which every later
   * OnLoad throws.
   */
  lemma CompleteNotOngoingBreaksLoad(ongoing: seq<MissionRef>, completed: seq<Option<MissionRef>>,
                                     assets: map<string, MissionObjective>, o: MissionObjective)
    requires FindResolving(ongoing, assets, o).None?
    ensures var r := MoveAsWritten(ongoing, completed, assets, o);
            None in r.1 && LoadFails(r.0, r.1, assets)
  {
    var r := MoveAsWritten(ongoing, completed, assets, o);
    assert r.1[|completed|].None?;
  }

  /**
   * With the intended update, lists that load keep loading: completing any
   * objective never introduces a null or an unresolvable entry.
   */
  lemma MoveCheckedKeepsLoad(ongoing: seq<MissionRef>, completed: seq<Option<MissionRef>>,
                             assets: map<string, MissionObjective>, o: MissionObjective)
    requires !LoadFails(ongoing, completed, assets)
    ensures var r := MoveChecked(ongoing, completed, assets, o);
            !LoadFails(r.0, r.1, assets)
  {
    var r := MoveChecked(ongoing, completed, assets, o);
    var f := FindResolving(ongoing, assets, o);
    if f.Some? {
      var i := f.value;
      assert r.0 == ongoing[..i] + ongoing[i + 1..];
      forall k | 0 <= k < |r.0|
        ensures r.0[k].guid in assets
      {
        if k < i { assert r.0[k] == ongoing[k]; } else { assert r.0[k] == ongoing[k + 1]; }
      }
      forall k | 0 <= k < |r.1|
        ensures r.1[k].Some? && r.1[k].value.guid in assets
      {
        if k < |completed| { assert r.1[k] == completed[k]; }
      }
    }
  }

  /** The objectives the completed entries resolve to. */
  function Resolved(completed: seq<Option<MissionRef>>, assets: map<string, MissionObjective>): (r: set<MissionObjective>)
    ensures forall k :: 0 <= k < |completed| && completed[k].Some? && completed[k].value.guid in assets ==>
              assets[completed[k].value.guid] in r
  {
    if completed == [] then {}
    else
      var c := completed[|completed| - 1];
      Resolved(completed[..|completed| - 1], assets)
      + (if c.Some? && c.value.guid in assets then {assets[c.value.guid]} else {})
  }

  /** What MarkAsCompleted leaves: Finished, with every requirement complete. */
  predicate CompletedAll(o: MissionObjective)
    reads o, o.requirements
  {
    o.progress == Finished && forall k :: 0 <= k < |o.requirements| ==> o.requirements[k].isComplete
  }

  class MissionObjective {
    /** The asset's GUID. */
    const guid: string
    /** messageRequirements; the code never replaces the list. */
    const requirements: seq<Requirements.ActionObjective>
    var dataManager: MissionDataManager?
    var progress: Progress
    /** The Setup and Dispose calls made on the requirements. */
    var actions: seq<ActionStep>
    /** How often OnComplete has been invoked. */
    var onCompleteInvoked: nat

    constructor (guid: string, requirements: seq<Requirements.ActionObjective>)
      ensures this.guid == guid && this.requirements == requirements
      ensures dataManager == null && progress == Locked && actions == [] && onCompleteInvoked == 0
    {
      this.guid := guid;
      this.requirements := requirements;
      dataManager := null;
      progress := Locked;
      actions := [];
      onCompleteInvoked := 0;
    }

    /** CurrentProgress. */
    function CurrentProgress(): Progress
      reads this
    {
      progress
    }

    predicate IsLocked()
      reads this
    {
      CurrentProgress() == Locked
    }

    predicate IsInProgress()
      reads this
    {
      CurrentProgress() == InProgress
    }

    predicate IsCompleted()
      reads this
    {
      CurrentProgress() == Finished
    }

    /** Exactly one of IsLocked, IsInProgress and IsCompleted holds. */
    lemma ProgressPredicatesExclusive()
      ensures IsLocked() || IsInProgress() || IsCompleted()
      ensures !(IsLocked() && IsInProgress()) && !(IsLocked() && IsCompleted()) && !(IsInProgress() && IsCompleted())
    {
    }

    /** SetProgress. */
    method SetProgress(value: Progress)
      modifies this
      ensures CurrentProgress() == value
      ensures dataManager == old(dataManager) && actions == old(actions) && onCompleteInvoked == old(onCompleteInvoked)
    {
      progress := value;
    }

    /** Init: the manager recorded, InProgress, and every requirement set up in order. */
    method Init(manager: MissionDataManager?)
      modifies this
      ensures dataManager == manager && IsInProgress()
      ensures actions == old(actions) + Steps(|requirements|, true)
      ensures onCompleteInvoked == old(onCompleteInvoked)
    {
      dataManager := manager;
      progress := InProgress;
      SetupActions();
    }

    /** SetupActions. */
    method SetupActions()
      modifies this
      ensures actions == old(actions) + Steps(|requirements|, true)
      ensures dataManager == old(dataManager) && progress == old(progress) && onCompleteInvoked == old(onCompleteInvoked)
    {
      var k := 0;
      while k < |requirements|
        invariant 0 <= k <= |requirements|
        invariant actions == old(actions) + Steps(k, true)
        invariant dataManager == old(dataManager) && progress == old(progress) && onCompleteInvoked == old(onCompleteInvoked)
      {
        actions := actions + [SetupCalled(k)];
        k := k + 1;
      }
    }

    /** DisposeActions. */
    method DisposeActions()
      modifies this
      ensures actions == old(actions) + Steps(|requirements|, false)
      ensures dataManager == old(dataManager) && progress == old(progress) && onCompleteInvoked == old(onCompleteInvoked)
    {
      var k := 0;
      while k < |requirements|
        invariant 0 <= k <= |requirements|
        invariant actions == old(actions) + Steps(k, false)
        invariant dataManager == old(dataManager) && progress == old(progress) && onCompleteInvoked == old(onCompleteInvoked)
      {
        actions := actions + [DisposeCalled(k)];
        k := k + 1;
      }
    }

    /** The objects Complete may change: this objective, its manager and what the manager publishes to. */
    function CompleteFrame(): set<object>
      reads this, dataManager, if dataManager == null then {} else {dataManager.lastCompleted}
    {
      {this} + (if dataManager == null then {} else {dataManager} + dataManager.CompletionFrame())
    }

    /**
     * Complete: every requirement disposed, then (the delay taken as
     * immediate) Finished, the manager told, and OnComplete invoked. A
     * missing manager throws before OnComplete, and the exception is
     * logged.
     */
    method Complete(assets: map<string, MissionObjective>)
      modifies CompleteFrame()
      ensures dataManager == old(dataManager) && IsCompleted()
      ensures actions == old(actions) + Steps(|requirements|, false)
      ensures onCompleteInvoked == old(onCompleteInvoked) + (if dataManager == null then 0 else 1)
      ensures dataManager != null ==>
                (dataManager.ongoing, dataManager.completed)
                == old(MoveAsWritten(dataManager.ongoing, dataManager.completed, assets, this))
    {
      DisposeActions();
      progress := Finished;
      if dataManager == null {
        return;
      }
      dataManager.CompleteObjective(this, assets);
      onCompleteInvoked := onCompleteInvoked + 1;
    }

    /**
     * CheckRemainingObjectives: the complete requirements are counted, and
     * the objective completes when that is all of them, so at once when
     * there are none.
     */
    method CheckRemainingObjectives(assets: map<string, MissionObjective>) returns (completed: bool)
      modifies CompleteFrame()
      ensures completed <==> forall k :: 0 <= k < |requirements| ==> requirements[k].isComplete
      ensures !completed ==> progress == old(progress) && actions == old(actions)
      ensures completed ==> IsCompleted() && actions == old(actions) + Steps(|requirements|, false)
      ensures dataManager == old(dataManager)
    {
      var count := 0;
      var k := 0;
      while k < |requirements|
        invariant 0 <= k <= |requirements|
        invariant count == CountComplete(requirements[..k])
      {
        assert requirements[..k + 1][..k] == requirements[..k];
        if requirements[k].isComplete {
          count := count + 1;
        }
        k := k + 1;
      }
      assert requirements[..|requirements|] == requirements;
      CountCompleteAll(requirements);
      completed := count == |requirements|;
      if completed {
        Complete(assets);
      }
    }

    /**
     * ResetEverything as written: each requirement is reset in turn, but a
     * Locked objective returns right after resetting the first; otherwise
     * every requirement is reset and the objective is InProgress. With no
     * requirements nothing changes.
     */
    method ResetEverything()
      modifies this, requirements
      ensures dataManager == old(dataManager) && actions == old(actions) && onCompleteInvoked == old(onCompleteInvoked)
      ensures requirements == [] ==> progress == old(progress)
      ensures requirements != [] && old(progress) == Locked ==>
                progress == Locked && !requirements[0].isComplete
                && forall k :: 0 <= k < |requirements| && requirements[k] != requirements[0] ==>
                     requirements[k].isComplete == old(requirements[k].isComplete)
      ensures requirements != [] && old(progress) != Locked ==>
                progress == InProgress && forall k :: 0 <= k < |requirements| ==> !requirements[k].isComplete
      ensures forall k :: 0 <= k < |requirements| ==> requirements[k].currentDelta == old(requirements[k].currentDelta)
    {
      var k := 0;
      while k < |requirements|
        invariant 0 <= k <= |requirements|
        invariant dataManager == old(dataManager) && actions == old(actions) && onCompleteInvoked == old(onCompleteInvoked)
        invariant k == 0 ==> progress == old(progress)
        invariant k > 0 ==> progress == InProgress && old(progress) != Locked
        invariant forall j :: 0 <= j < k ==> !requirements[j].isComplete
        invariant forall j :: k <= j < |requirements| && requirements[j] !in requirements[..k] ==>
                    requirements[j].isComplete == old(requirements[j].isComplete)
        invariant forall j :: 0 <= j < |requirements| ==> requirements[j].currentDelta == old(requirements[j].currentDelta)
      {
        requirements[k].Reset();
        if progress == Locked {
          return;
        }
        progress := InProgress;
        k := k + 1;
      }
    }

    /** ResetEverything as evidently intended: every requirement reset, and a started objective back InProgress. */
    method ResetEverythingChecked()
      modifies this, requirements
      ensures dataManager == old(dataManager) && actions == old(actions) && onCompleteInvoked == old(onCompleteInvoked)
      ensures forall k :: 0 <= k < |requirements| ==> !requirements[k].isComplete
      ensures progress == if old(progress) == Locked || requirements == [] then old(progress) else InProgress
    {
      var k := 0;
      while k < |requirements|
        invariant 0 <= k <= |requirements|
        invariant dataManager == old(dataManager) && actions == old(actions) && onCompleteInvoked == old(onCompleteInvoked)
        invariant progress == if old(progress) == Locked || k == 0 then old(progress) else InProgress
        invariant forall j :: 0 <= j < k ==> !requirements[j].isComplete
      {
        requirements[k].Reset();
        if progress != Locked {
          progress := InProgress;
        }
        k := k + 1;
      }
    }

    /** MarkAsCompleted: Finished, and every requirement marked complete. */
    method MarkAsCompleted()
      modifies this, requirements
      ensures IsCompleted() && forall k :: 0 <= k < |requirements| ==> requirements[k].isComplete
      ensures dataManager == old(dataManager) && actions == old(actions) && onCompleteInvoked == old(onCompleteInvoked)
    {
      progress := Finished;
      var k := 0;
      while k < |requirements|
        invariant 0 <= k <= |requirements| && progress == Finished
        invariant dataManager == old(dataManager) && actions == old(actions) && onCompleteInvoked == old(onCompleteInvoked)
        invariant forall j :: 0 <= j < k ==> requirements[j].isComplete
      {
        requirements[k].SetHasCompleteAction(true);
        k := k + 1;
      }
    }

    /**
     * OnEditorStopped: Locked, no manager, every requirement disposed, then
     * ResetEverything, which, the objective being Locked, resets only the
     * first requirement.
     */
    method OnEditorStopped()
      modifies this, requirements
      ensures IsLocked() && dataManager == null
      ensures actions == old(actions) + Steps(|requirements|, false)
      ensures requirements != [] ==> !requirements[0].isComplete
      ensures forall k :: 0 <= k < |requirements| && requirements[k] != requirements[0] ==>
                requirements[k].isComplete == old(requirements[k].isComplete)
    {
      progress := Locked;
      dataManager := null;
      DisposeActions();
      ResetEverything();
      progress := Locked;
    }
  }

  class MissionDataManager {
    /** _ongoingMissions and _completedMissions. */
    var ongoing: seq<MissionRef>
    var completed: seq<Option<MissionRef>>
    /** lastCompletedObjectiveVR and lastStartedObjectiveVR. */
    const lastCompleted: VariableReferences.VariableReference?<MissionObjective?>
    const lastStarted: VariableReferences.VariableReference?<MissionObjective?>

    constructor (lastCompleted: VariableReferences.VariableReference?<MissionObjective?>,
                 lastStarted: VariableReferences.VariableReference?<MissionObjective?>)
      ensures ongoing == [] && completed == []
      ensures this.lastCompleted == lastCompleted && this.lastStarted == lastStarted
    {
      ongoing := [];
      completed := [];
      this.lastCompleted := lastCompleted;
      this.lastStarted := lastStarted;
    }

    /** What publishing the last completed objective may change. */
    function CompletionFrame(): set<object>
      reads lastCompleted
    {
      if lastCompleted == null then {}
      else if lastCompleted.event == null then {lastCompleted}
      else {lastCompleted, lastCompleted.event}
    }

    /** What publishing the last started objective may change. */
    function StartFrame(): set<object>
      reads lastStarted
    {
      if lastStarted == null then {}
      else if lastStarted.event == null then {lastStarted}
      else {lastStarted, lastStarted.event}
    }

    /**
     * CompleteObjective: the lists updated as MoveAsWritten says, then the
     * objective published as the last completed one. A missing variable
     * reference, or an exception from its setter, is logged.
     */
    method CompleteObjective(o: MissionObjective, assets: map<string, MissionObjective>)
      modifies {this} + CompletionFrame()
      ensures (ongoing, completed) == old(MoveAsWritten(ongoing, completed, assets, o))
      ensures lastCompleted != null ==> lastCompleted.constantValue == o
    {
      ongoing, completed := MoveAsWritten(ongoing, completed, assets, o).0, MoveAsWritten(ongoing, completed, assets, o).1;
      if lastCompleted == null {
        return;
      }
      var _ := lastCompleted.SetCurrentValue(o);
    }

    /** CompleteObjective as evidently intended: an objective that is not ongoing is not recorded as completed. */
    method CompleteObjectiveChecked(o: MissionObjective, assets: map<string, MissionObjective>)
      modifies {this} + CompletionFrame()
      ensures (ongoing, completed) == old(MoveChecked(ongoing, completed, assets, o))
      ensures lastCompleted != null ==> lastCompleted.constantValue == o
    {
      ongoing, completed := MoveChecked(ongoing, completed, assets, o).0, MoveChecked(ongoing, completed, assets, o).1;
      if lastCompleted == null {
        return;
      }
      var _ := lastCompleted.SetCurrentValue(o);
    }

    /**
     * AddMission: a mission none of whose ongoing references has its GUID
     * is appended, initialised with this manager and published as the last
     * started one, where a missing variable reference throws. The
     * completed list is not consulted.
     */
    method AddMission(mission: MissionObjective) returns (threw: bool)
      modifies this, mission, StartFrame()
      ensures completed == old(completed)
      ensures MissionRef(mission.guid) in old(ongoing) ==>
                ongoing == old(ongoing) && !threw && mission.progress == old(mission.progress)
                && mission.dataManager == old(mission.dataManager)
      ensures MissionRef(mission.guid) !in old(ongoing) ==>
                ongoing == old(ongoing) + [MissionRef(mission.guid)]
                && mission.dataManager == this && mission.IsInProgress()
                && (lastStarted == null ==> threw)
                && (lastStarted != null ==> lastStarted.constantValue == mission)
    {
      var r := MissionRef(mission.guid);
      if r in ongoing {
        return false;
      }
      ongoing := ongoing + [r];
      mission.Init(this);
      if lastStarted == null {
        return true;
      }
      threw := lastStarted.SetCurrentValue(mission);
    }

    /** `objs` holds every objective the registry resolves to, and `reqs` every requirement of those. */
    static predicate Covers(assets: map<string, MissionObjective>, objs: set<MissionObjective>, reqs: set<Requirements.ActionObjective>)
    {
      && (forall g :: g in assets ==> assets[g] in objs)
      && (forall o :: o in objs ==> forall k :: 0 <= k < |o.requirements| ==> o.requirements[k] in reqs)
    }

    /** The first half of OnLoad: every ongoing reference resolved and its objective initialised with this manager. */
    method InitOngoing(assets: map<string, MissionObjective>, ghost objs: set<MissionObjective>) returns (threw: bool)
      requires forall g :: g in assets ==> assets[g] in objs
      modifies objs
      ensures threw <==> exists k :: 0 <= k < |ongoing| && ongoing[k].guid !in assets
      ensures !threw ==> forall k :: 0 <= k < |ongoing| ==>
                assets[ongoing[k].guid].dataManager == this && assets[ongoing[k].guid].IsInProgress()
    {
      var i := 0;
      while i < |ongoing|
        invariant 0 <= i <= |ongoing|
        invariant forall k :: 0 <= k < i ==> ongoing[k].guid in assets
        invariant forall k :: 0 <= k < i ==>
                    assets[ongoing[k].guid].dataManager == this && assets[ongoing[k].guid].IsInProgress()
      {
        var g := ongoing[i].guid;
        if g !in assets {
          return true;
        }
        assets[g].Init(this);
        i := i + 1;
      }
      return false;
    }

    /**
     * The second half of OnLoad: every completed entry resolved and its
     * objective marked as completed; a null entry throws. Objectives no
     * completed entry resolves to are left as they were.
     */
    method MarkCompleted(assets: map<string, MissionObjective>, ghost objs: set<MissionObjective>,
                         ghost reqs: set<Requirements.ActionObjective>) returns (threw: bool)
      requires Covers(assets, objs, reqs)
      modifies objs, reqs
      ensures threw <==> exists k :: 0 <= k < |completed| && (completed[k].None? || completed[k].value.guid !in assets)
      ensures !threw ==> forall k :: 0 <= k < |completed| ==> CompletedAll(assets[completed[k].value.guid])
      ensures forall o :: o in objs && o !in Resolved(completed, assets) ==>
                o.progress == old(o.progress) && o.dataManager == old(o.dataManager)
      ensures forall o :: o in objs ==> o.dataManager == old(o.dataManager)
    {
      var cs := completed;
      var i := 0;
      ghost var done: set<MissionObjective> := {};
      while i < |cs|
        invariant 0 <= i <= |cs|
        invariant forall k :: 0 <= k < i ==> cs[k].Some? && cs[k].value.guid in assets
        invariant done <= Resolved(cs, assets)
        invariant forall k :: 0 <= k < i ==> assets[cs[k].value.guid] in done
        invariant forall d :: d in done ==> CompletedAll(d)
        invariant forall o :: o in objs && o !in done ==> o.progress == old(o.progress)
        invariant forall o :: o in objs ==> o.dataManager == old(o.dataManager)
      {
        if cs[i].None? || cs[i].value.guid !in assets {
          return true;
        }
        var o := assets[cs[i].value.guid];
        o.MarkAsCompleted();
        done := done + {o};
        i := i + 1;
      }
      return false;
    }

    /**
     * OnLoad: every ongoing objective initialised with this manager, then
     * every completed one marked as completed; an unresolvable reference or
     * a null entry throws.
     */
    method OnLoad(assets: map<string, MissionObjective>, ghost objs: set<MissionObjective>,
                  ghost reqs: set<Requirements.ActionObjective>) returns (threw: bool)
      requires Covers(assets, objs, reqs)
      modifies objs, reqs
      ensures threw <==> LoadFails(ongoing, completed, assets)
      ensures !threw ==> forall k :: 0 <= k < |completed| ==> CompletedAll(assets[completed[k].value.guid])
      ensures !threw ==> forall k :: 0 <= k < |ongoing| ==> assets[ongoing[k].guid].dataManager == this
      ensures !threw ==> forall k :: 0 <= k < |ongoing| && assets[ongoing[k].guid] !in Resolved(completed, assets) ==>
                assets[ongoing[k].guid].IsInProgress()
    {
      threw := InitOngoing(assets, objs);
      if threw {
        return;
      }
      threw := MarkCompleted(assets, objs, reqs);
    }

    /** OnEditorStopped: both lists emptied. */
    method OnEditorStopped()
      modifies this
      ensures ongoing == [] && completed == []
    {
      ongoing := [];
      completed := [];
    }
  }
}

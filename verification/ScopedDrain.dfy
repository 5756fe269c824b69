/** A scoped ECS run never misses its drain callback (ecs/world.cpp, StartScoped): one thread schedules all systems and
    then seals the coordinator, so that no Schedule call is in progress when it seals. */
module ScopedDrain {
  import opened Wrappers
  import C = CoordinatorSpec
  import I = CoordinatorInvariant
  import H = CoordinatorTheorems
  import D = CoordinatorDrain
  import opened ScopedParticipants

  /** The steps of the coordinator in a run. */
  function CoordinatorSteps(actions: seq<Action>): seq<C.Action> {
    if actions == [] then []
    else (if actions[0].COORDINATE? then [actions[0].action] else []) + CoordinatorSteps(actions[1..])
  }

  lemma OneStep(s: ScopedRun, a: Action)
    ensures Step(s, a).coordinator == if a.COORDINATE? then C.Step(s.coordinator, a.action) else s.coordinator
  {
    hide C.Step;
  }

  lemma {:induction false} RunOfCoordinator(s: ScopedRun, actions: seq<Action>, t: ScopedRun)
    requires Runs(s, actions, t)
    ensures t.coordinator == C.RunActions(s.coordinator, CoordinatorSteps(actions))
    decreases |actions|
  {
    hide C.Step, Step, Enabled;
    if actions != [] {
      OneStep(s, actions[0]);
      RunOfCoordinator(Step(s, actions[0]), actions[1..], t);
      if actions[0].COORDINATE? {
        var rest := CoordinatorSteps(actions[1..]);
        assert ([actions[0].action] + rest)[1..] == rest;
      } else {
        assert [] + CoordinatorSteps(actions[1..]) == CoordinatorSteps(actions[1..]);
      }
    }
  }

  // ------------------------------------------------------------- one publisher

  ghost predicate SchedulesOnlyOn(publisher: nat, actions: seq<C.Action>) {
    forall k :: 0 <= k < |actions| && actions[k].Schedule? ==> actions[k].thread == publisher
  }

  /** No other thread is in a Schedule call. */
  ghost predicate OnlyPublisherLeaves(s: C.State, publisher: nat) {
    forall w :: w in s.threads && D.Leaves(s.threads[w]) ==> w == publisher
  }

  /** A call other than Schedule that moves on does not become one that leaves without completing the seal. */
  ghost predicate KeepsLeavers(s: C.State, s': C.State) {
    forall w :: w in s'.threads && D.Leaves(s'.threads[w]) ==> w in s.threads && D.Leaves(s.threads[w])
  }

  lemma ScanKeepsLeavers(s: C.State, t: nat)
    ensures KeepsLeavers(s, C.ScanStep(s, t)) && KeepsLeavers(s, C.SubmitFailedStep(s, t))
  {
    hide C.ScanFrom;
  }

  lemma ReleaseKeepsLeavers(s: C.State, t: nat)
    ensures KeepsLeavers(s, C.ReleaseStep(s, t))
  {
    hide C.ReleaseStep, C.FindReleasable;
    if t in s.threads && s.threads[t].Releasing? { D.ReleaseMoves(s, t); } else { D.ReleaseStands(s, t); }
  }

  lemma SealKeepsLeavers(s: C.State, t: nat)
    ensures KeepsLeavers(s, C.CompleteSealStep(s, t))
  {
    hide C.ReadyToSeal;
  }

  lemma TokensKeepLeavers(s: C.State, t: nat)
    ensures KeepsLeavers(s, C.DropStopTokenStep(s, t))
  {
    hide C.FindToken;
  }

  lemma EndKeepsLeavers(s: C.State, i: nat, t: nat, failed: bool, key: C.OperationKey)
    ensures KeepsLeavers(s, C.EndRunStep(s, i, t, failed)) && KeepsLeavers(s, C.CancelStep(s, t, key))
  {
    hide C.Resolve;
  }

  lemma StepKeepsLeavers(s: C.State, a: C.Action)
    requires !a.Schedule?
    ensures KeepsLeavers(s, C.Step(s, a))
  {
    hide *;
    C.StepIsBlock(s, a);
    match a
    case Scan(t) => ScanKeepsLeavers(s, t);
    case SubmitFailed(t) => ScanKeepsLeavers(s, t);
    case Release(t) => ReleaseKeepsLeavers(s, t);
    case EndRun(i, t, failed) => EndKeepsLeavers(s, i, t, failed, C.OperationKey(0, 0));
    case Cancel(t, key) => EndKeepsLeavers(s, 0, t, false, key);
    case CompleteSeal(t) => SealKeepsLeavers(s, t);
    case DropStopToken(t) => TokensKeepLeavers(s, t);
    case _ => RestKeepsLeavers(s, a);
  }

  lemma RestKeepsLeavers(s: C.State, a: C.Action)
    requires a.RegisterDomain? || a.Seal? || a.Stop? || a.Submitted? || a.Retired? || a.BeginRun? || a.Access?
          || a.Drained? || a.DropTokens? || a.CallBack?
    ensures KeepsLeavers(s, C.Step(s, a))
  {
    hide D.Leaves, C.Step;
    var s' := C.Step(s, a);
    forall w | w in s'.threads && D.Leaves(s'.threads[w])
      ensures w in s.threads && D.Leaves(s.threads[w])
    {
      LeaverWasLeaver(s, a, w);
    }
  }

  lemma LeaverWasLeaver(s: C.State, a: C.Action, w: nat)
    requires a.RegisterDomain? || a.Seal? || a.Stop? || a.Submitted? || a.Retired? || a.BeginRun? || a.Access?
          || a.Drained? || a.DropTokens? || a.CallBack?
    requires w in C.Step(s, a).threads && D.Leaves(C.Step(s, a).threads[w])
    ensures w in s.threads && D.Leaves(s.threads[w])
  {
    hide C.ScheduleStep, C.CancelStep, C.ScanStep, C.SubmitFailedStep, C.ReleaseStep, C.EndRunStep, C.CompleteSealStep,
      C.DropStopTokenStep, C.Registered, C.CancelPending;
    match a
    case Submitted(_) =>
    case Retired(_) =>
    case Drained(_) =>
    case DropTokens(_) =>
    case CallBack(_) =>
    case _ =>
  }

  lemma StillOnlyPublisherLeaves(s: C.State, a: C.Action, publisher: nat)
    requires OnlyPublisherLeaves(s, publisher) && (a.Schedule? ==> a.thread == publisher)
    ensures OnlyPublisherLeaves(C.Step(s, a), publisher)
  {
    hide C.Admit, D.Leaves;
    if !a.Schedule? {
      hide C.Step;
      StepKeepsLeavers(s, a);
    }
  }

  lemma {:induction false} RunKeepsOnePublisher(s: C.State, actions: seq<C.Action>, publisher: nat)
    requires OnlyPublisherLeaves(s, publisher) && SchedulesOnlyOn(publisher, actions)
    ensures OnlyPublisherLeaves(C.RunActions(s, actions), publisher)
    decreases |actions|
  {
    hide C.Step, OnlyPublisherLeaves;
    if actions != [] {
      StillOnlyPublisherLeaves(s, actions[0], publisher);
      RunKeepsOnePublisher(C.Step(s, actions[0]), actions[1..], publisher);
    }
  }

  /** When the thread that has made all Schedule calls seals, the callback cannot be missed. */
  lemma PublisherCannotMiss(owner: nat, actions: seq<C.Action>, publisher: nat)
    requires SchedulesOnlyOn(publisher, actions) && C.Fresh(C.RunActions(C.Initial(owner), actions), publisher)
    ensures !D.CanMiss(C.RunActions(C.Initial(owner), actions))
  {
    RunKeepsOnePublisher(C.Initial(owner), actions, publisher);
  }

  // ------------------------------------------------------------------- theorem

  /** Nobody cancels a single system of a run, and nothing is scheduled any more. */
  ghost predicate UsesNoKeys(actions: seq<C.Action>) {
    forall k :: 0 <= k < |actions| ==> !actions[k].Cancel? && !actions[k].Schedule?
  }

  lemma {:induction false} WithoutKeysLegal(s: C.State, actions: seq<C.Action>)
    requires UsesNoKeys(actions)
    ensures D.LegalRun(s, actions)
    decreases |actions|
  {
    hide C.Step, D.KeyKnown;
    if actions != [] {
      WithoutKeysLegal(C.Step(s, actions[0]), actions[1..]);
    }
  }

  /**
   * However a scoped run goes, if one thread has made all Schedule calls and then seals the coordinator, the run is
   * finalized, once, as soon as all calls have returned, nothing is queued or running, and every buffer has retired.
   */
  lemma ScopedRunIsFinalized(owner: nat, before: seq<Action>, s: ScopedRun, publisher: nat, later: seq<Action>,
                             end: ScopedRun)
    requires Runs(InitialScopedRun(owner), before, s) && SchedulesOnlyOn(publisher, CoordinatorSteps(before))
    requires !s.coordinator.closed && C.Fresh(s.coordinator, publisher)
    requires Runs(Step(s, COORDINATE(C.Seal(publisher))), later, end) && UsesNoKeys(CoordinatorSteps(later))
    requires end.coordinator.threads == map[] && H.NothingActive(end.coordinator.operations) && end.buffers == {}
    ensures end.finalizations == 1 && end.outcome.Some? && end.coordinator.drainCalls == 1
  {
    var sealed := Step(s, COORDINATE(C.Seal(publisher)));
    assert Enabled(s, COORDINATE(C.Seal(publisher)));
    hide *;
    RunOfCoordinator(InitialScopedRun(owner), before, s);
    OneStep(s, COORDINATE(C.Seal(publisher)));
    RunOfCoordinator(sealed, later, end);
    Coordinators(owner);
    PublisherCannotMiss(owner, CoordinatorSteps(before), publisher);
    ReachedBy(owner, CoordinatorSteps(before));
    WithoutKeysLegal(sealed.coordinator, CoordinatorSteps(later));
    D.SealAloneDrains(s.coordinator, publisher, CoordinatorSteps(later));
    InitialScopedInv(owner);
    ReachableScopedRun(InitialScopedRun(owner), before, s);
    StepKeepsScopedInv(s, COORDINATE(C.Seal(publisher)));
    ReachableScopedRun(sealed, later, end);
    LastCountGone(end);
  }

  lemma Coordinators(owner: nat)
    ensures InitialScopedRun(owner).coordinator == C.Initial(owner)
  {
  }

  lemma ReachedBy(owner: nat, actions: seq<C.Action>)
    ensures C.Reachable(C.RunActions(C.Initial(owner), actions))
  {
  }

  lemma LastCountGone(s: ScopedRun)
    requires ScopedInv(s) && s.coordinator.drainCalls == 1 && s.buffers == {}
    ensures s.finalizations == 1 && s.outcome.Some?
  {
    hide I.Inv;
  }
}

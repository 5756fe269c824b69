// The participants of a run with scoped systems (ecs/world.cpp, StartScoped): its systems are operations of an access
// coordinator and hold no counts. The one count of the publication is given up by the coordinator's drain callback,
// while producer buffers, which a running system opens and anyone may close later, hold one each.
module ScopedParticipants {
  import opened Wrappers
  import A = AccessScopes
  import C = CoordinatorSpec
  import I = CoordinatorInvariant
  import S = CoordinatorSteps
  import H = CoordinatorTheorems
  import P = RunParticipants

  datatype ScopedRun = ScopedRun(
    coordinator: C.State,
    buffers: set<nat>,
    nextBuffer: nat,
    outstanding: nat,
    cancelled: bool,
    failed: bool,
    finalizations: nat,
    outcome: Option<P.Outcome>)

  function InitialScopedRun(owner: nat): ScopedRun {
    ScopedRun(C.Initial(owner), {}, 0, 1, false, false, 0, None)
  }

  /** A Schedule call of the publisher that throws is PUBLICATION_FAILS; a system that throws is FAIL. */
  datatype Action =
    | COORDINATE(action: C.Action)
    | OPEN_BUFFER(operation: nat)
    | CLOSE_BUFFER(buffer: nat, cleanupFails: bool)
    | FAIL(operation: nat)
    | PUBLICATION_FAILS
    | CANCEL

  predicate IsRunning(s: ScopedRun, i: nat) {
    i < |s.coordinator.operations| && s.coordinator.operations[i].status == C.RUNNING
  }

  predicate Enabled(s: ScopedRun, a: Action) {
    match a
    case COORDINATE(action) => action.Schedule? ==> C.Step(s.coordinator, action) != s.coordinator
    case OPEN_BUFFER(i) => IsRunning(s, i) && !s.cancelled && !s.failed
    case CLOSE_BUFFER(b, _) => b in s.buffers
    case FAIL(i) => IsRunning(s, i)
    case PUBLICATION_FAILS => !s.coordinator.sealed
    case CANCEL => true
  }

  /** Gives up one count; the last to do so finalizes the run. */
  function Retired(s: ScopedRun): ScopedRun {
    if s.outstanding != 1 then s.(outstanding := if s.outstanding == 0 then 0 else s.outstanding - 1)
    else
      s.(outstanding := 0, finalizations := s.finalizations + 1,
         outcome := Some(if s.failed then P.FAILED else if s.cancelled then P.CANCELLED else P.COMPLETED))
  }

  /** An operation whose publication failed inside the coordinator, or whose callback threw there. */
  predicate SomeFailed(operations: seq<C.Operation>) {
    exists i | 0 <= i < |operations| :: operations[i].status == C.FAILED
  }

  /** A step of the coordinator; the drain callback asks every operation for its error, and gives up the count of the
      publication. */
  function Coordinated(s: ScopedRun, a: C.Action): ScopedRun {
    var next := C.Step(s.coordinator, a);
    var t := s.(coordinator := next);
    if next.drainCalls > s.coordinator.drainCalls then Retired(t.(failed := s.failed || SomeFailed(next.operations))) else t
  }

  function Step(s: ScopedRun, a: Action): ScopedRun {
    match a
    case COORDINATE(action) => Coordinated(s, action)
    case OPEN_BUFFER(_) =>
      s.(buffers := s.buffers + {s.nextBuffer}, nextBuffer := s.nextBuffer + 1, outstanding := s.outstanding + 1)
    case CLOSE_BUFFER(b, fails) => Retired(s.(buffers := s.buffers - {b}, failed := s.failed || fails))
    case FAIL(_) => s.(failed := true)
    case PUBLICATION_FAILS => s.(failed := true)
    case CANCEL => s.(cancelled := true)
  }

  /** The count is that of the publication, until the drain callback, and of the open buffers. */
  ghost predicate ScopedInv(s: ScopedRun) {
    && I.Inv(s.coordinator)
    && s.coordinator.drainCalls <= 1
    && s.outstanding == 1 - s.coordinator.drainCalls + |s.buffers|
    && s.finalizations == (if s.outstanding == 0 then 1 else 0)
    && (s.outcome.Some? <==> s.outstanding == 0)
    && forall b :: b in s.buffers ==> b < s.nextBuffer
  }

  lemma InitialScopedInv(owner: nat)
    ensures ScopedInv(InitialScopedRun(owner))
  {
    I.InitialSound(owner);
  }

  lemma AtMostOneDrain(s: C.State)
    requires I.Inv(s)
    ensures s.drainCalls <= 1
  {
  }

  lemma BlocksDrainNothing(s: C.State, t: nat, footprints: seq<A.AccessFootprint>, keys: seq<C.OperationKey>,
                           key: C.OperationKey, i: nat, failed: bool)
    ensures C.ScheduleStep(s, t, footprints, keys).drainCalls == s.drainCalls
    ensures C.CancelStep(s, t, key).drainCalls == s.drainCalls
    ensures C.EndRunStep(s, i, t, failed).drainCalls == s.drainCalls
  {
    hide C.Admit;
  }

  lemma ThreadBlocksDrainNothing(s: C.State, t: nat)
    ensures C.ScanStep(s, t).drainCalls == s.drainCalls && C.SubmitFailedStep(s, t).drainCalls == s.drainCalls
    ensures C.ReleaseStep(s, t).drainCalls == s.drainCalls && C.CompleteSealStep(s, t).drainCalls == s.drainCalls
    ensures C.DropStopTokenStep(s, t).drainCalls == s.drainCalls
  {
    hide C.ScanFrom, C.ReadyToSeal, C.FindToken, C.FindReleasable, C.Releasable;
  }

  lemma RestDrainsOnce(s: C.State, a: C.Action)
    requires a.RegisterDomain? || a.Seal? || a.Stop? || a.Submitted? || a.Retired?
          || a.BeginRun? || a.Access? || a.Drained? || a.DropTokens? || a.CallBack?
    ensures s.drainCalls <= C.Step(s, a).drainCalls <= s.drainCalls + 1
  {
    hide C.ScheduleStep, C.CancelStep, C.ScanStep, C.SubmitFailedStep, C.ReleaseStep, C.EndRunStep, C.CompleteSealStep,
      C.DropStopTokenStep, C.Registered, C.CancelPending;
  }

  lemma DrainsOneByOne(s: C.State, a: C.Action)
    ensures s.drainCalls <= C.Step(s, a).drainCalls <= s.drainCalls + 1
  {
    hide C.Step, C.ScheduleStep, C.CancelStep, C.ScanStep, C.SubmitFailedStep, C.ReleaseStep, C.EndRunStep, C.CompleteSealStep,
      C.DropStopTokenStep;
    C.StepIsBlock(s, a);
    match a
    case Schedule(t, footprints, keys) => BlocksDrainNothing(s, t, footprints, keys, C.OperationKey(0, 0), 0, false);
    case Cancel(t, key) => BlocksDrainNothing(s, t, [], [], key, 0, false);
    case EndRun(i, t, failed) => BlocksDrainNothing(s, t, [], [], C.OperationKey(0, 0), i, failed);
    case Scan(t) => ThreadBlocksDrainNothing(s, t);
    case SubmitFailed(t) => ThreadBlocksDrainNothing(s, t);
    case Release(t) => ThreadBlocksDrainNothing(s, t);
    case CompleteSeal(t) => ThreadBlocksDrainNothing(s, t);
    case DropStopToken(t) => ThreadBlocksDrainNothing(s, t);
    case _ => RestDrainsOnce(s, a);
  }

  /** While an operation runs the coordinator has not been drained. */
  lemma RunningMeansUndrained(s: C.State, i: nat)
    requires I.Inv(s) && i < |s.operations| && s.operations[i].status == C.RUNNING
    ensures s.drainCalls == 0
  {
    assert s.operations[i].HoldsAccess();
  }

  lemma CoordinatedKeepsInv(s: ScopedRun, a: C.Action)
    requires ScopedInv(s)
    ensures ScopedInv(Coordinated(s, a))
  {
    hide I.Inv, C.Step;
    S.StepKeepsInv(s.coordinator, a);
    AtMostOneDrain(C.Step(s.coordinator, a));
    DrainsOneByOne(s.coordinator, a);
  }

  lemma CloseKeepsInv(s: ScopedRun, b: nat, fails: bool)
    requires ScopedInv(s) && b in s.buffers
    ensures ScopedInv(Step(s, CLOSE_BUFFER(b, fails))) && s.outstanding > 0
  {
    hide I.Inv;
    assert |s.buffers - {b}| == |s.buffers| - 1;
  }

  lemma StepKeepsScopedInv(s: ScopedRun, a: Action)
    requires ScopedInv(s) && Enabled(s, a)
    ensures ScopedInv(Step(s, a))
    ensures a.OPEN_BUFFER? || a.CLOSE_BUFFER? ==> s.outstanding > 0
  {
    hide I.Inv;
    match a
    case COORDINATE(action) => CoordinatedKeepsInv(s, action);
    case OPEN_BUFFER(i) =>
      RunningMeansUndrained(s.coordinator, i);
      assert s.nextBuffer !in s.buffers;
    case CLOSE_BUFFER(b, fails) => CloseKeepsInv(s, b, fails);
    case _ =>
  }

  ghost predicate Runs(s: ScopedRun, actions: seq<Action>, t: ScopedRun)
    decreases |actions|
  {
    if actions == [] then t == s else Enabled(s, actions[0]) && Runs(Step(s, actions[0]), actions[1..], t)
  }

  lemma {:induction false} ReachableScopedRun(s: ScopedRun, actions: seq<Action>, t: ScopedRun)
    requires ScopedInv(s) && Runs(s, actions, t)
    ensures ScopedInv(t)
    decreases |actions|
  {
    hide ScopedInv, Step;
    if actions != [] {
      StepKeepsScopedInv(s, actions[0]);
      ReachableScopedRun(Step(s, actions[0]), actions[1..], t);
    }
  }

  /** A coordinator that has called its drain callback is empty. */
  lemma DrainedIsEmpty(s: C.State)
    requires I.Inv(s) && s.drainCalls == 1
    ensures s.closed && s.running == 0 && s.retiring == 0
    ensures forall i :: 0 <= i < |s.operations| ==> C.IsTerminal(s.operations[i].status) && !s.operations[i].hasFunction
  {
    I.CountersZero(s);
    forall i | 0 <= i < |s.operations|
      ensures !s.operations[i].HoldsAccess()
    {
    }
  }

  /**
   * In every interleaving a scoped run is finalized at most once, exactly when the coordinator has called its drain
   * callback and every producer buffer has retired; from then on every system has ended, nothing it was given is left
   * to run or to release, and no buffer can be opened.
   */
  lemma ScopedRunFinalizesOnce(owner: nat, actions: seq<Action>, t: ScopedRun)
    requires Runs(InitialScopedRun(owner), actions, t)
    ensures t.finalizations <= 1
    ensures t.finalizations == 1 <==> t.coordinator.drainCalls == 1 && t.buffers == {}
    ensures t.outcome.Some? <==> t.finalizations == 1
    ensures t.finalizations == 1 ==>
      && t.coordinator.closed && t.coordinator.running == 0 && t.coordinator.retiring == 0
      && (forall i :: 0 <= i < |t.coordinator.operations| ==>
            C.IsTerminal(t.coordinator.operations[i].status) && !t.coordinator.operations[i].hasFunction)
      && forall i :: !Enabled(t, OPEN_BUFFER(i))
  {
    hide I.Inv;
    InitialScopedInv(owner);
    ReachableScopedRun(InitialScopedRun(owner), actions, t);
    if t.coordinator.drainCalls == 1 {
      DrainedIsEmpty(t.coordinator);
    }
  }
}

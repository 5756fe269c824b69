/** How a scoped run ends (ecs/world.cpp, StartScoped, the drain callback and Retire): what decides its outcome, and that
    a completed outcome means that every system has run. */
module ScopedOutcomes {
  import opened Wrappers
  import A = AccessScopes
  import C = CoordinatorSpec
  import I = CoordinatorInvariant
  import S = CoordinatorSteps
  import O = CoordinatorOutcomes
  import P = RunParticipants
  import opened ScopedParticipants
  import opened ScopedDrain

  // ------------------------------------------------------ what decides the outcome

  /** A system, the publication or the clean-up of a buffer that throws. */
  predicate Throws(a: Action) { a.FAIL? || a.PUBLICATION_FAILS? || (a.CLOSE_BUFFER? && a.cleanupFails) }

  /** An action sets a flag when it throws or cancels; the drain callback sets one when an operation has failed. */
  lemma FlagsMove(s: ScopedRun, a: Action)
    requires ScopedInv(s) && Enabled(s, a)
    ensures var t := Step(s, a);
      && (t.cancelled <==> s.cancelled || a.CANCEL?)
      && (s.failed || Throws(a) ==> t.failed)
      && (t.failed ==> s.failed || Throws(a) || SomeFailed(t.coordinator.operations))
      && (t.coordinator.drainCalls > s.coordinator.drainCalls && SomeFailed(t.coordinator.operations) ==> t.failed)
      && (SomeFailed(s.coordinator.operations) ==> SomeFailed(t.coordinator.operations))
      && (s.coordinator.drainCalls == 1 && SomeFailed(t.coordinator.operations) ==> SomeFailed(s.coordinator.operations))
  {
    hide C.Step, I.Inv, O.OperationsStay, SomeFailed;
    if a.COORDINATE? {
      O.StepStays(s.coordinator, a.action);
      FailuresStay(s.coordinator.operations, Step(s, a).coordinator.operations);
      if s.coordinator.drainCalls == 1 {
        DrainedIsEmpty(s.coordinator);
        NoLaterFailures(s.coordinator.operations, Step(s, a).coordinator.operations);
      }
    }
  }

  lemma FailuresStay(ops: seq<C.Operation>, ops': seq<C.Operation>)
    requires O.OperationsStay(ops, ops')
    ensures SomeFailed(ops) ==> SomeFailed(ops')
  {
    if SomeFailed(ops) {
      var i :| 0 <= i < |ops| && ops[i].status == C.FAILED;
      O.EndsAsBefore(ops, ops', i);
    }
  }

  lemma NoLaterFailures(ops: seq<C.Operation>, ops': seq<C.Operation>)
    requires O.OperationsStay(ops, ops') && |ops'| == |ops|
    requires forall i :: 0 <= i < |ops| ==> C.IsTerminal(ops[i].status)
    ensures SomeFailed(ops') ==> SomeFailed(ops)
  {
    if SomeFailed(ops') {
      var i :| 0 <= i < |ops'| && ops'[i].status == C.FAILED;
      O.EndsAsBefore(ops, ops', i);
    }
  }

  lemma {:induction false} FlagsFollow(s: ScopedRun, actions: seq<Action>, t: ScopedRun)
    requires ScopedInv(s) && Runs(s, actions, t)
    ensures t.cancelled <==> s.cancelled || exists k :: 0 <= k < |actions| && actions[k].CANCEL?
    ensures s.failed || (exists k :: 0 <= k < |actions| && Throws(actions[k])) ==> t.failed
    ensures t.failed ==>
      s.failed || (exists k :: 0 <= k < |actions| && Throws(actions[k])) || SomeFailed(t.coordinator.operations)
    ensures t.coordinator.drainCalls > s.coordinator.drainCalls && SomeFailed(t.coordinator.operations) ==> t.failed
    ensures SomeFailed(s.coordinator.operations) ==> SomeFailed(t.coordinator.operations)
    ensures s.coordinator.drainCalls == 1 && SomeFailed(t.coordinator.operations) ==> SomeFailed(s.coordinator.operations)
    decreases |actions|
  {
    hide ScopedInv, Enabled, Step, Throws, SomeFailed;
    if actions != [] {
      var m := Step(s, actions[0]);
      StepKeepsScopedInv(s, actions[0]);
      FlagsMove(s, actions[0]);
      CountsDrains(s, actions[0]);
      FlagsFollow(m, actions[1..], t);
      assert forall k :: 1 <= k < |actions| ==> actions[k] == actions[1..][k - 1];
    }
  }

  lemma CountsDrains(s: ScopedRun, a: Action)
    requires ScopedInv(s) && Enabled(s, a)
    ensures s.coordinator.drainCalls <= Step(s, a).coordinator.drainCalls <= 1
  {
    StepKeepsScopedInv(s, a);
    hide C.Step, I.Inv;
    if a.COORDINATE? { DrainsOneByOne(s.coordinator, a.action); }
  }

  /** Once decided the outcome stays; it is decided by the flags at the time. */
  lemma OutcomeMoves(s: ScopedRun, a: Action)
    requires ScopedInv(s) && Enabled(s, a)
    ensures var t := Step(s, a);
      && (s.outcome.Some? ==> t.outcome == s.outcome)
      && (s.outcome.None? && t.outcome.Some? ==>
            t.outcome == Some(if t.failed then P.FAILED else if t.cancelled then P.CANCELLED else P.COMPLETED))
  {
    hide I.Inv, C.Step;
    StepKeepsScopedInv(s, a);
    if a.OPEN_BUFFER? { RunningMeansUndrained(s.coordinator, a.operation); }
    if a.COORDINATE? { CoordinatedOutcome(s, a.action); }
  }

  lemma CoordinatedOutcome(s: ScopedRun, a: C.Action)
    requires ScopedInv(s)
    ensures var t := Coordinated(s, a);
      && (s.outcome.Some? ==> t.outcome == s.outcome)
      && (s.outcome.None? && t.outcome.Some? ==>
            t.outcome == Some(if t.failed then P.FAILED else if t.cancelled then P.CANCELLED else P.COMPLETED))
  {
    hide I.Inv, C.Step;
    S.StepKeepsInv(s.coordinator, a);
    AtMostOneDrain(C.Step(s.coordinator, a));
    DrainsOneByOne(s.coordinator, a);
  }

  lemma {:induction false} OutcomeStays(s: ScopedRun, actions: seq<Action>, t: ScopedRun)
    requires ScopedInv(s) && s.outcome.Some? && Runs(s, actions, t)
    ensures t.outcome == s.outcome
    decreases |actions|
  {
    hide ScopedInv, Enabled, Step;
    if actions != [] {
      StepKeepsScopedInv(s, actions[0]);
      OutcomeMoves(s, actions[0]);
      OutcomeStays(Step(s, actions[0]), actions[1..], t);
    }
  }

  lemma DecidedWhenDrained(s: ScopedRun)
    requires ScopedInv(s) && s.outcome.Some?
    ensures s.coordinator.drainCalls == 1
  {
    hide I.Inv;
  }

  /**
   * The outcome of a scoped run is decided by what has happened when it is finalized, and stays: failed if a system, the
   * publication or a clean-up threw or an operation failed in the coordinator, otherwise cancelled if it was cancelled,
   * otherwise completed.
   */
  lemma OutcomeIsDecided(owner: nat, before: seq<Action>, s: ScopedRun, a: Action, later: seq<Action>, t: ScopedRun)
    requires Runs(InitialScopedRun(owner), before, s) && s.outcome.None?
    requires Enabled(s, a) && Step(s, a).outcome.Some? && Runs(Step(s, a), later, t)
    ensures var happened := before + [a];
            t.outcome == Some(if (exists k | 0 <= k < |happened| :: Throws(happened[k]))
                                 || (exists i | 0 <= i < |t.coordinator.operations| :: t.coordinator.operations[i].status == C.FAILED)
                              then P.FAILED
                              else if exists k | 0 <= k < |happened| :: happened[k].CANCEL? then P.CANCELLED
                              else P.COMPLETED)
  {
    hide ScopedInv, Enabled, Step, Throws, SomeFailed;
    var start, m, happened := InitialScopedRun(owner), Step(s, a), before + [a];
    InitialScopedInv(owner);
    ReachableScopedRun(start, before, s);
    OutcomeMoves(s, a);
    StepKeepsScopedInv(s, a);
    DecidedWhenDrained(m);
    OutcomeStays(m, later, t);
    RunOneMore(start, before, s, a);
    FlagsFollow(start, happened, m);
    FlagsFollow(m, later, t);
    assert SomeFailed(t.coordinator.operations) <==>
           exists i | 0 <= i < |t.coordinator.operations| :: t.coordinator.operations[i].status == C.FAILED
      by { FailedIs(t.coordinator.operations); }
    assert start.coordinator.drainCalls == 0;
  }

  lemma FailedIs(ops: seq<C.Operation>)
    ensures SomeFailed(ops) <==> exists i | 0 <= i < |ops| :: ops[i].status == C.FAILED
  {
  }

  lemma {:induction false} RunOneMore(s: ScopedRun, actions: seq<Action>, m: ScopedRun, a: Action)
    requires Runs(s, actions, m) && Enabled(m, a)
    ensures Runs(s, actions + [a], Step(m, a))
    decreases |actions|
  {
    hide Enabled, Step;
    if actions == [] {
      assert ([] + [a])[1..] == [];
    } else {
      assert (actions + [a])[1..] == actions[1..] + [a];
      RunOneMore(Step(s, actions[0]), actions[1..], m, a);
    }
  }

  /** A running system may open a buffer exactly as long as nothing has thrown and nobody has cancelled. */
  lemma OpensExactly(owner: nat, actions: seq<Action>, t: ScopedRun, i: nat)
    requires Runs(InitialScopedRun(owner), actions, t)
    ensures Enabled(t, OPEN_BUFFER(i)) <==>
      && i < |t.coordinator.operations| && t.coordinator.operations[i].status == C.RUNNING
      && forall k :: 0 <= k < |actions| ==> !Throws(actions[k]) && !actions[k].CANCEL?
  {
    hide ScopedInv, Throws;
    InitialScopedInv(owner);
    ReachableScopedRun(InitialScopedRun(owner), actions, t);
    if IsRunning(t, i) {
      RunsUndrained(t, i);
      FailedOnlyByThrow(InitialScopedRun(owner), actions, t);
    }
    FlagsFollow(InitialScopedRun(owner), actions, t);
  }

  lemma RunsUndrained(t: ScopedRun, i: nat)
    requires ScopedInv(t) && IsRunning(t, i)
    ensures t.coordinator.drainCalls == 0
  {
    hide I.Inv;
    RunningMeansUndrained(t.coordinator, i);
  }

  /** Until the drain callback only a throw sets the flag. */
  lemma {:induction false} FailedOnlyByThrow(s: ScopedRun, actions: seq<Action>, t: ScopedRun)
    requires ScopedInv(s) && Runs(s, actions, t) && t.coordinator.drainCalls == 0
    ensures s.coordinator.drainCalls == 0
    ensures t.failed ==> s.failed || exists k :: 0 <= k < |actions| && Throws(actions[k])
    decreases |actions|
  {
    hide ScopedInv, Enabled, Step, Throws;
    if actions != [] {
      var m := Step(s, actions[0]);
      StepKeepsScopedInv(s, actions[0]);
      FailedOnlyByThrow(m, actions[1..], t);
      CountsDrains(s, actions[0]);
      FlagBeforeDrain(s, actions[0]);
      assert forall k :: 1 <= k < |actions| ==> actions[k] == actions[1..][k - 1];
    }
  }

  lemma FlagBeforeDrain(s: ScopedRun, a: Action)
    requires Step(s, a).coordinator.drainCalls <= s.coordinator.drainCalls
    ensures Step(s, a).failed <==> s.failed || Throws(a)
  {
    hide C.Step;
  }

  // ----------------------------------------------- what a run does to its coordinator

  /** The callback of a system catches what the system throws, and nobody stops the coordinator of a run or cancels a
      single operation of it. */
  predicate RunUses(a: C.Action) { !a.Cancel? && !a.Stop? && !(a.EndRun? && a.failed) }

  /** An operation has failed exactly if the coordinator has latched a failure; nothing is cancelled without one. */
  ghost predicate FailuresLatched(s: C.State) {
    && (s.hasFailure ==> exists i :: 0 <= i < |s.operations| && s.operations[i].status == C.FAILED)
    && (!s.hasFailure ==> forall i :: 0 <= i < |s.operations| ==> s.operations[i].status !in {C.FAILED, C.CANCELLED})
  }

  lemma {:induction false} ScanCancelsNothing(ops: seq<C.Operation>, index: nat)
    requires index <= |ops|
    requires forall i :: 0 <= i < |ops| ==> ops[i].status !in {C.FAILED, C.CANCELLED}
    ensures |C.ScanFrom(ops, index).0| == |ops|
    ensures forall i :: 0 <= i < |ops| ==> C.ScanFrom(ops, index).0[i].status !in {C.FAILED, C.CANCELLED}
    decreases |ops| - index
  {
    hide C.AllDependenciesCompleted;
    if index < |ops| { ScanCancelsNothing(ops, index + 1); }
  }

  lemma EndsLatch(s: C.State, t: nat, i: nat)
    requires FailuresLatched(s) && !s.hasFailure
    ensures FailuresLatched(C.EndRunStep(s, i, t, false)) && FailuresLatched(C.ReleaseStep(s, t))
  {
    hide C.FindReleasable, C.Releasable;
  }

  lemma ProgressLatches(s: C.State, t: nat)
    requires FailuresLatched(s) && !s.hasFailure
    ensures FailuresLatched(C.ScanStep(s, t)) && FailuresLatched(C.SubmitFailedStep(s, t))
  {
    hide C.ScanFrom;
    ScanCancelsNothing(s.operations, 0);
    if t in s.threads && s.threads[t].Submitting? {
      var k := s.threads[t].index;
      if k < |s.operations| && s.operations[k].status == C.QUEUED {
        assert C.SubmitFailedStep(s, t).operations[k].status == C.FAILED;
      }
    }
  }

  lemma OtherBlocksLatch(s: C.State, a: C.Action)
    requires FailuresLatched(s) && !s.hasFailure && (a.Schedule? || a.CompleteSeal? || a.DropStopToken?)
    ensures FailuresLatched(C.Step(s, a))
  {
    hide C.Step, A.NormalizeAll, C.Explicit, C.Conflicting, C.FindToken, C.ReadyToSeal;
    C.StepIsBlock(s, a);
  }

  lemma RestLatches(s: C.State, a: C.Action)
    requires FailuresLatched(s) && !s.hasFailure
    requires a.RegisterDomain? || a.Seal? || a.Submitted? || a.Retired? || a.BeginRun? || a.Access? || a.Drained?
          || a.DropTokens? || a.CallBack?
    ensures FailuresLatched(C.Step(s, a))
  {
    hide C.ScheduleStep, C.CancelStep, C.ScanStep, C.SubmitFailedStep, C.ReleaseStep, C.EndRunStep, C.CompleteSealStep,
      C.DropStopTokenStep, C.Registered, C.CancelPending;
  }

  lemma StepLatches(s: C.State, a: C.Action)
    requires FailuresLatched(s) && RunUses(a)
    ensures FailuresLatched(C.Step(s, a))
  {
    hide C.Step;
    if s.hasFailure {
      O.StepStays(s, a);
      var i :| 0 <= i < |s.operations| && s.operations[i].status == C.FAILED;
      O.EndsAsBefore(s.operations, C.Step(s, a).operations, i);
    } else {
      C.StepIsBlock(s, a);
      match a
      case Scan(t) => ProgressLatches(s, t);
      case SubmitFailed(t) => ProgressLatches(s, t);
      case Release(t) => EndsLatch(s, t, 0);
      case EndRun(i, t, _) => EndsLatch(s, t, i);
      case Schedule(_, _, _) => OtherBlocksLatch(s, a);
      case CompleteSeal(_) => OtherBlocksLatch(s, a);
      case DropStopToken(_) => OtherBlocksLatch(s, a);
      case _ => RestLatches(s, a);
    }
  }

  lemma {:induction false} RunLatches(s: C.State, actions: seq<C.Action>)
    requires FailuresLatched(s) && forall k :: 0 <= k < |actions| ==> RunUses(actions[k])
    ensures FailuresLatched(C.RunActions(s, actions))
    decreases |actions|
  {
    hide C.Step, RunUses, FailuresLatched;
    if actions != [] {
      StepLatches(s, actions[0]);
      RunLatches(C.Step(s, actions[0]), actions[1..]);
    }
  }

  // ---------------------------------------------------------- completed runs

  lemma {:induction false} CompletedHadNoFlags(s: ScopedRun, actions: seq<Action>, t: ScopedRun)
    requires ScopedInv(s) && s.outcome.None? && Runs(s, actions, t) && t.outcome == Some(P.COMPLETED)
    requires s.coordinator.drainCalls == 0
    ensures !s.failed && !s.cancelled && !SomeFailed(t.coordinator.operations)
    decreases |actions|
  {
    hide ScopedInv, Enabled, Step, Throws, SomeFailed;
    var m := Step(s, actions[0]);
    StepKeepsScopedInv(s, actions[0]);
    FlagsMove(s, actions[0]);
    CountsDrains(s, actions[0]);
    OutcomeMoves(s, actions[0]);
    if m.outcome.Some? {
      DecidedWhenDrained(m);
      OutcomeStays(m, actions[1..], t);
      FlagsFollow(m, actions[1..], t);
    } else if m.coordinator.drainCalls == 0 {
      CompletedHadNoFlags(m, actions[1..], t);
    } else {
      FailureIsSeen(m, actions[1..], t);
    }
  }

  /** Once drained, only buffers are waited for; the run completes only if no flag is set by then. */
  lemma {:induction false} FailureIsSeen(s: ScopedRun, actions: seq<Action>, t: ScopedRun)
    requires ScopedInv(s) && s.outcome.None? && s.coordinator.drainCalls == 1 && Runs(s, actions, t)
    requires t.outcome == Some(P.COMPLETED)
    ensures !s.failed && !s.cancelled
    ensures SomeFailed(t.coordinator.operations) ==> SomeFailed(s.coordinator.operations)
    decreases |actions|
  {
    hide ScopedInv, Enabled, Step, Throws, SomeFailed;
    var m := Step(s, actions[0]);
    StepKeepsScopedInv(s, actions[0]);
    FlagsMove(s, actions[0]);
    CountsDrains(s, actions[0]);
    OutcomeMoves(s, actions[0]);
    FlagsFollow(s, actions, t);
    if m.outcome.Some? { OutcomeStays(m, actions[1..], t); } else { FailureIsSeen(m, actions[1..], t); }
  }

  lemma OpenIsUndecided(s: ScopedRun)
    requires ScopedInv(s) && !s.coordinator.closed
    ensures s.outcome.None? && s.coordinator.drainCalls == 0
  {
    hide I.Inv;
    if s.coordinator.drainCalls == 1 { DrainedIsEmpty(s.coordinator); }
  }

  lemma DecidedIsEmpty(s: ScopedRun)
    requires ScopedInv(s) && s.outcome.Some?
    ensures forall i :: 0 <= i < |s.coordinator.operations| ==> C.IsTerminal(s.coordinator.operations[i].status)
  {
    hide I.Inv;
    DrainedIsEmpty(s.coordinator);
  }

  lemma EndedWithout(s: C.State)
    requires FailuresLatched(s) && !SomeFailed(s.operations)
    requires forall i :: 0 <= i < |s.operations| ==> C.IsTerminal(s.operations[i].status)
    ensures forall i :: 0 <= i < |s.operations| ==> s.operations[i].status == C.COMPLETED
  {
  }

  /**
   * The publisher of a scoped run seals the coordinator once it has scheduled all systems, or behind a failure or a
   * cancellation. A run that ends completed has scheduled all of them, and all of them have run to their end, with no
   * publication lost inside the coordinator on the way.
   */
  lemma CompletedMeansAllRan(owner: nat, total: nat, before: seq<Action>, s: ScopedRun, publisher: nat, later: seq<Action>,
                             end: ScopedRun)
    requires Runs(InitialScopedRun(owner), before, s) && !s.coordinator.closed && C.Fresh(s.coordinator, publisher)
    requires |s.coordinator.operations| == total || s.failed || s.cancelled
    requires Runs(Step(s, COORDINATE(C.Seal(publisher))), later, end)
    requires forall k :: 0 <= k < |CoordinatorSteps(before)| ==> RunUses(CoordinatorSteps(before)[k])
    requires forall k :: 0 <= k < |CoordinatorSteps(later)| ==> RunUses(CoordinatorSteps(later)[k])
    requires end.outcome == Some(P.COMPLETED)
    ensures |end.coordinator.operations| == total
    ensures forall i :: 0 <= i < total ==> end.coordinator.operations[i].status == C.COMPLETED
  {
    hide ScopedInv, Step, C.Step, I.Inv, FailuresLatched, RunUses, O.OperationsStay, SomeFailed;
    var seal := COORDINATE(C.Seal(publisher));
    var m := Step(s, seal);
    InitialScopedInv(owner);
    ReachableScopedRun(InitialScopedRun(owner), before, s);
    StepKeepsScopedInv(s, seal);
    ReachableScopedRun(m, later, end);
    OpenIsUndecided(s);
    SealingDecidesNothing(s, publisher);
    CompletedHadNoFlags(m, later, end);
    OneStep(s, seal);
    RunOfCoordinator(InitialScopedRun(owner), before, s);
    RunOfCoordinator(m, later, end);
    NothingLatched(owner);
    RunLatches(C.Initial(owner), CoordinatorSteps(before));
    StepLatches(s.coordinator, C.Seal(publisher)) by { SealIsUsed(publisher); }
    RunLatches(m.coordinator, CoordinatorSteps(later));
    O.RunStays(m.coordinator, CoordinatorSteps(later));
    DecidedIsEmpty(end);
    EndedWithout(end.coordinator);
  }

  lemma NothingLatched(owner: nat)
    ensures FailuresLatched(C.Initial(owner)) && InitialScopedRun(owner).coordinator == C.Initial(owner)
  {
  }

  lemma SealIsUsed(publisher: nat)
    ensures RunUses(C.Seal(publisher))
  {
  }

  lemma SealingDecidesNothing(s: ScopedRun, publisher: nat)
    requires !s.coordinator.closed && C.Fresh(s.coordinator, publisher) && s.outcome.None?
    ensures var m := Step(s, COORDINATE(C.Seal(publisher)));
      && m.outcome.None? && m.failed == s.failed && m.cancelled == s.cancelled
      && m.coordinator.drainCalls == s.coordinator.drainCalls
      && m.coordinator.closed && m.coordinator.operations == s.coordinator.operations
  {
    hide C.ScheduleStep, C.CancelStep, C.ScanStep, C.SubmitFailedStep, C.ReleaseStep, C.EndRunStep, C.CompleteSealStep,
      C.DropStopTokenStep, C.Registered, C.CancelPending;
  }
}

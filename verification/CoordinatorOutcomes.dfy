// What becomes of an operation whose run has ended, and of everything behind it, over whole runs.
module CoordinatorOutcomes {
  import opened Wrappers
  import opened AccessScopes
  import opened CoordinatorSpec
  import opened CoordinatorInvariant
  import opened CoordinatorSteps
  import opened CoordinatorTheorems

  // ------------------------------------------------- what no step ever changes

  /** An operation keeps what it was admitted with, and once it has ended it keeps its end. */
  ghost predicate OperationStays(op: Operation, op': Operation) {
    && op'.footprints == op.footprints && op'.dependencies == op.dependencies
    && (op.status in {COMPLETED, FAILED, CANCELLED} ==> op'.status == op.status)
  }

  ghost predicate OperationsStay(ops: seq<Operation>, ops': seq<Operation>) {
    |ops'| >= |ops| && forall i :: 0 <= i < |ops| ==> OperationStays(ops[i], ops'[i])
  }

  /** A failure stays latched, and behind it nothing is admitted. */
  ghost predicate Stays(s: State, s': State) {
    && OperationsStay(s.operations, s'.operations)
    && (s.hasFailure || s.closed ==> |s'.operations| == |s.operations|)
    && (s.hasFailure ==> s'.hasFailure) && (s.closed ==> s'.closed)
  }

  lemma {:induction false} ScanStays(ops: seq<Operation>, index: nat)
    requires index <= |ops|
    ensures |ScanFrom(ops, index).0| == |ops| && OperationsStay(ops, ScanFrom(ops, index).0)
    decreases |ops| - index
  {
    hide HasFailedDependency, AllDependenciesCompleted;
    if index < |ops| {
      var op := ops[index];
      ScanStays(ops, index + 1);
      ScanStays(ops[index := op.(status := CANCELLED)], index + 1);
    }
  }

  lemma SameOperationsStay(ops: seq<Operation>)
    ensures OperationsStay(ops, ops)
  {
  }

  lemma OneMoreStays(ops: seq<Operation>, op: Operation)
    ensures OperationsStay(ops, ops + [op])
  {
  }

  lemma OneChangedStays(ops: seq<Operation>, i: nat, op: Operation)
    requires i < |ops| && OperationStays(ops[i], op)
    ensures OperationsStay(ops, ops[i := op])
  {
  }

  lemma PendingCancelledStay(ops: seq<Operation>)
    ensures |CancelPending(ops)| == |ops| && OperationsStay(ops, CancelPending(ops))
  {
  }

  lemma AdmissionStays(s: State, t: nat, footprints: seq<AccessFootprint>, keys: seq<OperationKey>)
    ensures Stays(s, ScheduleStep(s, t, footprints, keys))
  {
    hide OperationsStay, NormalizeAll, Conflicting, Explicit;
    SameOperationsStay(s.operations);
    var op := Admit(s, footprints, keys);
    if op.Some? { OneMoreStays(s.operations, op.value); }
  }

  lemma CancelStays(s: State, t: nat, key: OperationKey)
    ensures Stays(s, CancelStep(s, t, key))
  {
    hide OperationsStay;
    SameOperationsStay(s.operations);
    var i := Resolve(s, key);
    if i.Some? && s.operations[i.value].status in {WAITING, QUEUED} {
      OneChangedStays(s.operations, i.value, s.operations[i.value].(status := CANCELLED));
    }
  }

  lemma EndRunStays(s: State, i: nat, t: nat, failed: bool)
    ensures Stays(s, EndRunStep(s, i, t, failed))
  {
    hide OperationsStay;
    SameOperationsStay(s.operations);
    if i < |s.operations| && s.operations[i].status == RUNNING {
      OneChangedStays(s.operations, i, s.operations[i].(status := FAILED));
      OneChangedStays(s.operations, i, s.operations[i].(status := COMPLETED));
    }
  }

  lemma ScanStepStays(s: State, t: nat)
    ensures Stays(s, ScanStep(s, t))
  {
    hide OperationsStay, ScanFrom;
    SameOperationsStay(s.operations);
    ScanStays(s.operations, 0);
  }

  lemma SubmitFailedStays(s: State, t: nat)
    ensures Stays(s, SubmitFailedStep(s, t))
  {
    hide OperationsStay;
    SameOperationsStay(s.operations);
    if t in s.threads && s.threads[t].Submitting? {
      var i := s.threads[t].index;
      if i < |s.operations| && s.operations[i].status == QUEUED {
        OneChangedStays(s.operations, i, s.operations[i].(status := FAILED));
      }
    }
  }

  lemma ReleaseStays(s: State, t: nat)
    ensures Stays(s, ReleaseStep(s, t))
  {
    hide OperationsStay, FindReleasable, Releasable;
    SameOperationsStay(s.operations);
    var i := FindReleasable(s.operations, 0);
    if i < |s.operations| {
      OneChangedStays(s.operations, i, s.operations[i].(hasFunction := false, retiring := true));
    }
  }

  lemma SealingStays(s: State, t: nat)
    ensures Stays(s, CompleteSealStep(s, t)) && Stays(s, DropStopTokenStep(s, t))
  {
    hide OperationsStay, ReadyToSeal, FindToken;
    SameOperationsStay(s.operations);
  }

  lemma StopStays(s: State, t: nat)
    ensures Stays(s, Step(s, Stop(t)))
  {
    hide OperationsStay, ScheduleStep, CancelStep, ScanStep, SubmitFailedStep, ReleaseStep, EndRunStep, CompleteSealStep,
      DropStopTokenStep, Registered, CancelPending, AfterSeal;
    SameOperationsStay(s.operations);
    PendingCancelledStay(s.operations);
  }

  lemma RetiredStays(s: State, t: nat)
    ensures Stays(s, Step(s, Retired(t)))
  {
    hide OperationsStay, ScheduleStep, CancelStep, ScanStep, SubmitFailedStep, ReleaseStep, EndRunStep, CompleteSealStep,
      DropStopTokenStep, Registered, CancelPending, AfterSeal;
    SameOperationsStay(s.operations);
    if t in s.threads && s.threads[t].Retiring? && s.threads[t].index < |s.operations| {
      var i := s.threads[t].index;
      OneChangedStays(s.operations, i, s.operations[i].(retiring := false));
    }
  }

  lemma BeginRunStays(s: State, i: nat)
    ensures Stays(s, Step(s, BeginRun(i)))
  {
    hide OperationsStay, ScheduleStep, CancelStep, ScanStep, SubmitFailedStep, ReleaseStep, EndRunStep, CompleteSealStep,
      DropStopTokenStep, Registered, CancelPending, AfterSeal;
    SameOperationsStay(s.operations);
    if i < |s.operations| && s.operations[i].status == QUEUED {
      OneChangedStays(s.operations, i, s.operations[i].(status := RUNNING, hasFunction := false));
    }
  }

  lemma RestStays(s: State, action: Action)
    requires action.RegisterDomain? || action.Seal? || action.Submitted? || action.Access? || action.Drained?
          || action.DropTokens? || action.CallBack?
    ensures Stays(s, Step(s, action))
  {
    hide OperationsStay, ScheduleStep, CancelStep, ScanStep, SubmitFailedStep, ReleaseStep, EndRunStep, CompleteSealStep,
      DropStopTokenStep, Registered, CancelPending;
    SameOperationsStay(s.operations);
  }

  lemma StepStays(s: State, action: Action)
    ensures Stays(s, Step(s, action))
  {
    hide *;
    StepIsBlock(s, action);
    match action
    case Schedule(t, footprints, keys) => AdmissionStays(s, t, footprints, keys);
    case Cancel(t, key) => CancelStays(s, t, key);
    case EndRun(i, t, failed) => EndRunStays(s, i, t, failed);
    case Scan(t) => ScanStepStays(s, t);
    case SubmitFailed(t) => SubmitFailedStays(s, t);
    case Stop(t) => StopStays(s, t);
    case Retired(t) => RetiredStays(s, t);
    case BeginRun(i) => BeginRunStays(s, i);
    case Release(t) => ReleaseStays(s, t);
    case CompleteSeal(t) => SealingStays(s, t);
    case DropStopToken(t) => SealingStays(s, t);
    case _ => RestStays(s, action);
  }

  lemma StaysOn(s: State, m: State, e: State)
    requires Stays(s, m) && Stays(m, e)
    ensures Stays(s, e)
  {
    forall i | 0 <= i < |s.operations|
      ensures OperationStays(s.operations[i], e.operations[i])
    {
      assert OperationStays(s.operations[i], m.operations[i]) && OperationStays(m.operations[i], e.operations[i]);
    }
  }

  lemma {:induction false} RunStays(s: State, actions: seq<Action>)
    ensures Stays(s, RunActions(s, actions))
    decreases |actions|
  {
    hide Stays, Step;
    if actions == [] {
      NothingMoves(s);
    } else {
      StepStays(s, actions[0]);
      RunStays(Step(s, actions[0]), actions[1..]);
      StaysOn(s, Step(s, actions[0]), RunActions(s, actions));
    }
  }

  lemma NothingMoves(s: State)
    ensures Stays(s, s)
  {
  }

  lemma {:induction false} RunsJoin(s: State, a: seq<Action>, b: seq<Action>)
    ensures RunActions(RunActions(s, a), b) == RunActions(s, a + b)
    decreases |a|
  {
    hide Step;
    if a == [] {
      assert a + b == b;
    } else {
      assert (a + b)[1..] == a[1..] + b;
      RunsJoin(Step(s, a[0]), a[1..], b);
    }
  }

  // ------------------------------------------------------- how a run ends

  /**
   * The end of a run is accepted exactly for a running operation. It ends failed if its callback threw and
   * completed if it returned; a throw is latched, and no other operation changes.
   */
  lemma EndOfRun(s: State, i: nat, t: nat, failed: bool)
    requires Inv(s) && t !in s.threads
    ensures var e := Step(s, EndRun(i, t, failed));
      && (e != s <==> i < |s.operations| && s.operations[i].status == RUNNING)
      && (e != s ==>
            && |e.operations| == |s.operations| && e.running + 1 == s.running
            && (e.operations[i].status == FAILED <==> failed) && (e.operations[i].status == COMPLETED <==> !failed)
            && (e.hasFailure <==> s.hasFailure || failed)
            && forall k :: 0 <= k < |s.operations| && k != i ==> e.operations[k] == s.operations[k])
  {
    hide Step;
    StepIsBlock(s, EndRun(i, t, failed));
    if i < |s.operations| && s.operations[i].status == RUNNING { SomeoneRuns(s, i); }
  }

  lemma SomeoneRuns(s: State, i: nat)
    requires Inv(s) && i < |s.operations| && s.operations[i].status == RUNNING
    ensures s.running > 0
  {
    FlagCounts(RunningFlags(s.operations), i);
  }

  lemma {:induction false} FlagCounts(flags: seq<bool>, i: nat)
    requires i < |flags| && flags[i]
    ensures CountTrue(flags) > 0
  {
    if i < |flags| - 1 { FlagCounts(flags[..|flags| - 1], i); }
  }

  /**
   * The publication of a queued operation that throws fails it, and the failure is latched; an operation that has been
   * cancelled meanwhile is left alone.
   */
  lemma EndOfPublication(s: State, t: nat)
    requires Inv(s) && t in s.threads && s.threads[t].Submitting? && s.threads[t].index < |s.operations|
    ensures var e, i := Step(s, SubmitFailed(t)), s.threads[t].index;
      && |e.operations| == |s.operations|
      && (s.operations[i].status == QUEUED ==> e.operations[i].status == FAILED && e.hasFailure)
      && (s.operations[i].status != QUEUED ==> e.operations == s.operations && (e.hasFailure <==> s.hasFailure))
      && forall k :: 0 <= k < |s.operations| && k != i ==> e.operations[k] == s.operations[k]
  {
    hide Step;
    StepIsBlock(s, SubmitFailed(t));
  }

  /** Stop closes admission and cancels exactly what has not started. */
  lemma EndByStop(s: State, t: nat)
    requires t !in s.threads
    ensures var e := Step(s, Stop(t));
      && e.closed && |e.operations| == |s.operations|
      && forall k :: 0 <= k < |s.operations| ==>
           if s.operations[k].status in {WAITING, QUEUED} then e.operations[k].status == CANCELLED
           else e.operations[k] == s.operations[k]
  {
    hide ScheduleStep, CancelStep, ScanStep, SubmitFailedStep, ReleaseStep, EndRunStep, CompleteSealStep,
      DropStopTokenStep, Registered, AfterSeal;
  }

  // ----------------------------------------------------- what an end entails

  /** A chain of operations each of which is a dependency of the next. */
  ghost predicate IsChain(ops: seq<Operation>, chain: seq<nat>) {
    && chain != [] && (forall k :: 0 <= k < |chain| ==> chain[k] < |ops|)
    && forall k :: 0 <= k < |chain| - 1 ==> chain[k] in ops[chain[k + 1]].dependencies
  }

  lemma {:induction false} ChainNeverRuns(s: State, chain: seq<nat>)
    requires Inv(s) && IsChain(s.operations, chain) && |chain| >= 2
    requires s.operations[chain[0]].status in {FAILED, CANCELLED}
    ensures s.operations[chain[|chain| - 1]].status in {WAITING, CANCELLED}
    ensures forall x :: 0 <= x < |s.history| ==> s.history[x].op != chain[|chain| - 1]
    decreases |chain|
  {
    hide Inv, IsChain;
    var n := |chain| - 1;
    ChainSplits(s.operations, chain);
    if n >= 2 {
      ChainNeverRuns(s, chain[..n]);
    }
    NotCompletedNotConsumed(s, chain[n - 1], chain[n]);
  }

  lemma ChainSplits(ops: seq<Operation>, chain: seq<nat>)
    requires IsChain(ops, chain) && |chain| >= 2
    ensures IsChain(ops, chain[..|chain| - 1])
    ensures chain[|chain| - 2] < |ops| && chain[|chain| - 1] < |ops|
    ensures chain[|chain| - 2] in ops[chain[|chain| - 1]].dependencies
  {
  }

  lemma NotCompletedNotConsumed(s: State, d: nat, j: nat)
    requires Inv(s) && d < |s.operations| && j < |s.operations| && d in s.operations[j].dependencies
    requires s.operations[d].status != COMPLETED
    ensures s.operations[j].status in {WAITING, CANCELLED}
    ensures forall x :: 0 <= x < |s.history| ==> s.history[x].op != j
  {
    hide ClashesOrdered;
  }

  /**
   * An operation that has failed or was cancelled stays so in every continuation, and nothing that depends on it, even
   * through others, ever makes an access.
   */
  lemma FailedForGood(owner: nat, before: seq<Action>, i: nat, later: seq<Action>, chain: seq<nat>)
    requires var s := RunActions(Initial(owner), before);
             i < |s.operations| && s.operations[i].status in {FAILED, CANCELLED}
    requires var e := RunActions(Initial(owner), before + later);
             IsChain(e.operations, chain) && |chain| >= 2 && chain[0] == i
    ensures var e := RunActions(Initial(owner), before + later);
      && e.operations[i].status == RunActions(Initial(owner), before).operations[i].status
      && forall x :: 0 <= x < |e.history| ==> e.history[x].op != chain[|chain| - 1]
  {
    hide Step, Inv, OperationsStay;
    var s := RunActions(Initial(owner), before);
    RunsJoin(Initial(owner), before, later);
    RunStays(s, later);
    var e := RunActions(s, later);
    EndsAsBefore(s.operations, e.operations, i);
    ReachedBy(owner, before + later);
    ReachableSound(e);
    ChainNeverRuns(e, chain);
  }

  /**
   * In every run: an operation whose callback threw stays failed, nothing is admitted any more, and nothing that depends
   * on it ever makes an access. An operation whose callback returned stays completed.
   */
  lemma ThrownWorkIsNeverConsumed(owner: nat, before: seq<Action>, i: nat, t: nat, failed: bool, later: seq<Action>)
    requires var s := RunActions(Initial(owner), before);
             t !in s.threads && i < |s.operations| && s.operations[i].status == RUNNING
    ensures var s, e := RunActions(Initial(owner), before), RunActions(Initial(owner), before + [EndRun(i, t, failed)] + later);
      && i < |e.operations|
      && (!failed ==> e.operations[i].status == COMPLETED)
      && (failed ==> e.operations[i].status == FAILED && e.hasFailure && |e.operations| == |s.operations|)
      && (failed ==> forall j, x :: 0 <= j < |e.operations| && i in e.operations[j].dependencies && 0 <= x < |e.history| ==>
            e.history[x].op != j)
  {
    hide Step, Inv, OperationsStay;
    var s := RunActions(Initial(owner), before);
    var m := Step(s, EndRun(i, t, failed));
    var ended := before + [EndRun(i, t, failed)];
    var e := RunActions(Initial(owner), ended + later);
    ReachedBy(owner, before);
    ReachableSound(s);
    EndOfRun(s, i, t, failed);
    assert RunActions(s, [EndRun(i, t, failed)]) == m by { assert [EndRun(i, t, failed)][1..] == []; }
    RunsJoin(Initial(owner), before, [EndRun(i, t, failed)]);
    RunsJoin(Initial(owner), ended, later);
    RunStays(m, later);
    EndsAsBefore(m.operations, e.operations, i);
    if failed {
      forall j, x | 0 <= j < |e.operations| && i in e.operations[j].dependencies && 0 <= x < |e.history|
        ensures e.history[x].op != j
      {
        FailedForGood(owner, ended, i, later, [i, j]);
      }
    }
  }

  lemma EndsAsBefore(ops: seq<Operation>, ops': seq<Operation>, i: nat)
    requires OperationsStay(ops, ops') && i < |ops| && ops[i].status in {COMPLETED, FAILED, CANCELLED}
    ensures i < |ops'| && ops'[i].status == ops[i].status
  {
  }

  lemma ReachedBy(owner: nat, actions: seq<Action>)
    ensures Reachable(RunActions(Initial(owner), actions))
  {
  }
}

/** Every step of the coordinator keeps its invariant. */
module CoordinatorSteps {
  import opened Wrappers
  import opened AccessScopes
  import opened CoordinatorSpec
  import opened CoordinatorInvariant

  // ------------------------------------------- parts kept by moving a thread

  /** t moves to a new thread state or, for None, leaves. */
  ghost predicate ThreadMoves(s: State, s': State, t: nat, thread: Option<Thread>) {
    s'.threads == if thread.Some? then s.threads[t := thread.value] else s.threads - {t}
  }

  ghost predicate SameSeal(s: State, s': State) {
    && s'.sealed == s.sealed && s'.sealCompleted == s.sealCompleted && s'.released == s.released
    && s'.drainCalls == s.drainCalls && s'.domains == s.domains
  }

  lemma WakeupKept(s: State, s': State, t: nat, thread: Thread)
    requires ThreadMoves(s, s', t, Some(thread))
    ensures Advances(thread) ==> NoLostWakeup(s') && NoLostPayload(s')
    ensures Releases(thread) ==> NoLostPayload(s')
  {
    assert t in s'.threads;
  }

  lemma RetirersKept(s: State, s': State, t: nat, thread: Option<Thread>)
    requires RetirersMatch(s) && ThreadMoves(s, s', t, thread)
    requires thread.Some? ==> !thread.value.Retiring?
    requires t in s.threads ==> !s.threads[t].Retiring?
    requires |s.operations| <= |s'.operations|
    requires forall i :: 0 <= i < |s'.operations| ==>
      s'.operations[i].retiring == (i < |s.operations| && s.operations[i].retiring)
    ensures RetirersMatch(s')
  {
    forall i | 0 <= i < |s'.operations| && s'.operations[i].retiring
      ensures exists u :: u in s'.threads && s'.threads[u].Retiring? && s'.threads[u].index == i
    {
      var u :| u in s.threads && s.threads[u].Retiring? && s.threads[u].index == i;
      assert u in s'.threads && s'.threads[u] == s.threads[u];
    }
  }

  lemma StopKept(s: State, s': State, t: nat, thread: Option<Thread>)
    requires StopSound(s) && ThreadMoves(s, s', t, thread)
    requires Evolves(s.operations, s'.operations) && s'.domains == s.domains && (s.closed ==> s'.closed)
    requires thread.Some? && Releases(thread.value) && thread.value.tail == STOP ==> NothingPending(s')
    requires thread == Some(AwaitingDrain) ==>
      NothingPending(s') && forall i :: 0 <= i < |s'.operations| ==> !s'.operations[i].hasFunction
    requires thread.Some? && Stopped(thread.value) ==> Quiet(s')
    ensures StopSound(s')
  {
    KeptByQuiet(s, s');
    forall u | u in s'.threads && s'.threads[u] == AwaitingDrain
      ensures NothingPending(s') && forall i :: 0 <= i < |s'.operations| ==> !s'.operations[i].hasFunction
    {
      if thread.None? || u != t {
        assert s.threads[u] == AwaitingDrain;
        assert forall i :: 0 <= i < |s.operations| ==> OperationEvolves(s.operations[i], s'.operations[i]);
      }
    }
  }

  lemma KeptByQuiet(s: State, s': State)
    requires Evolves(s.operations, s'.operations) && (s.closed ==> s'.closed)
    ensures Quiet(s) ==> Quiet(s')
    ensures NothingPending(s) ==> NothingPending(s')
  {
    forall i | 0 <= i < |s.operations|
      ensures OperationEvolves(s.operations[i], s'.operations[i])
    {
    }
  }

  lemma SealKept(s: State, s': State, t: nat, thread: Option<Thread>)
    requires SealSound(s) && ThreadMoves(s, s', t, thread) && SameSeal(s, s')
    requires thread.Some? ==> !Draining(thread.value)
    requires t in s.threads ==> !Draining(s.threads[t])
    requires Evolves(s.operations, s'.operations) && s'.closed == s.closed
    ensures SealSound(s')
  {
    KeptByQuiet(s, s');
  }

  // ------------------------------------------------------------- the steps

  lemma CancelKeepsInv(s: State, t: nat, key: OperationKey)
    requires Inv(s)
    ensures Inv(CancelStep(s, t, key))
  {
    hide OperationsSound, CountersSound, RetirersMatch, NoLostWakeup, NoLostPayload, StopSound, SealSound, TokensSound, HistorySound;
    var s' := CancelStep(s, t, key);
    if s' != s {
      var i := Resolve(s, key).value;
      var op := s.operations[i].(status := CANCELLED);
      CancelledOperation(s.operations, i);
      CountersKept(s, s', i, op);
      KeptByEvolution(s, s');
      WakeupKept(s, s', t, Progressing(SEAL));
      RetirersKept(s, s', t, Some(Progressing(SEAL)));
      StopKept(s, s', t, Some(Progressing(SEAL)));
      SealKept(s, s', t, Some(Progressing(SEAL)));
    }
  }

  lemma CancelledOperation(ops: seq<Operation>, i: nat)
    requires OperationsSound(ops) && i < |ops| && ops[i].status in {WAITING, QUEUED}
    ensures var ops' := ops[i := ops[i].(status := CANCELLED)]; OperationsSound(ops') && Evolves(ops, ops')
  {
    OperationsAfterUpdate(ops, i, ops[i].(status := CANCELLED));
  }

  /** A status change between two states that both are, or both are not, running. */
  lemma CountersKept(s: State, s': State, i: nat, op: Operation)
    requires CountersSound(s) && i < |s.operations| && s'.operations == s.operations[i := op]
    requires (op.status == RUNNING) == (s.operations[i].status == RUNNING) && op.retiring == s.operations[i].retiring
    requires s'.running == s.running && s'.retiring == s.retiring
    ensures CountersSound(s')
  {
    CountersAfterUpdate(s.operations, i, op);
  }

  lemma ScanKeepsInv(s: State, t: nat)
    requires Inv(s)
    ensures Inv(ScanStep(s, t))
  {
    hide OperationsSound, CountersSound, RetirersMatch, NoLostWakeup, NoLostPayload, StopSound, SealSound, TokensSound, HistorySound;
    var s' := ScanStep(s, t);
    if s' != s {
      var (ops', ready) := ScanFrom(s.operations, 0);
      var thread := s'.threads[t];
      ScanEffect(s.operations, 0);
      ScanEvolves(s.operations, ops');
      ScannedCounters(s, s');
      KeptByEvolution(s, s');
      WakeupKept(s, s', t, thread);
      if ready == None { NothingToWake(s'); }
      RetirersKept(s, s', t, Some(thread));
      StopPendingKept(s, s', t);
      StopKept(s, s', t, Some(thread));
      SealKept(s, s', t, Some(thread));
    }
  }

  lemma ScanEvolves(ops: seq<Operation>, ops': seq<Operation>)
    requires |ops'| == |ops| && forall i :: 0 <= i < |ops| ==> ScanChange(ops[i], ops'[i])
    ensures Evolves(ops, ops')
  {
  }

  lemma ScannedCounters(s: State, s': State)
    requires CountersSound(s) && s'.running == s.running && s'.retiring == s.retiring
    requires |s'.operations| == |s.operations|
    requires forall i :: 0 <= i < |s.operations| ==> ScanChange(s.operations[i], s'.operations[i])
    ensures CountersSound(s')
  {
    ScanKeepsCounters(s.operations, s'.operations);
  }

  lemma NothingToWake(s: State)
    requires forall k: nat :: !Actionable(s.operations, k)
    ensures NoLostWakeup(s)
  {
  }

  /** A call that belongs to Stop keeps belonging to it. */
  lemma StopPendingKept(s: State, s': State, t: nat)
    requires StopSound(s) && Evolves(s.operations, s'.operations) && (s.closed ==> s'.closed)
    requires t in s.threads && Releases(s.threads[t])
    ensures s.threads[t].tail == STOP ==> NothingPending(s')
  {
    KeptByQuiet(s, s');
  }

  /** Wakeups and payloads do not depend on a thread that was not looking for them. */
  lemma OthersKeepLooking(s: State, s': State, t: nat, thread: Option<Thread>)
    requires ThreadMoves(s, s', t, thread) && s'.operations == s.operations
    ensures NoLostWakeup(s) && (t in s.threads ==> !Advances(s.threads[t])) ==> NoLostWakeup(s')
    ensures NoLostPayload(s) && (t in s.threads ==> !Releases(s.threads[t])) ==> NoLostPayload(s')
  {
    if u :| u in s.threads && u != t && Advances(s.threads[u]) { assert u in s'.threads && s'.threads[u] == s.threads[u]; }
    if u :| u in s.threads && u != t && Releases(s.threads[u]) { assert u in s'.threads && s'.threads[u] == s.threads[u]; }
  }

  lemma SameOperations(s: State, s': State)
    requires s'.operations == s.operations && s'.running == s.running && s'.retiring == s.retiring
    requires s'.domains == s.domains && s'.history == s.history
    ensures Evolves(s.operations, s'.operations)
    ensures CountersSound(s) ==> CountersSound(s')
    ensures TokensSound(s) ==> TokensSound(s')
    ensures HistorySound(s) ==> HistorySound(s')
  {
  }

  /** A step that only moves a thread which neither retires, drains nor belongs to a Stop. */
  lemma PlainMoveKeepsInv(s: State, s': State, t: nat, thread: Thread)
    requires Inv(s) && s' == Move(s, t, thread) && Advances(thread)
    requires t in s.threads && Advances(s.threads[t]) && thread.tail == s.threads[t].tail
    ensures Inv(s')
  {
    hide OperationsSound, CountersSound, RetirersMatch, NoLostWakeup, NoLostPayload, StopSound, SealSound, TokensSound, HistorySound;
    SameOperations(s, s');
    WakeupKept(s, s', t, thread);
    RetirersKept(s, s', t, Some(thread));
    StopPendingKept(s, s', t);
    StopKept(s, s', t, Some(thread));
    SealKept(s, s', t, Some(thread));
  }

  lemma SubmitFailedKeepsInv(s: State, t: nat)
    requires Inv(s)
    ensures Inv(SubmitFailedStep(s, t))
  {
    hide OperationsSound, CountersSound, RetirersMatch, NoLostWakeup, NoLostPayload, StopSound, SealSound, TokensSound, HistorySound;
    var s' := SubmitFailedStep(s, t);
    if s' != s {
      var thread := Progressing(s.threads[t].tail);
      var i := s.threads[t].index;
      if i < |s.operations| && s.operations[i].status == QUEUED {
        FailedOperation(s.operations, i);
        CountersKept(s, s', i, s.operations[i].(status := FAILED));
        KeptByEvolution(s, s');
        WakeupKept(s, s', t, thread);
        RetirersKept(s, s', t, Some(thread));
        StopPendingKept(s, s', t);
        StopKept(s, s', t, Some(thread));
        SealKept(s, s', t, Some(thread));
      } else {
        PlainMoveKeepsInv(s, s', t, thread);
      }
    }
  }

  lemma FailedOperation(ops: seq<Operation>, i: nat)
    requires OperationsSound(ops) && i < |ops| && ops[i].status == QUEUED
    ensures var ops' := ops[i := ops[i].(status := FAILED)]; OperationsSound(ops') && Evolves(ops, ops')
  {
    OperationsAfterUpdate(ops, i, ops[i].(status := FAILED));
  }

  // ---- admission

  lemma OpenMeansNoStop(s: State)
    requires StopSound(s) && SealSound(s) && !s.closed
    ensures !s.sealed && !s.sealCompleted
    ensures forall i :: 0 <= i < |s.domains| ==> s.domains[i].hasLifetime
    ensures forall t :: t in s.threads ==> !Stopped(s.threads[t]) && s.threads[t] != AwaitingDrain && !Draining(s.threads[t])
    ensures forall t :: t in s.threads && Releases(s.threads[t]) ==> s.threads[t].tail != STOP
  {
  }

  lemma AdmittedOperation(s: State, footprints: seq<AccessFootprint>, keys: seq<OperationKey>)
    requires OperationsSound(s.operations) && Admit(s, footprints, keys).Some?
    ensures OperationsSound(s.operations + [Admit(s, footprints, keys).value])
  {
    var ops, op := s.operations, Admit(s, footprints, keys).value;
    var ops' := ops + [op];
    NormalizeAllNormalizes(footprints);
    forall i, j | 0 <= i < j < |ops'| && OperationsClash(ops'[i].footprints, ops'[j].footprints)
      ensures i in ops'[j].dependencies || IsTerminal(ops'[i].status)
    {
      if j == |ops| && ops[i].HoldsAccess() { assert i in Conflicting(ops, op.footprints); }
    }
    forall j, d | 0 <= j < |ops'| && d in ops'[j].dependencies && ops'[j].status !in {WAITING, CANCELLED}
      ensures d < |ops'| && ops'[d].status == COMPLETED
    {
      assert d in ops[j].dependencies;
    }
  }

  lemma AdmittedTokens(s: State, s': State, footprints: seq<AccessFootprint>, keys: seq<OperationKey>)
    requires TokensSound(s) && StopSound(s) && SealSound(s) && Admit(s, footprints, keys).Some?
    requires s'.operations == s.operations + [Admit(s, footprints, keys).value] && s'.domains == s.domains
    ensures TokensSound(s')
  {
    OpenMeansNoStop(s);
    var op := Admit(s, footprints, keys).value;
    forall f | f in op.footprints
      ensures TokenHeld(s.domains, f.domain)
    {
      var k :| 0 <= k < |op.footprints| && op.footprints[k] == f;
      assert IsRegistered(s.domains, op.footprints[k].domain);
      var i :| 0 <= i < |s.domains| && s.domains[i].key == f.domain;
      assert s.domains[i].hasLifetime;
    }
  }

  lemma ScheduleKeepsInv(s: State, t: nat, footprints: seq<AccessFootprint>, keys: seq<OperationKey>)
    requires Inv(s)
    ensures Inv(ScheduleStep(s, t, footprints, keys))
  {
    hide OperationsSound, CountersSound, RetirersMatch, NoLostWakeup, NoLostPayload, StopSound, SealSound, TokensSound, HistorySound;
    var s' := ScheduleStep(s, t, footprints, keys);
    if s' != s {
      var op := Admit(s, footprints, keys).value;
      AdmittedOperation(s, footprints, keys);
      AppendedCounters(s, s', op);
      AdmittedTokens(s, s', footprints, keys);
      AppendedHistory(s, s', op);
      WakeupKept(s, s', t, Progressing(LEAVE(|s.operations|)));
      RetirersKept(s, s', t, Some(Progressing(LEAVE(|s.operations|))));
      OpenKept(s, s', t, Progressing(LEAVE(|s.operations|)));
    }
  }

  lemma AppendedCounters(s: State, s': State, op: Operation)
    requires CountersSound(s) && s'.operations == s.operations + [op] && op.status == WAITING && !op.retiring
    requires s'.running == s.running && s'.retiring == s.retiring
    ensures CountersSound(s')
  {
    CountersAfterAppend(s.operations, op);
  }

  lemma AppendedHistory(s: State, s': State, op: Operation)
    requires HistorySound(s) && s'.operations == s.operations + [op] && s'.history == s.history
    ensures HistorySound(s')
  {
  }

  lemma OpenKept(s: State, s': State, t: nat, thread: Thread)
    requires StopSound(s) && SealSound(s) && !s.closed && SameSeal(s, s') && s'.closed == s.closed
    requires ThreadMoves(s, s', t, Some(thread)) && Advances(thread) && thread.tail != STOP
    ensures StopSound(s') && SealSound(s')
  {
    OpenMeansNoStop(s);
  }

  lemma RegisterKeepsInv(s: State, key: DomainKey, hasLifetime: bool)
    requires Inv(s)
    ensures Inv(Step(s, RegisterDomain(key, hasLifetime)))
  {
    hide OperationsSound, CountersSound, RetirersMatch, NoLostWakeup, NoLostPayload, StopSound, SealSound, TokensSound, HistorySound;
    var s' := Step(s, RegisterDomain(key, hasLifetime));
    if s' != s {
      RegisteredKeepsTokens(s, s', key);
      RegisteredRest(s, s', key);
    }
  }

  lemma RegisteredKeepsTokens(s: State, s': State, key: DomainKey)
    requires TokensSound(s) && Registered(s, key, true).Some?
    requires s' == s.(domains := Registered(s, key, true).value)
    ensures TokensSound(s')
  {
    forall i, f | 0 <= i < |s.operations| && s.operations[i].HoldsAccess() && f in s.operations[i].footprints
      ensures TokenHeld(s'.domains, f.domain)
    {
      assert TokenHeld(s.domains, f.domain);
      var k :| 0 <= k < |s.domains| && s.domains[k].key == f.domain && s.domains[k].hasLifetime;
      var j :| 0 <= j < |s.operations[i].footprints| && s.operations[i].footprints[j] == f;
      var at := FindDomain(s.domains, key);
      assert at < |s.domains| ==> s.domains[at].key != f.domain;
      assert s'.domains[k] == s.domains[k];
    }
  }

  lemma RegisteredRest(s: State, s': State, key: DomainKey)
    requires Registered(s, key, true).Some? && s' == s.(domains := Registered(s, key, true).value)
    ensures CountersSound(s) ==> CountersSound(s')
    ensures RetirersMatch(s) ==> RetirersMatch(s')
    ensures NoLostWakeup(s) ==> NoLostWakeup(s')
    ensures NoLostPayload(s) ==> NoLostPayload(s')
    ensures HistorySound(s) ==> HistorySound(s')
    ensures StopSound(s) && SealSound(s) ==> StopSound(s') && SealSound(s')
  {
    if StopSound(s) && SealSound(s) { OpenMeansNoStop(s); }
  }

  // ---- closing

  lemma SealKeepsInv(s: State, t: nat)
    requires Inv(s)
    ensures Inv(Step(s, Seal(t)))
  {
    hide OperationsSound, CountersSound, RetirersMatch, NoLostWakeup, NoLostPayload, StopSound, SealSound, TokensSound, HistorySound;
    var s' := Step(s, Seal(t));
    if s' != s {
      SameOperations(s, s');
      WakeupKept(s, s', t, Progressing(SEAL));
      RetirersKept(s, s', t, Some(Progressing(SEAL)));
      StopKept(s, s', t, Some(Progressing(SEAL)));
      NewlySealed(s, s', t);
    }
  }

  lemma NewlySealed(s: State, s': State, t: nat)
    requires SealSound(s) && !s.closed && Fresh(s, t)
    requires s' == Move(s.(closed := true, sealed := true), t, Progressing(SEAL))
    ensures SealSound(s')
  {
  }

  lemma StopKeepsInv(s: State, t: nat)
    requires Inv(s)
    ensures Inv(Step(s, Stop(t)))
  {
    hide OperationsSound, CountersSound, RetirersMatch, NoLostWakeup, NoLostPayload, StopSound, SealSound, TokensSound, HistorySound;
    var s' := Step(s, Stop(t));
    if s' != s {
      PendingCancelled(s.operations);
      CancelledCounters(s, s');
      KeptByEvolution(s, s');
      WakeupKept(s, s', t, Releasing(STOP));
      NothingToWake(s');
      RetirersKept(s, s', t, Some(Releasing(STOP)));
      StopKept(s, s', t, Some(Releasing(STOP)));
      NewlyStopped(s, s', t);
    }
  }

  lemma PendingCancelled(ops: seq<Operation>)
    requires OperationsSound(ops)
    ensures OperationsSound(CancelPending(ops)) && Evolves(ops, CancelPending(ops))
  {
    var ops' := CancelPending(ops);
    forall j, d | 0 <= j < |ops'| && d in ops'[j].dependencies && ops'[j].status !in {WAITING, CANCELLED}
      ensures d < |ops'| && ops'[d].status == COMPLETED
    {
      assert d in ops[j].dependencies;
    }
  }

  lemma CancelledCounters(s: State, s': State)
    requires CountersSound(s) && s'.operations == CancelPending(s.operations)
    requires s'.running == s.running && s'.retiring == s.retiring
    ensures CountersSound(s')
  {
    assert RunningFlags(s'.operations) == RunningFlags(s.operations);
    assert RetiringFlags(s'.operations) == RetiringFlags(s.operations);
  }

  lemma NewlyStopped(s: State, s': State, t: nat)
    requires SealSound(s) && Fresh(s, t)
    requires s' == Move(s.(closed := true, operations := CancelPending(s.operations)), t, Releasing(STOP))
    requires Evolves(s.operations, s'.operations)
    ensures SealSound(s')
  {
    KeptByQuiet(s, s');
  }

  // ---- releasing payloads

  lemma ReleaseKeepsInv(s: State, t: nat)
    requires Inv(s)
    ensures Inv(ReleaseStep(s, t))
  {
    if t in s.threads && s.threads[t].Releasing? {
      if FindReleasable(s.operations, 0) == |s.operations| {
        ReleasedAllKeepsInv(s, t);
      } else {
        BeginRetireKeepsInv(s, t);
      }
    }
  }

  /** Where a call stands when it finds nothing more to release; None when it returns. */
  function NextAfterRelease(tail: Tail): Option<Thread> {
    match tail
    case LEAVE(_) => None
    case SEAL => Some(CompletingSeal(false))
    case STOP => Some(AwaitingDrain)
  }

  lemma AfterReleaseMoves(s: State, t: nat, tail: Tail)
    ensures var s' := AfterRelease(s, t, tail);
            ThreadMoves(s, s', t, NextAfterRelease(tail)) && s' == s.(threads := s'.threads) && SameSeal(s, s')
  {
  }

  lemma ReleasedAllKeepsInv(s: State, t: nat)
    requires Inv(s) && t in s.threads && s.threads[t].Releasing?
    requires FindReleasable(s.operations, 0) == |s.operations|
    ensures Inv(AfterRelease(s, t, s.threads[t].tail))
  {
    hide OperationsSound, CountersSound, RetirersMatch, NoLostWakeup, NoLostPayload, StopSound, SealSound,
      TokensSound, HistorySound, Evolves, FindReleasable, AfterRelease, ThreadMoves, SameSeal, NothingPending;
    var tail := s.threads[t].tail;
    var s', thread := AfterRelease(s, t, tail), NextAfterRelease(tail);
    AfterReleaseMoves(s, t, tail);
    SameOperations(s, s');
    OthersKeepLooking(s, s', t, thread);
    NothingToRelease(s');
    RetirersKept(s, s', t, thread);
    StopPendingKept(s, s', t);
    if tail == STOP { NothingLeft(s'); }
    StopKept(s, s', t, thread);
    SealKept(s, s', t, thread);
  }

  lemma NothingToRelease(s: State)
    requires FindReleasable(s.operations, 0) == |s.operations|
    ensures NoLostPayload(s)
  {
  }

  lemma NothingLeft(s: State)
    requires OperationsSound(s.operations) && NothingPending(s) && FindReleasable(s.operations, 0) == |s.operations|
    ensures forall i :: 0 <= i < |s.operations| ==> !s.operations[i].hasFunction
  {
    forall i | 0 <= i < |s.operations|
      ensures !s.operations[i].hasFunction
    {
      assert !Releasable(s.operations[i]);
      assert IsTerminal(s.operations[i].status) || s.operations[i].status == RUNNING;
    }
  }

  lemma BeginRetireKeepsInv(s: State, t: nat)
    requires Inv(s) && t in s.threads && s.threads[t].Releasing?
    requires FindReleasable(s.operations, 0) < |s.operations|
    ensures Inv(ReleaseStep(s, t))
  {
    hide OperationsSound, CountersSound, RetirersMatch, NoLostWakeup, NoLostPayload, StopSound, SealSound, TokensSound, HistorySound;
    var s' := ReleaseStep(s, t);
    var i := FindReleasable(s.operations, 0);
    var thread := Retiring(i, s.threads[t].tail);
    RetiringOperation(s.operations, i);
    RetiringCounters(s, s', i);
    KeptByEvolution(s, s');
    RetirerAdded(s, s', t, i, thread);
    WakeupKept(s, s', t, thread);
    RetireKeepsWakeup(s, s', t, i, thread);
    StopPendingKept(s, s', t);
    StopKept(s, s', t, Some(thread));
    SealKept(s, s', t, Some(thread));
  }

  lemma RetiringOperation(ops: seq<Operation>, i: nat)
    requires OperationsSound(ops) && i < |ops| && Releasable(ops[i])
    ensures !ops[i].retiring && ops[i].status != RUNNING
    ensures var ops' := ops[i := ops[i].(hasFunction := false, retiring := true)]; OperationsSound(ops') && Evolves(ops, ops')
  {
    OperationsAfterUpdate(ops, i, ops[i].(hasFunction := false, retiring := true));
  }

  lemma RetiringCounters(s: State, s': State, i: nat)
    requires CountersSound(s) && i < |s.operations| && !s.operations[i].retiring && s.operations[i].status != RUNNING
    requires s'.operations == s.operations[i := s.operations[i].(hasFunction := false, retiring := true)]
    requires s'.running == s.running && s'.retiring == s.retiring + 1
    ensures CountersSound(s')
  {
    CountersAfterUpdate(s.operations, i, s'.operations[i]);
  }

  lemma RetirerAdded(s: State, s': State, t: nat, i: nat, thread: Thread)
    requires RetirersMatch(s) && i < |s.operations| && !s.operations[i].retiring
    requires s'.operations == s.operations[i := s.operations[i].(hasFunction := false, retiring := true)]
    requires t in s.threads && s.threads[t].Releasing? && thread.Retiring? && thread.index == i
    requires ThreadMoves(s, s', t, Some(thread))
    ensures RetirersMatch(s')
  {
    forall k | 0 <= k < |s'.operations| && s'.operations[k].retiring
      ensures exists u :: u in s'.threads && s'.threads[u].Retiring? && s'.threads[u].index == k
    {
      if k == i {
        assert t in s'.threads && s'.threads[t] == thread;
      } else {
        var u :| u in s.threads && s.threads[u].Retiring? && s.threads[u].index == k;
        assert u in s'.threads && s'.threads[u] == s.threads[u];
      }
    }
  }

  /** Changing an operation that is not waiting, in nothing but its payload, enables nothing. */
  lemma RetireKeepsWakeup(s: State, s': State, t: nat, i: nat, thread: Thread)
    requires NoLostWakeup(s) && i < |s.operations| && |s'.operations| == |s.operations|
    requires forall k :: 0 <= k < |s.operations| ==>
      s'.operations[k].status == s.operations[k].status && s'.operations[k].dependencies == s.operations[k].dependencies
    requires ThreadMoves(s, s', t, Some(thread)) && t in s.threads && !Advances(s.threads[t])
    ensures NoLostWakeup(s')
  {
    if u :| u in s.threads && Advances(s.threads[u]) {
      assert u in s'.threads && s'.threads[u] == s.threads[u];
    } else {
      forall k: nat
        ensures !Actionable(s'.operations, k)
      {
        assert !Actionable(s.operations, k);
      }
    }
  }

  lemma RetiredKeepsInv(s: State, t: nat)
    requires Inv(s)
    ensures Inv(Step(s, Retired(t)))
  {
    hide OperationsSound, CountersSound, RetirersMatch, NoLostWakeup, NoLostPayload, StopSound, SealSound, TokensSound, HistorySound;
    var s' := Step(s, Retired(t));
    if s' != s {
      var i, thread := s.threads[t].index, Releasing(s.threads[t].tail);
      RetirerPresent(s, t);
      RetiredOperation(s.operations, i);
      RetiredCounters(s, s', i);
      KeptByEvolution(s, s');
      RetirerGone(s, s', t, i, thread);
      WakeupKept(s, s', t, thread);
      RetireKeepsWakeup(s, s', t, i, thread);
      StopPendingKept(s, s', t);
      StopKept(s, s', t, Some(thread));
      SealKept(s, s', t, Some(thread));
    }
  }

  lemma RetirerPresent(s: State, t: nat)
    requires RetirersMatch(s) && t in s.threads && s.threads[t].Retiring?
    ensures s.threads[t].index < |s.operations| && s.operations[s.threads[t].index].retiring
  {
  }

  lemma RetiredOperation(ops: seq<Operation>, i: nat)
    requires OperationsSound(ops) && i < |ops| && ops[i].retiring
    ensures var ops' := ops[i := ops[i].(retiring := false)]; OperationsSound(ops') && Evolves(ops, ops')
  {
    forall d | d in ops[i].dependencies && ops[i].status == FAILED
      ensures d < |ops| && ops[d].status == COMPLETED
    {
    }
    OperationsAfterUpdate(ops, i, ops[i].(retiring := false));
  }

  lemma RetiredCounters(s: State, s': State, i: nat)
    requires CountersSound(s) && i < |s.operations| && s.operations[i].retiring
    requires s'.operations == s.operations[i := s.operations[i].(retiring := false)]
    requires s'.running == s.running && s.retiring > 0 && s'.retiring == s.retiring - 1
    ensures CountersSound(s')
  {
    CountersAfterUpdate(s.operations, i, s'.operations[i]);
  }

  lemma RetirerGone(s: State, s': State, t: nat, i: nat, thread: Thread)
    requires RetirersMatch(s) && i < |s.operations|
    requires s'.operations == s.operations[i := s.operations[i].(retiring := false)]
    requires t in s.threads && s.threads[t].Retiring? && s.threads[t].index == i && !thread.Retiring?
    requires ThreadMoves(s, s', t, Some(thread))
    ensures RetirersMatch(s')
  {
    forall k | 0 <= k < |s'.operations| && s'.operations[k].retiring
      ensures exists u :: u in s'.threads && s'.threads[u].Retiring? && s'.threads[u].index == k
    {
      var u :| u in s.threads && s.threads[u].Retiring? && s.threads[u].index == k;
      assert u in s'.threads && s'.threads[u] == s.threads[u];
    }
  }

  // ---- running

  lemma BeginRunKeepsInv(s: State, i: nat)
    requires Inv(s)
    ensures Inv(Step(s, BeginRun(i)))
  {
    hide OperationsSound, CountersSound, RetirersMatch, NoLostWakeup, NoLostPayload, StopSound, SealSound, TokensSound, HistorySound;
    var s' := Step(s, BeginRun(i));
    if s' != s {
      BegunOperation(s.operations, i);
      BegunCounters(s, s', i);
      KeptByEvolution(s, s');
      BegunThreads(s, s', i);
    }
  }

  lemma BegunOperation(ops: seq<Operation>, i: nat)
    requires OperationsSound(ops) && i < |ops| && ops[i].status == QUEUED
    ensures !ops[i].retiring
    ensures var ops' := ops[i := ops[i].(status := RUNNING, hasFunction := false)]; OperationsSound(ops') && Evolves(ops, ops')
  {
    OperationsAfterUpdate(ops, i, ops[i].(status := RUNNING, hasFunction := false));
  }

  lemma BegunCounters(s: State, s': State, i: nat)
    requires CountersSound(s) && i < |s.operations| && s.operations[i].status == QUEUED
    requires s'.operations == s.operations[i := s.operations[i].(status := RUNNING, hasFunction := false)]
    requires s'.running == s.running + 1 && s'.retiring == s.retiring
    ensures CountersSound(s')
  {
    CountersAfterUpdate(s.operations, i, s'.operations[i]);
  }

  lemma BegunThreads(s: State, s': State, i: nat)
    requires i < |s.operations| && s.operations[i].status == QUEUED && s.operations[i].HoldsAccess()
    requires s' == s.(operations := s.operations[i := s.operations[i].(status := RUNNING, hasFunction := false)], running := s.running + 1)
    requires Evolves(s.operations, s'.operations)
    ensures RetirersMatch(s) ==> RetirersMatch(s')
    ensures NoLostWakeup(s) ==> NoLostWakeup(s')
    ensures NoLostPayload(s) ==> NoLostPayload(s')
    ensures StopSound(s) ==> StopSound(s')
    ensures SealSound(s) ==> SealSound(s')
  {
    hide StopSound, SealSound, Evolves;
    if NoLostWakeup(s) && !SomeThread(s, Advances) {
      forall k: nat
        ensures !Actionable(s'.operations, k)
      {
        assert !Actionable(s.operations, k);
      }
    }
    BegunStop(s, s', i);
  }

  lemma BegunStop(s: State, s': State, i: nat)
    requires i < |s.operations| && s.operations[i].status == QUEUED && s.operations[i].HoldsAccess()
    requires s'.threads == s.threads && s'.domains == s.domains && s'.closed == s.closed && SameSeal(s, s')
    requires Evolves(s.operations, s'.operations)
    ensures StopSound(s) ==> StopSound(s')
    ensures SealSound(s) ==> SealSound(s')
  {
    hide Evolves;
    KeptByQuiet(s, s');
    if StopSound(s) {
      NoneAwaitsDrain(s, i);
    }
  }

  lemma NoneAwaitsDrain(s: State, i: nat)
    requires StopSound(s) && i < |s.operations| && s.operations[i].status == QUEUED
    ensures !NothingPending(s) && forall t :: t in s.threads ==> s.threads[t] != AwaitingDrain
  {
  }

  lemma AccessKeepsInv(s: State, i: nat)
    requires Inv(s)
    ensures Inv(Step(s, Access(i)))
  {
    hide OperationsSound, CountersSound, RetirersMatch, NoLostWakeup, NoLostPayload, StopSound, SealSound, TokensSound, HistorySound;
    var s' := Step(s, Access(i));
    if s' != s {
      AccessKeepsHistory(s, s', i);
      SameButHistory(s, s');
    }
  }

  /** The heart of the protocol: while an operation runs, no later clashing operation can have
      started, because it would still be waiting for this one. */
  lemma AccessKeepsHistory(s: State, s': State, i: nat)
    requires OperationsSound(s.operations) && HistorySound(s)
    requires i < |s.operations| && s.operations[i].status == RUNNING
    requires s' == s.(history := s.history + [Event(i, |s.history|)])
    ensures HistorySound(s')
  {
    forall x, y | 0 <= x < y < |s'.history| && s'.history[y].op < s'.history[x].op
      ensures !OperationsClash(s'.operations[s'.history[y].op].footprints, s'.operations[s'.history[x].op].footprints)
    {
      if y == |s.history| {
        var j := s.history[x].op;
        assert s.operations[j].status in {RUNNING, COMPLETED, FAILED};
        NoClashBehindRunning(s.operations, i, j);
      }
    }
  }

  lemma NoClashBehindRunning(ops: seq<Operation>, i: nat, j: nat)
    requires OperationsSound(ops) && i < j < |ops|
    requires ops[i].status == RUNNING && ops[j].status in {RUNNING, COMPLETED, FAILED}
    ensures !OperationsClash(ops[i].footprints, ops[j].footprints)
  {
    assert i !in ops[j].dependencies;
  }

  lemma SameButHistory(s: State, s': State)
    requires s' == s.(history := s'.history)
    ensures CountersSound(s) ==> CountersSound(s')
    ensures RetirersMatch(s) ==> RetirersMatch(s')
    ensures NoLostWakeup(s) ==> NoLostWakeup(s')
    ensures NoLostPayload(s) ==> NoLostPayload(s')
    ensures StopSound(s) ==> StopSound(s')
    ensures SealSound(s) ==> SealSound(s')
    ensures TokensSound(s) ==> TokensSound(s')
  {
    hide Actionable, Releases, TokenHeld;

  }

  lemma EndRunKeepsInv(s: State, i: nat, t: nat, failed: bool)
    requires Inv(s)
    ensures Inv(EndRunStep(s, i, t, failed))
  {
    hide OperationsSound, CountersSound, RetirersMatch, NoLostWakeup, NoLostPayload, StopSound, SealSound, TokensSound, HistorySound;
    var s' := EndRunStep(s, i, t, failed);
    if s' != s {
      EndedOperation(s.operations, i, failed);
      EndedCounters(s, s', i);
      KeptByEvolution(s, s');
      WakeupKept(s, s', t, Progressing(SEAL));
      RetirersKept(s, s', t, Some(Progressing(SEAL)));
      StopKept(s, s', t, Some(Progressing(SEAL)));
      SealKept(s, s', t, Some(Progressing(SEAL)));
    }
  }

  lemma EndedOperation(ops: seq<Operation>, i: nat, failed: bool)
    requires OperationsSound(ops) && i < |ops| && ops[i].status == RUNNING
    ensures var ops' := ops[i := ops[i].(status := if failed then FAILED else COMPLETED)];
      OperationsSound(ops') && Evolves(ops, ops')
  {
    OperationsAfterUpdate(ops, i, ops[i].(status := if failed then FAILED else COMPLETED));
  }

  lemma EndedCounters(s: State, s': State, i: nat)
    requires CountersSound(s) && i < |s.operations| && s.operations[i].status == RUNNING && s.running > 0
    requires |s'.operations| == |s.operations| && s'.operations == s.operations[i := s'.operations[i]]
    requires s'.operations[i].status != RUNNING && s'.operations[i].retiring == s.operations[i].retiring
    requires s'.running == s.running - 1 && s'.retiring == s.retiring
    ensures CountersSound(s')
  {
    CountersAfterUpdate(s.operations, i, s'.operations[i]);
  }

  // ---- draining

  lemma DrainedKeepsInv(s: State, t: nat)
    requires Inv(s)
    ensures Inv(Step(s, Drained(t)))
  {
    hide OperationsSound, CountersSound, RetirersMatch, NoLostWakeup, NoLostPayload, StopSound, SealSound, TokensSound, HistorySound;
    var s' := Step(s, Drained(t));
    if s' != s {
      var thread := CompletingSeal(true);
      SameOperations(s, s');
      OthersKeepLooking(s, s', t, Some(thread));
      RetirersKept(s, s', t, Some(thread));
      DrainedIsQuiet(s, t);
      StopKept(s, s', t, Some(thread));
      SealKept(s, s', t, Some(thread));
    }
  }

  lemma DrainedIsQuiet(s: State, t: nat)
    requires OperationsSound(s.operations) && CountersSound(s) && StopSound(s)
    requires At(s, t, AwaitingDrain) && s.running == 0 && s.retiring == 0
    ensures Quiet(s)
  {
    CountersZero(s);
  }

  lemma CompleteSealKeepsInv(s: State, t: nat)
    requires Inv(s)
    ensures Inv(CompleteSealStep(s, t))
  {
    hide OperationsSound, CountersSound, RetirersMatch, NoLostWakeup, NoLostPayload, StopSound, SealSound, TokensSound, HistorySound;
    var s' := CompleteSealStep(s, t);
    if t in s.threads && s.threads[t].CompletingSeal? {
      var stops := s.threads[t].stops;
      if ReadyToSeal(s) {
        CompletedSeal(s, s', t, stops);
        OthersKeepLooking(s, s', t, Some(DroppingTokens(stops)));
        RetirersKept(s, s', t, Some(DroppingTokens(stops)));
      } else {
        LeavingSealKeepsInv(s, t, stops);
      }
    }
  }

  lemma LeavingSealKeepsInv(s: State, t: nat, stops: bool)
    requires Inv(s) && t in s.threads && s.threads[t] == CompletingSeal(stops)
    ensures Inv(AfterSeal(s, t, stops))
  {
    hide OperationsSound, CountersSound, RetirersMatch, NoLostWakeup, NoLostPayload, StopSound, SealSound, TokensSound, HistorySound;
    var s' := AfterSeal(s, t, stops);
    var thread := if stops then Some(StoppingTokens) else None;
    SameOperations(s, s');
    OthersKeepLooking(s, s', t, thread);
    RetirersKept(s, s', t, thread);
    StoppedIsQuiet(s, t);
    StopKept(s, s', t, thread);
    SealKept(s, s', t, thread);
  }

  lemma StoppedIsQuiet(s: State, t: nat)
    requires StopSound(s) && t in s.threads
    ensures Stopped(s.threads[t]) ==> Quiet(s)
  {
  }

  lemma CompletedSeal(s: State, s': State, t: nat, stops: bool)
    requires ReadyToSeal(s) && At(s, t, CompletingSeal(stops))
    requires s' == Move(s.(sealCompleted := true, released := s.domains, domains := []), t, DroppingTokens(stops))
    ensures SealSound(s) ==> SealSound(s')
    ensures StopSound(s) ==> StopSound(s')
    ensures TokensSound(s') && (HistorySound(s) ==> HistorySound(s')) && (CountersSound(s) ==> CountersSound(s'))
  {
  }

  lemma DropTokensKeepsInv(s: State, t: nat)
    requires Inv(s)
    ensures Inv(Step(s, DropTokens(t)))
  {
    hide OperationsSound, CountersSound, RetirersMatch, NoLostWakeup, NoLostPayload, StopSound, SealSound, TokensSound, HistorySound;
    var s' := Step(s, DropTokens(t));
    if s' != s {
      var thread := CallingBack(s.threads[t].stops);
      SameOperations(s, s');
      OthersKeepLooking(s, s', t, Some(thread));
      RetirersKept(s, s', t, Some(thread));
      StoppedIsQuiet(s, t);
      StopKept(s, s', t, Some(thread));
      DroppedTokens(s, s', t);
    }
  }

  lemma DroppedTokens(s: State, s': State, t: nat)
    requires SealSound(s) && t in s.threads && s.threads[t].DroppingTokens?
    requires s' == Move(s.(released := []), t, CallingBack(s.threads[t].stops))
    ensures SealSound(s')
  {
    assert Draining(s.threads[t]);
  }

  lemma CallBackMoves(s: State, t: nat)
    ensures var s' := Step(s, CallBack(t));
            if t in s.threads && s.threads[t].CallingBack? then
              && ThreadMoves(s, s', t, if s.threads[t].stops then Some(StoppingTokens) else None)
              && s' == s.(threads := s'.threads, drainCalls := s.drainCalls + 1)
              && s' == AfterSeal(s.(drainCalls := s.drainCalls + 1), t, s.threads[t].stops)
            else s' == s
  {
    hide ScheduleStep, CancelStep, ScanStep, SubmitFailedStep, ReleaseStep, EndRunStep, CompleteSealStep,
      DropStopTokenStep, Registered, CancelPending;
  }

  lemma CallBackKeepsInv(s: State, t: nat)
    requires Inv(s)
    ensures Inv(Step(s, CallBack(t)))
  {
    hide OperationsSound, CountersSound, RetirersMatch, NoLostWakeup, NoLostPayload, StopSound, SealSound,
      TokensSound, HistorySound, Step, ThreadMoves, Quiet;
    CallBackMoves(s, t);
    if t in s.threads && s.threads[t].CallingBack? {
      var s', thread := Step(s, CallBack(t)), if s.threads[t].stops then Some(StoppingTokens) else None;
      SameOperations(s, s');
      OthersKeepLooking(s, s', t, thread);
      RetirersKept(s, s', t, thread);
      StoppedIsQuiet(s, t);
      StopKept(s, s', t, thread);
      CalledBack(s, s', t);
    }
  }

  lemma CalledBack(s: State, s': State, t: nat)
    requires SealSound(s) && t in s.threads && s.threads[t].CallingBack?
    requires s' == AfterSeal(s.(drainCalls := s.drainCalls + 1), t, s.threads[t].stops)
    ensures SealSound(s')
  {
    assert Draining(s.threads[t]);
  }

  lemma DropStopTokenKeepsInv(s: State, t: nat)
    requires Inv(s)
    ensures Inv(DropStopTokenStep(s, t))
  {
    hide OperationsSound, CountersSound, RetirersMatch, NoLostWakeup, NoLostPayload, StopSound, SealSound, TokensSound, HistorySound;
    var s' := DropStopTokenStep(s, t);
    if At(s, t, StoppingTokens) {
      StoppedIsQuiet(s, t);
      if FindToken(s.domains, 0) == |s.domains| {
        SameOperations(s, s');
        OthersKeepLooking(s, s', t, None);
        RetirersKept(s, s', t, None);
        StopKept(s, s', t, None);
        SealKept(s, s', t, None);
      } else {
        DroppedStopToken(s, s', t);
      }
    }
  }

  lemma DroppedStopToken(s: State, s': State, t: nat)
    requires Quiet(s) && FindToken(s.domains, 0) < |s.domains|
    requires s' == s.(domains := s'.domains) && |s'.domains| == |s.domains|
    ensures CountersSound(s) ==> CountersSound(s')
    ensures RetirersMatch(s) ==> RetirersMatch(s')
    ensures NoLostWakeup(s) ==> NoLostWakeup(s')
    ensures NoLostPayload(s) ==> NoLostPayload(s')
    ensures HistorySound(s) ==> HistorySound(s')
    ensures StopSound(s) ==> StopSound(s')
    ensures SealSound(s) ==> SealSound(s')
    ensures TokensSound(s')
  {
    hide FootprintsClash, Actionable, FindToken;

  }

  // ------------------------------------------------------------------- runs

  /** Every step of every interleaving keeps the invariant. */
  lemma SubmittedKeepsInv(s: State, t: nat)
    requires Inv(s)
    ensures Inv(Step(s, Submitted(t)))
  {
    hide Inv, ScheduleStep, CancelStep, ScanStep, SubmitFailedStep, ReleaseStep, EndRunStep, CompleteSealStep,
      DropStopTokenStep, Registered, CancelPending, AfterSeal;
    if t in s.threads && s.threads[t].Submitting? {
      PlainMoveKeepsInv(s, Step(s, Submitted(t)), t, Progressing(s.threads[t].tail));
    }
  }

  lemma StepKeepsInv(s: State, action: Action)
    requires Inv(s)
    ensures Inv(Step(s, action))
  {
    hide *;
    StepIsBlock(s, action);
    match action
    case RegisterDomain(domain, hasLifetime) => RegisterKeepsInv(s, domain, hasLifetime);
    case Schedule(t, footprints, keys) => ScheduleKeepsInv(s, t, footprints, keys);
    case Cancel(t, key) => CancelKeepsInv(s, t, key);
    case Seal(t) => SealKeepsInv(s, t);
    case Stop(t) => StopKeepsInv(s, t);
    case Scan(t) => ScanKeepsInv(s, t);
    case Submitted(t) => SubmittedKeepsInv(s, t);
    case SubmitFailed(t) => SubmitFailedKeepsInv(s, t);
    case Release(t) => ReleaseKeepsInv(s, t);
    case Retired(t) => RetiredKeepsInv(s, t);
    case BeginRun(i) => BeginRunKeepsInv(s, i);
    case Access(i) => AccessKeepsInv(s, i);
    case EndRun(i, t, failed) => EndRunKeepsInv(s, i, t, failed);
    case Drained(t) => DrainedKeepsInv(s, t);
    case CompleteSeal(t) => CompleteSealKeepsInv(s, t);
    case DropTokens(t) => DropTokensKeepsInv(s, t);
    case CallBack(t) => CallBackKeepsInv(s, t);
    case DropStopToken(t) => DropStopTokenKeepsInv(s, t);
  }

  lemma {:induction false} RunKeepsInv(s: State, actions: seq<Action>)
    requires Inv(s)
    ensures Inv(RunActions(s, actions))
    decreases |actions|
  {
    if actions != [] {
      StepKeepsInv(s, actions[0]);
      RunKeepsInv(Step(s, actions[0]), actions[1..]);
    }
  }

  lemma ReachableSound(s: State)
    requires Reachable(s)
    ensures Inv(s)
  {
    var owner, actions :| s == RunActions(Initial(owner), actions);
    InitialSound(owner);
    RunKeepsInv(Initial(owner), actions);
  }
}

// Exactly when Seal can miss the drain callback.
//
// From a state in which a Schedule call may still get hold of a payload, that call is led to one:
// a queued operation is cancelled or fails to be submitted, a waiting one is first made ready.
module CoordinatorDrainTheorem {
  import opened Wrappers
  import opened AccessScopes
  import opened CoordinatorSpec
  import opened CoordinatorInvariant
  import opened CoordinatorSteps
  import opened CoordinatorTheorems
  import opened CoordinatorDrain
  import opened CoordinatorMissedDrain

  lemma {:induction false} Unused(keys: set<nat>) returns (t: nat)
    ensures forall k :: k in keys ==> k < t
    decreases |keys|
  {
    if k :| k in keys {
      var rest := Unused(keys - {k});
      t := if rest <= k then k + 1 else rest;
      forall j | j in keys
        ensures j < t
      {
        assert j == k || j in keys - {k};
      }
    } else {
      t := 0;
    }
  }

  /** A Schedule call in progress, with nothing in the way of missing the callback. */
  ghost predicate Late(s: State, w: nat) { Driven(s) && w in s.threads && Leaves(s.threads[w]) }

  // ------------------------------------------------- a payload to be released

  /** The call is led to its release, where it takes a payload. */
  lemma {:induction false} GrabPayload(s: State, w: nat, i: nat) returns (e: State)
    requires Late(s, w) && i < |s.operations| && Releasable(s.operations[i])
    ensures Leads(s, e) && Late(e, w) && e.threads[w].Retiring?
    decreases Waiting(s), Payloads(s), Rank(s.threads[w])
  {
    if s.threads[w].Retiring? {
      Stays(s);
      e := s;
    } else if s.threads[w].Releasing? {
      e := DriveRelease(s, w);
    } else {
      var m := Approach(s, w, i);
      hide Late, Leads, Waiting, Payloads, Releasable;
      e := GrabPayload(m, w, i);
      LeadsOn(s, m, e);
    }
  }

  /** One step of a call that is still scanning or submitting; payloads stay. */
  lemma Approach(s: State, w: nat, i: nat) returns (e: State)
    requires Late(s, w) && Advances(s.threads[w]) && i < |s.operations| && Releasable(s.operations[i])
    ensures Leads(s, e) && Late(e, w) && Lower(s, e, w)
    ensures i < |e.operations| && Releasable(e.operations[i])
  {
    hide Leads, Driven;
    if s.threads[w].Progressing? {
      e := DriveScan(s, w);
      assert DrivesOne(s.operations[i], e.operations[i]);
    } else {
      e := DriveSubmitted(s, w);
    }
  }

  lemma ReleasableMisses(s: State, w: nat, i: nat) returns (e: State)
    requires Late(s, w) && i < |s.operations| && Releasable(s.operations[i])
    ensures Leads(s, e) && MissesDrain(e)
  {
    var m := GrabPayload(s, w, i);
    e := RetiringMisses(m, w);
    LeadsOn(s, m, e);
  }

  // ------------------------------------------------------ a queued operation

  /** The executor refuses an operation that is just being submitted. */
  lemma SubmitFails(s: State, v: nat, w: nat) returns (e: State)
    requires Late(s, w) && v in s.threads && s.threads[v].Submitting?
    requires s.threads[v].index < |s.operations| && s.operations[s.threads[v].index].status == QUEUED
    ensures Leads(s, e) && Late(e, w)
    ensures s.threads[v].index < |e.operations| && Releasable(e.operations[s.threads[v].index])
  {
    hide Inv, Step, Leads, ThreadMoves;
    PendingHasPayload(s, s.threads[v].index);
    StepIsBlock(s, SubmitFailed(v));
    SubmitFailedMoves(s, v);
    e := Step(s, SubmitFailed(v));
    assert IsDrivable(s.threads[v]);
    DrivenStep(s, SubmitFailed(v), v, Some(Progressing(s.threads[v].tail)));
    MovesAlong(s, e, v, Some(Progressing(s.threads[v].tail)), w);
  }

  lemma PendingHasPayload(s: State, i: nat)
    requires Inv(s) && i < |s.operations| && s.operations[i].status in {WAITING, QUEUED}
    ensures s.operations[i].hasFunction
  {
  }

  /** A Schedule call stays one while another call moves, or it moves itself without returning. */
  lemma MovesAlong(s: State, e: State, v: nat, thread: Option<Thread>, w: nat)
    requires ThreadMoves(s, e, v, thread) && w in s.threads && Leaves(s.threads[w])
    requires v == w ==> thread.Some? && Leaves(thread.value)
    ensures w in e.threads && Leaves(e.threads[w])
  {
  }

  lemma SubmittedMisses(s: State, v: nat, w: nat) returns (e: State)
    requires Late(s, w) && v in s.threads && s.threads[v].Submitting?
    requires s.threads[v].index < |s.operations| && s.operations[s.threads[v].index].status == QUEUED
    ensures Leads(s, e) && MissesDrain(e)
  {
    var m := SubmitFails(s, v, w);
    e := ReleasableMisses(m, w, s.threads[v].index);
    LeadsOn(s, m, e);
  }

  /** Once the other calls have returned all keys are out but that of the operation the last one admitted,
      and that one too if another operation depends on it. */
  lemma KeyIsOut(s: State, w: nat, i: nat)
    requires Inv(s) && s.threads.Keys == {w} && Leaves(s.threads[w]) && i < |s.operations|
    requires i != s.threads[w].tail.admitted || exists j :: 0 <= j < |s.operations| && i in s.operations[j].dependencies
    ensures KeyKnown(s, i)
  {
    assert forall t :: t in s.threads ==> t == w;
    if i == s.threads[w].tail.admitted {
      var j :| 0 <= j < |s.operations| && i in s.operations[j].dependencies;
      assert i < j;
      assert !InSchedule(s, j);
      assert KeyKnown(s, j);
    } else {
      assert !InSchedule(s, i);
    }
  }

  lemma CancelIt(s: State, w: nat, i: nat) returns (e: State)
    requires Late(s, w) && i < |s.operations| && s.operations[i].status == QUEUED && KeyKnown(s, i)
    ensures Leads(s, e) && Late(e, w) && i < |e.operations| && Releasable(e.operations[i])
  {
    hide KeyKnown, Leads, Inv, Step, ThreadMoves;
    PendingHasPayload(s, i);
    var t := Unused(s.threads.Keys);
    assert t !in s.threads.Keys;
    var cancel := Cancel(t, OperationKey(s.owner, i + 1));
    StepIsBlock(s, cancel);
    CancelMoves(s, t, i);
    e := Step(s, cancel);
    DrivenStep(s, cancel, t, Some(Progressing(SEAL)));
    MovesAlong(s, e, t, Some(Progressing(SEAL)), w);
  }

  lemma CancelMoves(s: State, t: nat, i: nat)
    requires t !in s.threads && i < |s.operations| && s.operations[i].status in {WAITING, QUEUED}
    ensures var key := OperationKey(s.owner, i + 1);
            Resolve(s, key) == Some(i) && ThreadMoves(s, CancelStep(s, t, key), t, Some(Progressing(SEAL)))
  {
  }

  lemma QueuedMisses(s: State, w: nat, i: nat) returns (e: State)
    requires Late(s, w) && i < |s.operations| && s.operations[i].status == QUEUED
    requires i != s.threads[w].tail.admitted || exists j :: 0 <= j < |s.operations| && i in s.operations[j].dependencies
    ensures Leads(s, e) && MissesDrain(e)
  {
    var m := FinishOthers(s, w, i);
    StaysQueued(s, m, w, i);
    hide *;
    var n := CancelIt(m, w, i);
    e := ReleasableMisses(n, w, i);
    LeadsOn(m, n, e);
    LeadsOn(s, m, e);
  }

  lemma StaysQueued(s: State, m: State, w: nat, i: nat)
    requires Late(s, w) && Driven(m) && Drives(s, m) && m.threads == map[w := s.threads[w]]
    requires i < |s.operations| && s.operations[i].status == QUEUED
    requires i != s.threads[w].tail.admitted || exists j :: 0 <= j < |s.operations| && i in s.operations[j].dependencies
    ensures Late(m, w) && i < |m.operations| && m.operations[i].status == QUEUED && KeyKnown(m, i)
  {
    hide Inv, KeyKnown;
    assert DrivesOne(s.operations[i], m.operations[i]);
    if j :| 0 <= j < |s.operations| && i in s.operations[j].dependencies {
      assert DrivesOne(s.operations[j], m.operations[j]);
    }
    assert m.threads.Keys == {w};
    KeyIsOut(m, w, i);
  }

  // ------------------------------------------------------ a waiting operation

  ghost predicate FirstWaiting(ops: seq<Operation>, i: nat) {
    i < |ops| && ops[i].status == WAITING && forall j :: 0 <= j < i ==> ops[j].status != WAITING
  }

  /** A scan gets to the first waiting operation when that is ready or behind failed work. */
  lemma {:induction false} ScanReaches(ops: seq<Operation>, index: nat, i: nat)
    requires FirstWaiting(ops, i) && Actionable(ops, i) && index <= i
    ensures var (ops', ready) := ScanFrom(ops, index);
      i < |ops'| && (ops'[i] == ops[i].(status := CANCELLED) || (ready == Some(i) && ops'[i].status == QUEUED))
    decreases i - index
  {
    if index < i {
      ScanReaches(ops, index + 1, i);
    } else if HasFailedDependency(ops, ops[i]) {
      ScanKeepsBelow(ops[i := ops[i].(status := CANCELLED)], i + 1, i);
    }
  }

  lemma {:induction false} ScanKeepsBelow(ops: seq<Operation>, index: nat, i: nat)
    requires i < index <= |ops|
    ensures i < |ScanFrom(ops, index).0| && ScanFrom(ops, index).0[i] == ops[i]
    decreases |ops| - index
  {
    if index < |ops| {
      var op := ops[index];
      if op.status == WAITING && HasFailedDependency(ops, op) {
        ScanKeepsBelow(ops[index := op.(status := CANCELLED)], index + 1, i);
      } else if !(op.status == WAITING && AllDependenciesCompleted(ops, op)) {
        ScanKeepsBelow(ops, index + 1, i);
      }
    }
  }

  /** Some call scans, and finds the operation. */
  lemma ReadyMisses(s: State, w: nat, i: nat) returns (e: State)
    requires Late(s, w) && FirstWaiting(s.operations, i) && Actionable(s.operations, i)
    ensures Leads(s, e) && MissesDrain(e)
  {
    hide *;
    var v := SomeoneAdvances(s, w, i);
    if s.threads[v].Submitting? {
      var m := SubmittedNow(s, w, v);
      e := ScannedMisses(m, w, v, i);
      LeadsOn(s, m, e);
    } else {
      e := ScannedMisses(s, w, v, i);
    }
  }

  lemma SomeoneAdvances(s: State, w: nat, i: nat) returns (v: nat)
    requires Late(s, w) && Actionable(s.operations, i)
    ensures v in s.threads && (s.threads[v].Submitting? || s.threads[v].Progressing?)
  {
    v :| v in s.threads && Advances(s.threads[v]);
  }

  lemma SubmittedNow(s: State, w: nat, v: nat) returns (m: State)
    requires Late(s, w) && v in s.threads && s.threads[v].Submitting?
    ensures Leads(s, m) && Late(m, w) && m.operations == s.operations && v in m.threads && m.threads[v].Progressing?
  {
    hide Driven, Leads, Drives, Lower;
    m := DriveSubmitted(s, v);
  }

  lemma ScannedMisses(s: State, w: nat, v: nat, i: nat) returns (e: State)
    requires Late(s, w) && FirstWaiting(s.operations, i) && Actionable(s.operations, i)
    requires v in s.threads && s.threads[v].Progressing?
    ensures Leads(s, e) && MissesDrain(e)
  {
    var m := ScanFinds(s, w, v, i);
    hide Late, Inv, Driven, Leads, MissesDrain, FirstWaiting, Actionable;
    if Releasable(m.operations[i]) {
      e := ReleasableMisses(m, w, i);
    } else {
      e := SubmittedMisses(m, v, w);
    }
    LeadsOn(s, m, e);
  }

  lemma ScanFinds(s: State, w: nat, v: nat, i: nat) returns (m: State)
    requires Driven(s) && Late(s, w) && FirstWaiting(s.operations, i) && Actionable(s.operations, i)
    requires v in s.threads && s.threads[v].Progressing?
    ensures Leads(s, m) && Late(m, w) && i < |m.operations|
    ensures Releasable(m.operations[i])
         || (v in m.threads && m.threads[v].Submitting? && m.threads[v].index == i && m.operations[i].status == QUEUED)
  {
    hide *;
    ScanHits(s, w, v, i);
    m := DriveScan(s, v);
    StillLate(s, m, v, w);
  }

  lemma StillLate(s: State, m: State, v: nat, w: nat)
    requires Late(s, w) && Driven(m) && v in s.threads && v in m.threads && MovesOn(s, m, v)
    ensures Late(m, w)
  {
    hide Driven, Lower;
  }

  lemma ScanHits(s: State, w: nat, v: nat, i: nat)
    requires Late(s, w) && FirstWaiting(s.operations, i) && Actionable(s.operations, i)
    requires v in s.threads && s.threads[v].Progressing?
    ensures var m := Step(s, Scan(v));
      && i < |m.operations| && v in m.threads
      && (Releasable(m.operations[i])
          || (m.threads[v] == Submitting(i, s.threads[v].tail) && m.operations[i].status == QUEUED))
  {
    hide Inv;
    ScanReaches(s.operations, 0, i);
    WaitingHasPayload(s, i);
  }

  lemma WaitingHasPayload(s: State, i: nat)
    requires Inv(s) && i < |s.operations| && s.operations[i].status == WAITING
    ensures s.operations[i].hasFunction
  {
  }

  lemma EndedIsActionable(s: State, w: nat, i: nat)
    requires Late(s, w) && FirstWaiting(s.operations, i)
    requires forall j :: 0 <= j < i && j < |s.operations| ==> s.operations[j].status !in {QUEUED, RUNNING}
    ensures Actionable(s.operations, i)
  {
    hide ClashesOrdered;
    var ops := s.operations;
    if !AllDependenciesCompleted(ops, ops[i]) {
      var d :| d in ops[i].dependencies && !(d < |ops| && ops[d].status == COMPLETED);
      assert d < i && ops[d].status in {FAILED, CANCELLED};
    }
  }

  /** What the first waiting operation waits for is run to its end. */
  lemma {:induction false} WaitingMisses(s: State, w: nat, i: nat) returns (e: State)
    requires Late(s, w) && FirstWaiting(s.operations, i)
    ensures Leads(s, e) && MissesDrain(e)
    decreases Busy(s)
  {
    hide *;
    if j :| 0 <= j < i && j < |s.operations| && s.operations[j].status in {QUEUED, RUNNING} {
      var m := EndBelow(s, w, i, j);
      e := WaitingMisses(m, w, i);
      LeadsOn(s, m, e);
    } else {
      EndedIsActionable(s, w, i);
      e := ReadyMisses(s, w, i);
    }
  }

  lemma EndBelow(s: State, w: nat, i: nat, j: nat) returns (m: State)
    requires Late(s, w) && FirstWaiting(s.operations, i) && j < i && j < |s.operations|
    requires s.operations[j].status in {QUEUED, RUNNING}
    ensures Leads(s, m) && Late(m, w) && FirstWaiting(m.operations, i) && Busy(m) < Busy(s)
  {
    hide Leads, Busy, Driven, Leaves;
    var v := Unused(s.threads.Keys);
    assert v !in s.threads.Keys;
    m := EndOne(s, j, v);
  }

  lemma {:induction false} HasFirstWaiting(ops: seq<Operation>, i: nat) returns (k: nat)
    requires i < |ops| && ops[i].status == WAITING
    ensures FirstWaiting(ops, k)
  {
    if j :| 0 <= j < i && ops[j].status == WAITING {
      k := HasFirstWaiting(ops, j);
    } else {
      k := i;
    }
  }

  // ------------------------------------------------------------ the theorem

  lemma SpareMisses(s: State, w: nat, i: nat) returns (e: State)
    requires Late(s, w) && Spare(s, i, s.threads[w].tail.admitted)
    ensures Leads(s, e) && MissesDrain(e)
  {
    if s.operations[i].status == WAITING {
      var k := HasFirstWaiting(s.operations, i);
      e := WaitingMisses(s, w, k);
    } else if s.operations[i].status == QUEUED {
      if BeingSubmitted(s, i) {
        var v :| v in s.threads && s.threads[v].Submitting? && s.threads[v].index == i;
        e := SubmittedMisses(s, v, w);
      } else {
        e := QueuedMisses(s, w, i);
      }
    } else {
      e := ReleasableMisses(s, w, i);
    }
  }

  lemma CanMissMisses(s: State, t: nat) returns (e: State)
    requires Inv(s) && !s.closed && Fresh(s, t) && CanMiss(s)
    ensures Leads(Step(s, Seal(t)), e) && MissesDrain(e)
  {
    hide Driven, Inv;
    var w :| w in s.threads && Leaves(s.threads[w]) && !IsHarmless(s, s.threads[w]);
    var m := Step(s, Seal(t));
    SealedIsDriven(s, t);
    assert Late(m, w);
    if s.threads[w].Retiring? {
      e := RetiringMisses(m, w);
    } else {
      var i :| Spare(s, i, s.threads[w].tail.admitted);
      SpareAfterSeal(s, t, i, s.threads[w].tail.admitted);
      e := SpareMisses(m, w, i);
    }
  }

  lemma SpareAfterSeal(s: State, t: nat, i: nat, admitted: nat)
    requires !s.closed && Fresh(s, t) && Spare(s, i, admitted)
    ensures Spare(Step(s, Seal(t)), i, admitted)
  {
    var m := Step(s, Seal(t));
    if BeingSubmitted(s, i) {
      var v :| v in s.threads && s.threads[v].Submitting? && s.threads[v].index == i;
      assert v in m.threads && m.threads[v] == s.threads[v];
    }
  }

  lemma SealedIsDriven(s: State, t: nat)
    requires Inv(s) && !s.closed && Fresh(s, t)
    ensures Driven(Step(s, Seal(t)))
  {
    hide Inv, StopSound, SealSound;
    StepKeepsInv(s, Seal(t));
    OpenFromStart(s);
  }

  lemma OpenFromStart(s: State)
    requires Inv(s) && !s.closed
    ensures !s.sealed && !s.sealCompleted && NoStops(s)
  {
    hide OperationsSound, CountersSound, RetirersMatch, NoLostWakeup, NoLostPayload, TokensSound, HistorySound;
    OpenMeansNoStop(s);
  }

  /** Seal can miss the drain callback if and only if a Schedule call in progress is destroying a payload or may
      still get hold of one: then some way for the calls to go on, using no key before it is handed out, ends
      with all calls returned, all work done, and the callback not called. */
  lemma MissedDrainExactly(s: State, t: nat)
    requires Reachable(s) && !s.closed && Fresh(s, t)
    ensures CanMiss(s) <==> exists e :: Leads(Step(s, Seal(t)), e) && MissesDrain(e)
  {
    hide Step, Reachable, CanMiss, Leads, MissesDrain, Inv;
    if CanMiss(s) {
      ReachableSound(s);
      var e := CanMissMisses(s, t);
    } else {
      forall e | Leads(Step(s, Seal(t)), e)
        ensures !MissesDrain(e)
      {
        EndsDrained(s, t, e);
      }
    }
  }

  lemma EndsDrained(s: State, t: nat, e: State)
    requires Reachable(s) && !s.closed && Fresh(s, t) && !CanMiss(s) && Leads(Step(s, Seal(t)), e)
    ensures !MissesDrain(e)
  {
    hide Step, Reachable, CanMiss, LegalRun;
    var actions :| LegalRun(Step(s, Seal(t)), actions) && RunActions(Step(s, Seal(t)), actions) == e;
    SealAloneDrains(s, t, actions);
  }

  // ------------------------------------------------------------- a missing run

  /** The executor refuses the only operation, and its Schedule call is destroying the payload while the
      coordinator is sealed. */
  function LateAction(k: nat): Action {
    match k
    case 0 => Schedule(0, [], [])
    case 1 => Scan(0)
    case 2 => SubmitFailed(0)
    case 3 => Scan(0)
    case 4 => Release(0)
    case 5 => Seal(1)
    case 6 => Scan(1)
    case 7 => Release(1)
    case 8 => CompleteSeal(1)
    case 9 => Retired(0)
    case _ => Release(0)
  }

  const PENDING := Operation([], true, {}, WAITING, false)
  const POSTED := PENDING.(status := QUEUED)
  const REFUSED := POSTED.(status := FAILED)
  const DYING := REFUSED.(hasFunction := false, retiring := true)
  const DEAD := DYING.(retiring := false)

  function Open(op: Operation, thread: Thread): State {
    Initial(1).(operations := [op], retiring := if op.retiring then 1 else 0,
                hasFailure := op.status == FAILED, threads := map[0 := thread])
  }

  function Closed(op: Operation, threads: map<nat, Thread>): State {
    Open(op, AwaitingDrain).(closed := true, sealed := true, threads := threads)
  }

  const CALL := LEAVE(0)

  /** The states of that run. */
  function LateState(k: nat): State {
    match k
    case 0 => Initial(1)
    case 1 => Open(PENDING, Progressing(CALL))
    case 2 => Open(POSTED, Submitting(0, CALL))
    case 3 => Open(REFUSED, Progressing(CALL))
    case 4 => Open(REFUSED, Releasing(CALL))
    case 5 => Open(DYING, Retiring(0, CALL))
    case 6 => Closed(DYING, map[0 := Retiring(0, CALL), 1 := Progressing(SEAL)])
    case 7 => Closed(DYING, map[0 := Retiring(0, CALL), 1 := Releasing(SEAL)])
    case 8 => Closed(DYING, map[0 := Retiring(0, CALL), 1 := CompletingSeal(false)])
    case 9 => Closed(DYING, map[0 := Retiring(0, CALL)])
    case 10 => Closed(DEAD, map[0 := Releasing(CALL)])
    case _ => Closed(DEAD, map[])
  }

  lemma LateAdmit()
    ensures Admit(Initial(1), [], []) == Some(PENDING)
  {
    var none: seq<AccessFootprint> := [];
    assert NormalizeAll(none) == Ok(none);
    assert Explicit(Initial(1), []) + Conflicting([], none) == {};
  }

  lemma LateStart(k: nat)
    requires k < 4
    ensures Step(LateState(k), LateAction(k)) == LateState(k + 1)
  {
    hide *;
    StepIsBlock(LateState(k), LateAction(k));
    if k == 0 {
      LateSchedule();
    } else if k == 1 {
      LateQueue();
    } else if k == 2 {
      LateRefusal();
    } else {
      LateRescan();
    }
  }

  lemma LateSchedule()
    ensures ScheduleStep(LateState(0), 0, [], []) == LateState(1) && LateAction(0) == Schedule(0, [], [])
  {
    hide Admit;
    LateAdmit();
  }

  lemma LateQueue()
    ensures ScanStep(LateState(1), 0) == LateState(2) && LateAction(1) == Scan(0)
  {
    assert AllDependenciesCompleted([PENDING], PENDING) && [PENDING][0 := POSTED] == [POSTED];
    assert ScanFrom([PENDING], 0) == ([POSTED], Some(0));
  }

  lemma LateRefusal()
    ensures SubmitFailedStep(LateState(2), 0) == LateState(3) && LateAction(2) == SubmitFailed(0)
  {
    assert [POSTED][0 := REFUSED] == [REFUSED];
  }

  lemma LateRescan()
    ensures ScanStep(LateState(3), 0) == LateState(4) && LateAction(3) == Scan(0)
  {
    assert ScanFrom([REFUSED], 0) == ([REFUSED], None);
  }

  lemma LateMiddle(k: nat)
    requires 4 <= k < 8
    ensures Step(LateState(k), LateAction(k)) == LateState(k + 1)
  {
    hide *;
    StepIsBlock(LateState(k), LateAction(k));
    if k == 4 {
      LateGrab();
    } else if k == 5 {
      LateClosed();
    } else if k == 6 {
      LateScan();
    } else {
      LateNothing();
    }
  }

  lemma LateGrab()
    ensures ReleaseStep(LateState(4), 0) == LateState(5) && LateAction(4) == Release(0)
  {
    assert FindReleasable([REFUSED], 0) == 0;
    assert [REFUSED][0 := DYING] == [DYING];
  }

  lemma LateClosed()
    ensures Step(LateState(5), LateAction(5)) == LateState(6)
  {
    hide ScheduleStep, CancelStep, ScanStep, SubmitFailedStep, ReleaseStep, EndRunStep, CompleteSealStep,
      DropStopTokenStep, Registered, CancelPending, AfterSeal;
  }

  lemma LateScan()
    ensures ScanStep(LateState(6), 1) == LateState(7) && LateAction(6) == Scan(1)
  {
    assert ScanFrom([DYING], 0) == ([DYING], None);
  }

  lemma LateNothing()
    ensures ReleaseStep(LateState(7), 1) == LateState(8) && LateAction(7) == Release(1)
  {
    assert FindReleasable([DYING], 0) == 1;
  }

  lemma LateEnd(k: nat)
    requires 8 <= k < 10
    ensures Step(LateState(k), LateAction(k)) == LateState(k + 1)
  {
    hide *;
    if k == 8 {
      LateSeal();
    } else {
      LateRetired();
    }
  }

  lemma LateSeal()
    ensures Step(LateState(8), LateAction(8)) == LateState(9)
  {
    hide Step, ScheduleStep, CancelStep, ScanStep, SubmitFailedStep, ReleaseStep, EndRunStep, DropStopTokenStep,
      SomeHoldsAccess;
    StepIsBlock(LateState(8), LateAction(8));
    assert !ReadyToSeal(LateState(8));
    assert LateState(8).threads - {1} == LateState(9).threads;
  }

  lemma LateRetired()
    ensures Step(LateState(9), LateAction(9)) == LateState(10)
  {
    hide ScheduleStep, CancelStep, ScanStep, SubmitFailedStep, ReleaseStep, EndRunStep, CompleteSealStep,
      DropStopTokenStep, Registered, CancelPending, AfterSeal;
    assert [DYING][0 := DEAD] == [DEAD];
  }

  lemma LateLast()
    ensures Step(LateState(10), LateAction(10)) == LateState(11)
  {
    assert FindReleasable([DEAD], 0) == 1;
  }

  function LateActions(k: nat): seq<Action>
    requires k <= 11
    decreases 11 - k
  {
    if k == 11 then [] else [LateAction(k)] + LateActions(k + 1)
  }

  lemma {:induction false} LateRun(k: nat)
    requires k <= 11
    ensures LegalRun(LateState(k), LateActions(k)) && RunActions(LateState(k), LateActions(k)) == LateState(11)
    decreases 11 - k
  {
    hide Step, LateState;
    if k < 11 {
      if k < 4 { LateStart(k); } else if k < 8 { LateMiddle(k); } else if k < 10 { LateEnd(k); } else { LateLast(); }
      LateRun(k + 1);
    }
  }

  /** From an empty coordinator, eleven steps that use no key: every call has returned, the only operation has
      failed, its payload is gone, the coordinator is sealed, and the callback has not been called. */
  lemma FailedPublicationMissesDrain()
    ensures LegalRun(Initial(1), LateActions(0)) && MissesDrain(RunActions(Initial(1), LateActions(0)))
  {
    hide LateAction, Step, LegalRun;
    LateRun(0);
    assert !DEAD.HoldsAccess();
  }
}

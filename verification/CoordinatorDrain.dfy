// Whether a sealed coordinator ends up calling its drain callback.
//
// Schedule releases payloads but does not complete the seal afterwards, while Cancel, Seal,
// Stop and the end of a run do.  A Schedule call that overlaps Seal can therefore be the last
// one to let go of a payload, and nobody completes the seal.  CanMiss says exactly in which
// states this can still happen; here is the proof that otherwise the callback is called.
module CoordinatorDrain {
  import opened Wrappers
  import opened AccessScopes
  import opened CoordinatorSpec
  import opened CoordinatorInvariant
  import opened CoordinatorSteps
  import opened CoordinatorTheorems

  // ----------------------------------------------------- which runs can happen

  /** A call that will leave without completing the seal: a Schedule call. */
  ghost predicate Leaves(thread: Thread) { Releases(thread) && thread.tail.LEAVE? }

  /** The Schedule call that admitted the operation has not returned yet. */
  ghost predicate InSchedule(s: State, i: nat) {
    exists t :: t in s.threads && Leaves(s.threads[t]) && s.threads[t].tail.admitted == i
  }

  /** The key of an operation is handed out when its Schedule call returns, or as a dependency of a known one. */
  ghost predicate KeyKnown(s: State, i: nat)
    decreases |s.operations| - i
  {
    i < |s.operations| &&
    (!InSchedule(s, i) || exists j :: i < j < |s.operations| && i in s.operations[j].dependencies && KeyKnown(s, j))
  }

  /** A caller can only use keys it can have got. */
  ghost predicate Legal(s: State, action: Action) {
    match action
    case Cancel(_, key) => Resolve(s, key).Some? ==> KeyKnown(s, Resolve(s, key).value)
    case Schedule(_, _, keys) =>
      forall k :: 0 <= k < |keys| && Resolve(s, keys[k]).Some? ==> KeyKnown(s, Resolve(s, keys[k]).value)
    case _ => true
  }

  ghost predicate LegalRun(s: State, actions: seq<Action>)
    decreases |actions|
  {
    actions != [] ==> Legal(s, actions[0]) && LegalRun(Step(s, actions[0]), actions[1..])
  }

  // --------------------------------------------------------- the exact condition

  ghost predicate BeingSubmitted(s: State, i: nat) {
    exists t :: t in s.threads && s.threads[t].Submitting? && s.threads[t].index == i
  }

  /** The executor has the operation and nothing depends on it: only its own run can take its payload away
      before the Schedule call that admitted it returns. */
  ghost predicate Tied(s: State, i: nat)
    requires i < |s.operations|
  {
    && s.operations[i].status == QUEUED && !BeingSubmitted(s, i)
    && forall j :: 0 <= j < |s.operations| ==> i !in s.operations[j].dependencies
  }

  /** A payload that the Schedule call which admitted the given operation may come to release. */
  ghost predicate Spare(s: State, i: nat, admitted: nat) {
    i < |s.operations| && s.operations[i].hasFunction && !(i == admitted && Tied(s, i))
  }

  /** A Schedule call in progress is destroying a payload, or may still get hold of one. */
  ghost predicate CanMiss(s: State) {
    exists w :: w in s.threads && Leaves(s.threads[w]) && !IsHarmless(s, s.threads[w])
  }

  ghost predicate IsHarmless(s: State, thread: Thread)
    requires Leaves(thread)
  {
    !thread.Retiring? && forall i :: !Spare(s, i, thread.tail.admitted)
  }

  /** Every call has returned and all work has ended, but the callback has not been called. */
  ghost predicate MissesDrain(s: State) {
    && s.threads == map[] && NothingActive(s.operations) && !SomeHoldsAccess(s.operations)
    && s.sealed && !s.sealCompleted && s.drainCalls == 0
  }

  // --------------------------------------------------------------- invariant

  /** A call that is going to complete the seal if it can. */
  ghost predicate Seals(thread: Thread) {
    (Releases(thread) && !thread.tail.LEAVE?) || thread == AwaitingDrain || thread.CompletingSeal?
  }

  /** A Stop call that has still to see the coordinator drained. */
  ghost predicate WillStop(thread: Thread) {
    (Releases(thread) && thread.tail == STOP) || thread == AwaitingDrain || thread == CompletingSeal(true)
  }

  ghost predicate SomeActive(ops: seq<Operation>) { !NothingActive(ops) }

  /** Until the seal is completed some call or some operation is still going to see to it. */
  ghost predicate SealOnItsWay(s: State) {
    !s.sealCompleted ==> SomeThread(s, Seals) || SomeActive(s.operations)
  }

  ghost predicate CallbackOnItsWay(s: State) {
    s.sealCompleted ==> s.drainCalls > 0 || SomeThread(s, Draining)
  }

  /** A Stop call that is past the seal has not left it behind. */
  ghost predicate StopPassedSeal(s: State) {
    forall t :: t in s.threads && s.threads[t] == StoppingTokens ==> s.sealCompleted
  }

  ghost predicate AllHarmless(s: State) {
    forall w :: w in s.threads && Leaves(s.threads[w]) ==> IsHarmless(s, s.threads[w])
  }

  ghost predicate LeaversHarmless(s: State) { s.sealCompleted || SomeThread(s, WillStop) || AllHarmless(s) }

  // ------------------------------------------------ harmless calls stay harmless

  /** While a harmless Schedule call is in progress the only payload left is that of its own operation. */
  lemma OnlyTied(s: State, w: nat, i: nat)
    requires Inv(s) && AllHarmless(s) && w in s.threads && Leaves(s.threads[w])
    requires i < |s.operations| && s.operations[i].hasFunction
    ensures i == s.threads[w].tail.admitted && Tied(s, i) && s.operations[i].status == QUEUED
  {
    assert !Spare(s, i, s.threads[w].tail.admitted);
  }

  lemma NothingWaits(s: State, w: nat)
    requires Inv(s) && AllHarmless(s) && w in s.threads && Leaves(s.threads[w])
    ensures forall i :: 0 <= i < |s.operations| ==> s.operations[i].status != WAITING && !Releasable(s.operations[i])
    ensures forall t :: t in s.threads && s.threads[t].Submitting? ==>
              s.threads[t].index >= |s.operations| || s.operations[s.threads[t].index].status != QUEUED
  {
    forall i | 0 <= i < |s.operations|
      ensures s.operations[i].status != WAITING && !Releasable(s.operations[i])
    {
      if s.operations[i].hasFunction { OnlyTied(s, w, i); }
    }
    forall t | t in s.threads && s.threads[t].Submitting? && s.threads[t].index < |s.operations|
      ensures s.operations[s.threads[t].index].status != QUEUED
    {
      if s.operations[s.threads[t].index].status == QUEUED {
        OnlyTied(s, w, s.threads[t].index);
        assert BeingSubmitted(s, s.threads[t].index);
      }
    }
  }

  lemma {:induction false} ScanFindsNothing(ops: seq<Operation>, index: nat)
    requires index <= |ops| && forall i :: 0 <= i < |ops| ==> ops[i].status != WAITING
    ensures ScanFrom(ops, index) == (ops, None)
    decreases |ops| - index
  {
    if index < |ops| {
      ScanFindsNothing(ops, index + 1);
    }
  }

  /** Payloads are taken away or left, and the operations they are left to keep their status. */
  ghost predicate PayloadsShrink(ops: seq<Operation>, ops': seq<Operation>) {
    && |ops'| == |ops|
    && (forall i :: 0 <= i < |ops| ==> ops'[i].dependencies == ops[i].dependencies)
    && (forall i :: 0 <= i < |ops| && ops'[i].hasFunction ==> ops[i].hasFunction && ops'[i].status == ops[i].status)
  }

  ghost predicate NoneLeaves(s: State) { forall w :: w in s.threads ==> !Leaves(s.threads[w]) }

  /** A call that moves on stays the kind of call it is. */
  ghost predicate KeepsKind(s: State, t: nat, thread: Option<Thread>) {
    thread.Some? && Leaves(thread.value) ==>
      t in s.threads && Leaves(s.threads[t]) && s.threads[t].tail == thread.value.tail && !thread.value.Retiring?
  }

  lemma MoveKeepsHarmless(s: State, s': State, t: nat, thread: Option<Thread>)
    requires AllHarmless(s) && ThreadMoves(s, s', t, thread) && KeepsKind(s, t, thread)
    requires NoneLeaves(s) || (PayloadsShrink(s.operations, s'.operations) && !(thread.Some? && thread.value.Submitting?))
    ensures AllHarmless(s')
  {
    forall w | w in s'.threads && Leaves(s'.threads[w])
      ensures IsHarmless(s', s'.threads[w])
    {
      assert w in s.threads && Leaves(s.threads[w]);
      var o := s.threads[w].tail.admitted;
      forall i
        ensures !Spare(s', i, o)
      {
        assert !Spare(s, i, o);
        if BeingSubmitted(s', i) {
          var u :| u in s'.threads && s'.threads[u].Submitting? && s'.threads[u].index == i;
          assert BeingSubmitted(s, i);
        }
      }
    }
  }

  lemma SameThreadsKeepHarmless(s: State, s': State)
    requires AllHarmless(s) && s'.threads == s.threads && PayloadsShrink(s.operations, s'.operations)
    ensures AllHarmless(s')
  {
    forall w | w in s'.threads && Leaves(s'.threads[w])
      ensures IsHarmless(s', s'.threads[w])
    {
      var o := s.threads[w].tail.admitted;
      forall i
        ensures !Spare(s', i, o)
      {
        assert !Spare(s, i, o);
        assert BeingSubmitted(s', i) <==> BeingSubmitted(s, i);
      }
    }
  }

  /** The key of a tied operation cannot be known while its Schedule call is in progress. */
  lemma TiedKeyUnknown(s: State, w: nat)
    requires w in s.threads && Leaves(s.threads[w]) && s.threads[w].tail.admitted < |s.operations|
    requires Tied(s, s.threads[w].tail.admitted)
    ensures !KeyKnown(s, s.threads[w].tail.admitted)
  {
    assert InSchedule(s, s.threads[w].tail.admitted);
  }

  lemma CancelKeepsHarmless(s: State, t: nat, key: OperationKey)
    requires Inv(s) && AllHarmless(s) && Legal(s, Cancel(t, key))
    ensures AllHarmless(CancelStep(s, t, key))
  {
    var s' := CancelStep(s, t, key);
    if s' != s {
      var i := Resolve(s, key).value;
      if !NoneLeaves(s) {
        var w :| w in s.threads && Leaves(s.threads[w]);
        OnlyTied(s, w, i);
        TiedKeyUnknown(s, w);
        assert false;
      }
      MoveKeepsHarmless(s, s', t, Some(Progressing(SEAL)));
    }
  }

  lemma ScanKeepsHarmless(s: State, t: nat)
    requires Inv(s) && AllHarmless(s)
    ensures AllHarmless(ScanStep(s, t))
  {
    hide ScanFrom, Inv, AllHarmless;
    var s' := ScanStep(s, t);
    if t in s.threads && s.threads[t].Progressing? {
      if !NoneLeaves(s) {
        var w :| w in s.threads && Leaves(s.threads[w]);
        NothingWaits(s, w);
        ScanFindsNothing(s.operations, 0);
      }
      MoveKeepsHarmless(s, s', t, Some(s'.threads[t]));
    }
  }

  lemma ReleaseKeepsHarmless(s: State, t: nat)
    requires Inv(s) && AllHarmless(s)
    ensures AllHarmless(ReleaseStep(s, t))
  {
    hide Inv, AllHarmless;
    if t in s.threads && s.threads[t].Releasing? {
      if NoneLeaves(s) {
        ReleaseKeepsNoneLeaving(s, t);
      } else {
        var w :| w in s.threads && Leaves(s.threads[w]);
        NothingWaits(s, w);
        assert ReleaseStep(s, t) == AfterRelease(s, t, s.threads[t].tail);
        NothingReleased(s, t);
      }
    }
  }

  lemma NothingReleased(s: State, t: nat)
    requires AllHarmless(s) && t in s.threads && s.threads[t].Releasing?
    ensures AllHarmless(AfterRelease(s, t, s.threads[t].tail))
  {
    hide AllHarmless;
    var s' := AfterRelease(s, t, s.threads[t].tail);
    MoveKeepsHarmless(s, s', t, if t in s'.threads then Some(s'.threads[t]) else None);
  }

  lemma ReleaseKeepsNoneLeaving(s: State, t: nat)
    requires NoneLeaves(s)
    ensures AllHarmless(ReleaseStep(s, t))
  {
    hide *;
    if t in s.threads && s.threads[t].Releasing? {
      var s', thread := ReleaseStep(s, t), AfterOneRelease(s, t);
      ReleaseMoves(s, t);
      NobodyTurnsLeaver(s, s', t, thread);
      NobodyLeavesIsHarmless(s');
    } else {
      ReleaseStands(s, t);
      NobodyLeavesIsHarmless(s);
    }
  }

  /** Where a call stands after it looked for a payload once; None when it returns. */
  ghost function AfterOneRelease(s: State, t: nat): Option<Thread>
    requires t in s.threads && s.threads[t].Releasing?
  {
    var i := FindReleasable(s.operations, 0);
    if i < |s.operations| then Some(Retiring(i, s.threads[t].tail))
    else NextAfterRelease(s.threads[t].tail)
  }

  lemma ReleaseMoves(s: State, t: nat)
    requires t in s.threads && s.threads[t].Releasing?
    ensures var s' := ReleaseStep(s, t);
            && ThreadMoves(s, s', t, AfterOneRelease(s, t))
            && s'.sealed == s.sealed && s'.sealCompleted == s.sealCompleted && s'.drainCalls == s.drainCalls
  {
    hide FindReleasable, Releasable;
  }

  lemma ReleaseStands(s: State, t: nat)
    requires !(t in s.threads && s.threads[t].Releasing?)
    ensures ReleaseStep(s, t) == s
  {
    hide FindReleasable, Releasable;
  }

  lemma NobodyTurnsLeaver(s: State, s': State, t: nat, thread: Option<Thread>)
    requires NoneLeaves(s) && t in s.threads && s.threads[t].Releasing?
    requires thread == AfterOneRelease(s, t) && ThreadMoves(s, s', t, thread)
    ensures NoneLeaves(s')
  {
    hide FindReleasable;
    assert !Leaves(s.threads[t]);
    forall w | w in s'.threads
      ensures !Leaves(s'.threads[w])
    {
      if w != t { assert !Leaves(s.threads[w]); }
    }
  }

  lemma NobodyLeavesIsHarmless(s: State)
    requires NoneLeaves(s)
    ensures AllHarmless(s)
  {
    hide IsHarmless;
  }

  lemma SubmittedKeepsHarmless(s: State, t: nat)
    requires AllHarmless(s)
    ensures AllHarmless(Step(s, Submitted(t)))
  {
    hide AllHarmless;
    if t in s.threads && s.threads[t].Submitting? {
      MoveKeepsHarmless(s, Step(s, Submitted(t)), t, Some(Progressing(s.threads[t].tail)));
    }
  }

  lemma RetiredKeepsHarmless(s: State, t: nat)
    requires AllHarmless(s)
    ensures AllHarmless(Step(s, Retired(t)))
  {
    var s' := Step(s, Retired(t));
    if s' != s {
      RetiringSeals(s, t);
      hide AllHarmless;
      MoveKeepsHarmless(s, s', t, Some(Releasing(s.threads[t].tail)));
    }
  }

  lemma SubmitFailedKeepsHarmless(s: State, t: nat)
    requires Inv(s) && AllHarmless(s)
    ensures AllHarmless(SubmitFailedStep(s, t))
  {
    hide Inv, AllHarmless;
    var s' := SubmitFailedStep(s, t);
    if t in s.threads && s.threads[t].Submitting? {
      if !NoneLeaves(s) {
        var w :| w in s.threads && Leaves(s.threads[w]);
        NothingWaits(s, w);
      }
      MoveKeepsHarmless(s, s', t, Some(Progressing(s.threads[t].tail)));
    }
  }

  lemma RunningHasNoPayload(s: State, i: nat)
    requires Inv(s) && i < |s.operations| && s.operations[i].status == RUNNING
    ensures !s.operations[i].hasFunction
  {
  }

  lemma EndRunKeepsHarmless(s: State, i: nat, t: nat, failed: bool)
    requires Inv(s) && AllHarmless(s)
    ensures AllHarmless(EndRunStep(s, i, t, failed))
  {
    hide AllHarmless, Inv;
    var s' := EndRunStep(s, i, t, failed);
    if s' != s {
      RunningHasNoPayload(s, i);
      MoveKeepsHarmless(s, s', t, Some(Progressing(SEAL)));
    }
  }

  /** A harmless Schedule call is not destroying a payload. */
  lemma RetiringSeals(s: State, t: nat)
    requires AllHarmless(s) && t in s.threads && s.threads[t].Retiring?
    ensures !Leaves(s.threads[t])
  {
  }

  /** The calls that are past their releases. */
  lemma LaterMoveKeepsHarmless(s: State, s': State, t: nat, thread: Option<Thread>)
    requires AllHarmless(s) && s'.operations == s.operations && ThreadMoves(s, s', t, thread)
    requires thread.Some? ==> !Releases(thread.value)
    ensures AllHarmless(s')
  {
    hide AllHarmless;
    MoveKeepsHarmless(s, s', t, thread);
  }

  lemma ClosedRejects(s: State, key: DomainKey, hasLifetime: bool, footprints: seq<AccessFootprint>, keys: seq<OperationKey>)
    requires Inv(s) && s.sealed
    ensures Registered(s, key, hasLifetime) == None && Admit(s, footprints, keys) == None && s.closed
  {
  }

  lemma ClosedDoesNothing(s: State, action: Action)
    requires Inv(s) && s.sealed && (action.RegisterDomain? || action.Schedule? || action.Seal?)
    ensures Step(s, action) == s
  {
    match action
    case RegisterDomain(domain, hasLifetime) => ClosedRejects(s, domain, hasLifetime, [], []);
    case Schedule(_, footprints, keys) => ClosedRejects(s, DomainKey(0, 0, 0), false, footprints, keys);
    case Seal(_) => ClosedRejects(s, DomainKey(0, 0, 0), false, [], []);
  }

  lemma RunningKeepsHarmless(s: State, action: Action)
    requires AllHarmless(s) && (action.BeginRun? || action.Access?)
    ensures AllHarmless(Step(s, action))
  {
    hide *;
    match action
    case BeginRun(i) =>
      BeginTakesPayload(s, i);
      SameThreadsKeepHarmless(s, Step(s, action));
    case Access(i) =>
      AccessTakesNothing(s, i);
      SameThreadsKeepHarmless(s, Step(s, action));
  }

  lemma BeginTakesPayload(s: State, i: nat)
    ensures var s' := Step(s, BeginRun(i)); s'.threads == s.threads && PayloadsShrink(s.operations, s'.operations)
  {
    hide ScheduleStep, CancelStep, ScanStep, SubmitFailedStep, ReleaseStep, EndRunStep, CompleteSealStep,
      DropStopTokenStep, Registered, CancelPending, AfterSeal, Move;
  }

  lemma AccessTakesNothing(s: State, i: nat)
    ensures var s' := Step(s, Access(i)); s'.threads == s.threads && PayloadsShrink(s.operations, s'.operations)
  {
    hide ScheduleStep, CancelStep, ScanStep, SubmitFailedStep, ReleaseStep, EndRunStep, CompleteSealStep,
      DropStopTokenStep, Registered, CancelPending, AfterSeal, Move;
  }

  lemma HarmlessStep(s: State, action: Action)
    requires Inv(s) && s.sealed && AllHarmless(s) && Legal(s, action) && !action.Stop?
    ensures AllHarmless(Step(s, action))
  {
    hide *;
    StepIsBlock(s, action);
    match action
    case RegisterDomain(_, _) => ClosedDoesNothing(s, action);
    case Schedule(_, _, _) => ClosedDoesNothing(s, action);
    case Seal(_) => ClosedDoesNothing(s, action);
    case Cancel(t, key) => CancelKeepsHarmless(s, t, key);
    case Scan(t) => ScanKeepsHarmless(s, t);
    case SubmitFailed(t) => SubmitFailedKeepsHarmless(s, t);
    case Release(t) => ReleaseKeepsHarmless(s, t);
    case EndRun(i, t, failed) => EndRunKeepsHarmless(s, i, t, failed);
    case BeginRun(_) => RunningKeepsHarmless(s, action);
    case Access(_) => RunningKeepsHarmless(s, action);
    case Submitted(t) => SubmittedKeepsHarmless(s, t);
    case Retired(t) => RetiredKeepsHarmless(s, t);
    case Drained(t) => DrainedKeepsHarmless(s, t);
    case CompleteSeal(t) => CompleteSealKeepsHarmless(s, t);
    case DropTokens(t) => DropTokensKeepsHarmless(s, t);
    case CallBack(t) => CallBackKeepsHarmless(s, t);
    case DropStopToken(t) => DropStopTokenKeepsHarmless(s, t);
  }

  lemma DrainedKeepsHarmless(s: State, t: nat)
    requires AllHarmless(s)
    ensures AllHarmless(Step(s, Drained(t)))
  {
    hide AllHarmless;
    if Step(s, Drained(t)) != s {
      LaterMoveKeepsHarmless(s, Step(s, Drained(t)), t, Some(CompletingSeal(true)));
    }
  }

  lemma AfterSealIsHarmless(s: State, t: nat, stops: bool)
    requires AllHarmless(s) && t in s.threads
    ensures AllHarmless(AfterSeal(s, t, stops))
  {
    hide AllHarmless;
    LaterMoveKeepsHarmless(s, AfterSeal(s, t, stops), t, if stops then Some(StoppingTokens) else None);
  }

  lemma CompleteSealKeepsHarmless(s: State, t: nat)
    requires AllHarmless(s)
    ensures AllHarmless(CompleteSealStep(s, t))
  {
    hide AllHarmless, ReadyToSeal;
    if t in s.threads && s.threads[t].CompletingSeal? {
      if ReadyToSeal(s) {
        LaterMoveKeepsHarmless(s, CompleteSealStep(s, t), t, Some(DroppingTokens(s.threads[t].stops)));
      } else {
        AfterSealIsHarmless(s, t, s.threads[t].stops);
      }
    }
  }

  lemma DropTokensKeepsHarmless(s: State, t: nat)
    requires AllHarmless(s)
    ensures AllHarmless(Step(s, DropTokens(t)))
  {
    hide AllHarmless;
    if t in s.threads && s.threads[t].DroppingTokens? {
      LaterMoveKeepsHarmless(s, Step(s, DropTokens(t)), t, Some(CallingBack(s.threads[t].stops)));
    }
  }

  lemma CallBackKeepsHarmless(s: State, t: nat)
    requires AllHarmless(s)
    ensures AllHarmless(Step(s, CallBack(t)))
  {
    if t in s.threads && s.threads[t].CallingBack? {
      var called := s.(drainCalls := s.drainCalls + 1);
      SameThreadsKeepHarmless(s, called);
      hide AllHarmless;
      AfterSealIsHarmless(called, t, s.threads[t].stops);
    }
  }

  lemma DropStopTokenKeepsHarmless(s: State, t: nat)
    requires AllHarmless(s)
    ensures AllHarmless(DropStopTokenStep(s, t))
  {
    hide AllHarmless;
    var s' := DropStopTokenStep(s, t);
    if At(s, t, StoppingTokens) && FindToken(s.domains, 0) == |s.domains| {
      LaterMoveKeepsHarmless(s, s', t, None);
    } else {
      SameThreadsKeepHarmless(s, s');
    }
  }

  // ------------------------------------------------ the seal stays on its way

  ghost predicate OnItsWay(s: State) {
    s.sealed && SealOnItsWay(s) && CallbackOnItsWay(s) && StopPassedSeal(s)
  }

  lemma MoveKeepsOnItsWay(s: State, s': State, t: nat, thread: Option<Thread>)
    requires OnItsWay(s) && ThreadMoves(s, s', t, thread) && s'.sealed == s.sealed
    requires s'.sealCompleted == s.sealCompleted && s'.drainCalls >= s.drainCalls
    requires s.sealCompleted || (thread.Some? && Seals(thread.value))
          || SomeActive(s'.operations) || (exists u :: u in s.threads && u != t && Seals(s.threads[u]))
          || ((t in s.threads ==> !Seals(s.threads[t])) && (SomeActive(s.operations) ==> SomeActive(s'.operations)))
    requires thread == Some(StoppingTokens) ==> s.sealCompleted
    requires t in s.threads && Draining(s.threads[t]) ==> s'.drainCalls > 0 || (thread.Some? && Draining(thread.value))
    ensures OnItsWay(s')
  {
    assert thread.Some? ==> t in s'.threads;
    if u :| u in s.threads && u != t && Seals(s.threads[u]) {
      assert u in s'.threads && Seals(s'.threads[u]);
    }
    if SomeThread(s, Draining) {
      var u :| u in s.threads && Draining(s.threads[u]);
      if u != t { assert u in s'.threads && Draining(s'.threads[u]); }
    }
  }

  lemma SameThreadsKeepOnItsWay(s: State, s': State)
    requires OnItsWay(s) && s'.threads == s.threads && s'.sealed == s.sealed
    requires s'.sealCompleted == s.sealCompleted && s'.drainCalls == s.drainCalls
    requires SomeActive(s.operations) ==> SomeActive(s'.operations)
    ensures OnItsWay(s')
  {
    if SomeThread(s, Draining) {
      var u :| u in s.threads && Draining(s.threads[u]);
      assert u in s'.threads && Draining(s'.threads[u]);
    }
    if SomeThread(s, Seals) {
      var u :| u in s.threads && Seals(s.threads[u]);
      assert u in s'.threads && Seals(s'.threads[u]);
    }
  }

  lemma QuietIsReady(s: State)
    requires Inv(s) && Quiet(s) && s.sealed && !s.sealCompleted
    ensures ReadyToSeal(s)
  {
    CountersZero(s);
    forall i | 0 <= i < |s.operations|
      ensures s.operations[i].status != RUNNING && !s.operations[i].retiring
    {
      assert !s.operations[i].HoldsAccess();
    }
  }

  lemma SealedIsClosed(s: State)
    requires Inv(s) && s.sealed
    ensures s.closed
  {
  }

  /** Harmless Schedule calls alone do not keep a coordinator from being drained. */
  lemma HarmlessIsQuiet(s: State)
    requires Inv(s) && s.sealed && NothingActive(s.operations) && AllHarmless(s)
    requires forall u :: u in s.threads && Releases(s.threads[u]) ==> Leaves(s.threads[u])
    ensures Quiet(s)
  {
    hide Inv, AllHarmless, FootprintsClash;
    SealedIsClosed(s);
    if NoneLeaves(s) {
      AllEnded(s);
    } else {
      var w :| w in s.threads && Leaves(s.threads[w]);
      NothingWaits(s, w);
      forall i | 0 <= i < |s.operations|
        ensures !s.operations[i].HoldsAccess()
      {
        if s.operations[i].hasFunction { OnlyTied(s, w, i); }
        if s.operations[i].retiring {
          var u := RetiringCall(s, i);
          RetiringSeals(s, u);
        }
      }
    }
  }

  lemma RetiringCall(s: State, i: nat) returns (u: nat)
    requires Inv(s) && i < |s.operations| && s.operations[i].retiring
    ensures u in s.threads && s.threads[u].Retiring? && s.threads[u].index == i
  {
    u :| u in s.threads && s.threads[u].Retiring? && s.threads[u].index == i;
  }

  /** A call that finds the coordinator not drained is not the last one to complete the seal. */
  lemma NotReadyMeansOthers(s: State, t: nat)
    requires Inv(s) && LeaversHarmless(s) && t in s.threads && s.threads[t] == CompletingSeal(false)
    requires s.sealed && !s.sealCompleted && !ReadyToSeal(s)
    ensures SomeActive(s.operations) || exists u :: u in s.threads && u != t && Seals(s.threads[u])
  {
    hide Inv;
    if SomeThread(s, WillStop) {
      var u :| u in s.threads && WillStop(s.threads[u]);
      assert u != t && Seals(s.threads[u]);
    } else if NothingActive(s.operations) {
      if u :| u in s.threads && Releases(s.threads[u]) && !Leaves(s.threads[u]) {
        assert u != t && Seals(s.threads[u]);
      } else {
        HarmlessIsQuiet(s);
        QuietIsReady(s);
      }
    }
  }

  lemma SealCompletedNow(s: State, t: nat, stops: bool)
    requires OnItsWay(s)
    ensures OnItsWay(Move(s.(sealCompleted := true, released := s.domains, domains := []), t, DroppingTokens(stops)))
  {
    var s' := Move(s.(sealCompleted := true, released := s.domains, domains := []), t, DroppingTokens(stops));
    assert t in s'.threads && Draining(s'.threads[t]);
  }

  lemma CompleteSealKeepsOnItsWay(s: State, t: nat)
    requires Inv(s) && OnItsWay(s) && LeaversHarmless(s)
    ensures OnItsWay(CompleteSealStep(s, t))
  {
    hide LeaversHarmless, StopSound;
    if t in s.threads && s.threads[t].CompletingSeal? {
      var s', stops := CompleteSealStep(s, t), s.threads[t].stops;
      if ReadyToSeal(s) {
        SealCompletedNow(s, t, stops);
      } else if stops {
        StoppedIsQuiet(s, t);
        if !s.sealCompleted { QuietIsReady(s); }
        MoveKeepsOnItsWay(s, s', t, Some(StoppingTokens));
      } else {
        if !s.sealCompleted { NotReadyMeansOthers(s, t); }
        MoveKeepsOnItsWay(s, s', t, None);
      }
    }
  }

  lemma ScanKeepsActive(s: State)
    requires Inv(s) && SomeActive(s.operations)
    ensures SomeActive(ScanFrom(s.operations, 0).0)
  {
    hide OperationsSound;
    ScanEffect(s.operations, 0);
    var i :| 0 <= i < |s.operations| && s.operations[i].status in {QUEUED, RUNNING};
    assert ScanChange(s.operations[i], ScanFrom(s.operations, 0).0[i]);
  }

  lemma ScanKeepsOnItsWay(s: State, t: nat)
    requires Inv(s) && OnItsWay(s)
    ensures OnItsWay(ScanStep(s, t))
  {
    hide Inv, OnItsWay, ScanFrom, NothingActive, FootprintsNormalized;
    if t in s.threads && s.threads[t].Progressing? {
      if SomeActive(s.operations) { ScanKeepsActive(s); }
      var s' := ScanStep(s, t);
      MoveKeepsOnItsWay(s, s', t, Some(s'.threads[t]));
    }
  }

  /** A failed publication by a harmless Schedule call finds its operation taken already. */
  lemma SubmitFailedKeepsOnItsWay(s: State, t: nat)
    requires Inv(s) && OnItsWay(s) && LeaversHarmless(s)
    ensures OnItsWay(SubmitFailedStep(s, t))
  {
    hide Inv, OnItsWay, LeaversHarmless, SomeActive, ThreadMoves;
    if t in s.threads && s.threads[t].Submitting? {
      var s' := SubmitFailedStep(s, t);
      if Leaves(s.threads[t]) && !s.sealCompleted {
        FailedByLeaver(s, t);
      }
      SubmitFailedMoves(s, t);
      MoveKeepsOnItsWay(s, s', t, Some(Progressing(s.threads[t].tail)));
    }
  }

  lemma SubmitFailedMoves(s: State, t: nat)
    requires t in s.threads && s.threads[t].Submitting?
    ensures ThreadMoves(s, SubmitFailedStep(s, t), t, Some(Progressing(s.threads[t].tail)))
  {
  }

  lemma FailedByLeaver(s: State, t: nat)
    requires Inv(s) && LeaversHarmless(s) && !s.sealCompleted
    requires t in s.threads && s.threads[t].Submitting? && Leaves(s.threads[t])
    ensures SubmitFailedStep(s, t).operations == s.operations
         || exists u :: u in s.threads && u != t && Seals(s.threads[u])
  {
    hide Inv;
    if SomeThread(s, WillStop) {
      var u :| u in s.threads && WillStop(s.threads[u]);
      assert u != t && Seals(s.threads[u]);
    } else {
      NothingWaits(s, t);
    }
  }

  lemma ReleaseKeepsOnItsWay(s: State, t: nat)
    requires OnItsWay(s)
    ensures OnItsWay(ReleaseStep(s, t))
  {
    hide OnItsWay, SomeActive, FindReleasable, ReleaseStep, ThreadMoves;
    if t in s.threads && s.threads[t].Releasing? {
      ReleaseMoves(s, t);
      ReleaseKeepsActive(s, t);
      MoveKeepsOnItsWay(s, ReleaseStep(s, t), t, AfterOneRelease(s, t));
    } else {
      ReleaseStands(s, t);
    }
  }

  lemma ReleaseKeepsActive(s: State, t: nat)
    ensures SomeActive(s.operations) ==> SomeActive(ReleaseStep(s, t).operations)
  {
    if SomeActive(s.operations) {
      var i :| 0 <= i < |s.operations| && s.operations[i].status in {QUEUED, RUNNING};
      assert ReleaseStep(s, t).operations[i].status == s.operations[i].status;
    }
  }

  lemma RetiredKeepsOnItsWay(s: State, t: nat)
    requires OnItsWay(s)
    ensures OnItsWay(Step(s, Retired(t)))
  {
    hide OnItsWay;
    var s' := Step(s, Retired(t));
    if s' != s {
      if SomeActive(s.operations) {
        var i :| 0 <= i < |s.operations| && s.operations[i].status in {QUEUED, RUNNING};
        assert s'.operations[i].status == s.operations[i].status;
      }
      MoveKeepsOnItsWay(s, s', t, Some(Releasing(s.threads[t].tail)));
    }
  }

  /** The steps that start a call which completes the seal, or run an operation. */
  lemma StartKeepsOnItsWay(s: State, action: Action)
    requires OnItsWay(s) && (action.Cancel? || action.Stop? || action.EndRun?)
    ensures OnItsWay(Step(s, action))
  {
    hide OnItsWay;
    var s' := Step(s, action);
    if s' != s {
      MoveKeepsOnItsWay(s, s', action.thread, Some(s'.threads[action.thread]));
    }
  }

  lemma BeginRunKeepsOnItsWay(s: State, i: nat)
    requires OnItsWay(s)
    ensures OnItsWay(Step(s, BeginRun(i)))
  {
    hide OnItsWay;
    var s' := Step(s, BeginRun(i));
    if s' != s {
      assert s'.operations[i].status == RUNNING;
      SameThreadsKeepOnItsWay(s, s');
    }
  }

  lemma AccessKeepsOnItsWay(s: State, i: nat)
    requires OnItsWay(s)
    ensures OnItsWay(Step(s, Access(i)))
  {
    hide OnItsWay;
    SameThreadsKeepOnItsWay(s, Step(s, Access(i)));
  }

  lemma SubmittedKeepsOnItsWay(s: State, t: nat)
    requires OnItsWay(s)
    ensures OnItsWay(Step(s, Submitted(t)))
  {
    hide OnItsWay;
    var s' := Step(s, Submitted(t));
    if s' != s {
      MoveKeepsOnItsWay(s, s', t, Some(Progressing(s.threads[t].tail)));
    }
  }

  lemma DrainingMeansCompleted(s: State, t: nat)
    requires Inv(s) && t in s.threads && Draining(s.threads[t])
    ensures s.sealCompleted
  {
  }

  lemma LaterKeepsOnItsWay(s: State, action: Action)
    requires Inv(s) && OnItsWay(s) && (action.Drained? || action.DropTokens? || action.CallBack?)
    ensures OnItsWay(Step(s, action))
  {
    hide OnItsWay, Inv;
    var s', t := Step(s, action), action.thread;
    if s' != s {
      if Draining(s.threads[t]) { DrainingMeansCompleted(s, t); }
      MoveKeepsOnItsWay(s, s', t, if t in s'.threads then Some(s'.threads[t]) else None);
    }
  }

  lemma DropStopTokenKeepsOnItsWay(s: State, t: nat)
    requires OnItsWay(s)
    ensures OnItsWay(DropStopTokenStep(s, t))
  {
    var s' := DropStopTokenStep(s, t);
    if s' != s {
      assert s.sealCompleted;
      hide OnItsWay;
      if FindToken(s.domains, 0) == |s.domains| {
        MoveKeepsOnItsWay(s, s', t, None);
      } else {
        SameThreadsKeepOnItsWay(s, s');
      }
    }
  }

  lemma StepKeepsOnItsWay(s: State, action: Action)
    requires Inv(s) && OnItsWay(s) && LeaversHarmless(s)
    ensures OnItsWay(Step(s, action))
  {
    hide Inv, LeaversHarmless, Step, SealOnItsWay, CallbackOnItsWay, StopPassedSeal;
    StepIsBlock(s, action);
    match action
    case RegisterDomain(_, _) => ClosedDoesNothing(s, action);
    case Schedule(_, _, _) => ClosedDoesNothing(s, action);
    case Seal(_) => ClosedDoesNothing(s, action);
    case Cancel(_, _) => StartKeepsOnItsWay(s, action);
    case Stop(_) => StartKeepsOnItsWay(s, action);
    case EndRun(_, _, _) => StartKeepsOnItsWay(s, action);
    case Scan(t) => ScanKeepsOnItsWay(s, t);
    case Submitted(t) => SubmittedKeepsOnItsWay(s, t);
    case SubmitFailed(t) => SubmitFailedKeepsOnItsWay(s, t);
    case Release(t) => ReleaseKeepsOnItsWay(s, t);
    case Retired(t) => RetiredKeepsOnItsWay(s, t);
    case BeginRun(i) => BeginRunKeepsOnItsWay(s, i);
    case Access(i) => AccessKeepsOnItsWay(s, i);
    case CompleteSeal(t) => CompleteSealKeepsOnItsWay(s, t);
    case DropStopToken(t) => DropStopTokenKeepsOnItsWay(s, t);
    case Drained(_) => LaterKeepsOnItsWay(s, action);
    case DropTokens(_) => LaterKeepsOnItsWay(s, action);
    case CallBack(_) => LaterKeepsOnItsWay(s, action);
  }

  // --------------------------------------------------- a Stop call sees to it

  /** The call that takes the step, if it is a call's. */
  function ActorOf(action: Action): Option<nat> {
    if action.RegisterDomain? || action.BeginRun? || action.Access? then None else Some(action.thread)
  }

  predicate StartsCall(action: Action) {
    action.Schedule? || action.Cancel? || action.Seal? || action.Stop? || action.EndRun?
  }

  lemma OthersStay(s: State, action: Action, u: nat)
    requires u in s.threads && ActorOf(action) != Some(u) && !StartsCall(action)
    ensures u in Step(s, action).threads && Step(s, action).threads[u] == s.threads[u]
  {
    hide Step, ScheduleStep, CancelStep, ScanStep, SubmitFailedStep, ReleaseStep, EndRunStep, CompleteSealStep,
      DropStopTokenStep;
    StepIsBlock(s, action);
    match action
    case Scan(t) => OthersStayOverScan(s, t, u);
    case SubmitFailed(t) => OthersStayOverFailure(s, t, u);
    case Release(t) => OthersStayOverRelease(s, t, u);
    case CompleteSeal(t) => OthersStayOverSeal(s, t, u);
    case DropStopToken(t) => OthersStayOverToken(s, t, u);
    case _ => OthersStayOverRest(s, action, u);
  }

  lemma OthersStayOverRest(s: State, action: Action, u: nat)
    requires u in s.threads && ActorOf(action) != Some(u) && !StartsCall(action)
    requires !action.Scan? && !action.SubmitFailed? && !action.Release? && !action.CompleteSeal? && !action.DropStopToken?
    ensures u in Step(s, action).threads && Step(s, action).threads[u] == s.threads[u]
  {
    hide ScheduleStep, CancelStep, ScanStep, SubmitFailedStep, ReleaseStep, EndRunStep, CompleteSealStep,
      DropStopTokenStep, Registered, CancelPending;
    match action
    case Submitted(_) =>
    case Retired(_) =>
    case Drained(_) =>
    case DropTokens(_) =>
    case CallBack(_) =>
    case _ =>
  }

  lemma OthersStayOverScan(s: State, t: nat, u: nat)
    requires u in s.threads && t != u
    ensures u in ScanStep(s, t).threads && ScanStep(s, t).threads[u] == s.threads[u]
  {
    hide ScanFrom;
  }

  lemma OthersStayOverFailure(s: State, t: nat, u: nat)
    requires u in s.threads && t != u
    ensures u in SubmitFailedStep(s, t).threads && SubmitFailedStep(s, t).threads[u] == s.threads[u]
  {
  }

  lemma OthersStayOverRelease(s: State, t: nat, u: nat)
    requires u in s.threads && t != u
    ensures u in ReleaseStep(s, t).threads && ReleaseStep(s, t).threads[u] == s.threads[u]
  {
    hide ReleaseStep, FindReleasable, AfterOneRelease;
    if t in s.threads && s.threads[t].Releasing? { ReleaseMoves(s, t); } else { ReleaseStands(s, t); }
  }

  lemma OthersStayOverSeal(s: State, t: nat, u: nat)
    requires u in s.threads && t != u
    ensures u in CompleteSealStep(s, t).threads && CompleteSealStep(s, t).threads[u] == s.threads[u]
  {
    hide ReadyToSeal;
  }

  lemma OthersStayOverToken(s: State, t: nat, u: nat)
    requires u in s.threads && t != u
    ensures u in DropStopTokenStep(s, t).threads && DropStopTokenStep(s, t).threads[u] == s.threads[u]
  {
    hide FindToken;
  }

  lemma StartsStay(s: State, action: Action, u: nat)
    requires u in s.threads && StartsCall(action)
    ensures u in Step(s, action).threads && Step(s, action).threads[u] == s.threads[u]
  {
    hide Step, ScheduleStep, CancelStep, ScanStep, SubmitFailedStep, ReleaseStep, EndRunStep, CompleteSealStep,
      DropStopTokenStep;
    StepIsBlock(s, action);
    match action
    case Schedule(t, footprints, keys) => ScheduleStays(s, t, footprints, keys, u);
    case Cancel(t, key) => CancelStays(s, t, key, u);
    case EndRun(i, t, failed) => EndRunStays(s, i, t, failed, u);
    case _ => ClosingStays(s, action, u);
  }

  lemma ScheduleStays(s: State, t: nat, footprints: seq<AccessFootprint>, keys: seq<OperationKey>, u: nat)
    requires u in s.threads
    ensures var s' := ScheduleStep(s, t, footprints, keys); u in s'.threads && s'.threads[u] == s.threads[u]
  {
    hide Admit;
  }

  lemma CancelStays(s: State, t: nat, key: OperationKey, u: nat)
    requires u in s.threads
    ensures u in CancelStep(s, t, key).threads && CancelStep(s, t, key).threads[u] == s.threads[u]
  {
  }

  lemma EndRunStays(s: State, i: nat, t: nat, failed: bool, u: nat)
    requires u in s.threads
    ensures u in EndRunStep(s, i, t, failed).threads && EndRunStep(s, i, t, failed).threads[u] == s.threads[u]
  {
  }

  lemma ClosingStays(s: State, action: Action, u: nat)
    requires u in s.threads && (action.Seal? || action.Stop?)
    ensures u in Step(s, action).threads && Step(s, action).threads[u] == s.threads[u]
  {
    hide ScheduleStep, CancelStep, ScanStep, SubmitFailedStep, ReleaseStep, EndRunStep, CompleteSealStep,
      DropStopTokenStep, Registered, CancelPending, AfterSeal;
  }

  lemma StopKeepsReleasing(s: State, action: Action, u: nat)
    requires u in s.threads && Releases(s.threads[u]) && s.threads[u].tail == STOP && ActorOf(action) == Some(u)
    ensures u in Step(s, action).threads && WillStop(Step(s, action).threads[u])
  {
    hide Step, ReleaseStep, FindReleasable;
    if StartsCall(action) {
      StartsStay(s, action, u);
    } else if action.Release? {
      StepIsBlock(s, action);
      if s.threads[u].Releasing? { ReleaseMoves(s, u); } else { ReleaseStands(s, u); }
    } else {
      StopKeepsMoving(s, action, u);
    }
  }

  lemma StopKeepsMoving(s: State, action: Action, u: nat)
    requires u in s.threads && Releases(s.threads[u]) && s.threads[u].tail == STOP && ActorOf(action) == Some(u)
    requires !StartsCall(action) && !action.Release?
    ensures u in Step(s, action).threads && WillStop(Step(s, action).threads[u])
  {
    hide ScanFrom, Registered, ReleaseStep, ScheduleStep, CancelStep, EndRunStep, CancelPending, CompleteSealStep,
      DropStopTokenStep, AfterSeal;
    match action
    case Scan(_) =>
    case Submitted(_) =>
    case SubmitFailed(_) =>
    case Retired(_) =>
    case _ => ReleaserIsElsewhere(s, action, u);
  }

  /** The steps of a call that is past its releases are none of a call that still releases. */
  lemma ReleaserIsElsewhere(s: State, action: Action, u: nat)
    requires u in s.threads && Releases(s.threads[u]) && ActorOf(action) == Some(u)
    requires action.Drained? || action.CompleteSeal? || action.DropTokens? || action.CallBack? || action.DropStopToken?
    ensures Step(s, action) == s
  {
    hide ScanStep, SubmitFailedStep, ReleaseStep, ScheduleStep, CancelStep, EndRunStep, Registered, CancelPending,
      ReadyToSeal, FindToken, AfterSeal, Move;
  }

  lemma StopKeepsWaiting(s: State, action: Action, u: nat)
    requires u in s.threads && ActorOf(action) == Some(u)
    requires s.threads[u] == AwaitingDrain || (s.threads[u] == CompletingSeal(true) && ReadyToSeal(s))
    ensures Step(s, action).sealCompleted || (u in Step(s, action).threads && WillStop(Step(s, action).threads[u]))
  {
    hide ScanFrom, Resolve, Admit, Registered, ReadyToSeal, FindToken, FindReleasable, CancelPending;
    match action
    case Drained(_) =>
    case CompleteSeal(_) =>
    case _ =>
  }

  lemma StopGoesOn(s: State, action: Action)
    requires Inv(s) && s.sealed && !s.sealCompleted && SomeThread(s, WillStop)
    ensures SomeThread(Step(s, action), WillStop) || Step(s, action).sealCompleted
  {
    hide Step, HistorySound, FootprintsClash;
    var u :| u in s.threads && WillStop(s.threads[u]);
    if s.threads[u] == CompletingSeal(true) {
      StoppedIsQuiet(s, u);
      QuietIsReady(s);
    }
    if StartsCall(action) {
      StartsStay(s, action, u);
    } else if ActorOf(action) != Some(u) {
      OthersStay(s, action, u);
    } else if Releases(s.threads[u]) {
      StopKeepsReleasing(s, action, u);
    } else {
      StopKeepsWaiting(s, action, u);
    }
  }

  lemma StaysCompleted(s: State, action: Action)
    ensures s.sealCompleted ==> Step(s, action).sealCompleted
  {
    hide Step, ScheduleStep, CancelStep, ScanStep, SubmitFailedStep, ReleaseStep, EndRunStep, CompleteSealStep,
      DropStopTokenStep;
    StepIsBlock(s, action);
    match action
    case Schedule(t, footprints, keys) => BlocksKeepCompleted(s, t, footprints, keys, OperationKey(0, 0), 0, false);
    case Cancel(t, key) => BlocksKeepCompleted(s, t, [], [], key, 0, false);
    case EndRun(i, t, failed) => BlocksKeepCompleted(s, t, [], [], OperationKey(0, 0), i, failed);
    case Scan(t) => ThreadBlocksKeepCompleted(s, t);
    case SubmitFailed(t) => ThreadBlocksKeepCompleted(s, t);
    case Release(t) => ThreadBlocksKeepCompleted(s, t);
    case CompleteSeal(t) => ThreadBlocksKeepCompleted(s, t);
    case DropStopToken(t) => ThreadBlocksKeepCompleted(s, t);
    case _ => RestKeepsCompleted(s, action);
  }

  lemma BlocksKeepCompleted(s: State, t: nat, footprints: seq<AccessFootprint>, keys: seq<OperationKey>,
                            key: OperationKey, i: nat, failed: bool)
    ensures ScheduleStep(s, t, footprints, keys).sealCompleted == s.sealCompleted
    ensures CancelStep(s, t, key).sealCompleted == s.sealCompleted
    ensures EndRunStep(s, i, t, failed).sealCompleted == s.sealCompleted
  {
    hide Admit;
  }

  lemma ThreadBlocksKeepCompleted(s: State, t: nat)
    ensures ScanStep(s, t).sealCompleted == s.sealCompleted && SubmitFailedStep(s, t).sealCompleted == s.sealCompleted
    ensures ReleaseStep(s, t).sealCompleted == s.sealCompleted
    ensures s.sealCompleted ==> CompleteSealStep(s, t).sealCompleted
    ensures DropStopTokenStep(s, t).sealCompleted == s.sealCompleted
  {
    hide ScanFrom, ReadyToSeal, FindToken, FindReleasable, Releasable;
  }

  lemma RestKeepsCompleted(s: State, action: Action)
    requires action.RegisterDomain? || action.Seal? || action.Stop? || action.Submitted? || action.Retired?
          || action.BeginRun? || action.Access? || action.Drained? || action.DropTokens? || action.CallBack?
    ensures Step(s, action).sealCompleted == s.sealCompleted
  {
    hide ScheduleStep, CancelStep, ScanStep, SubmitFailedStep, ReleaseStep, EndRunStep, CompleteSealStep,
      DropStopTokenStep, Registered, CancelPending;
  }

  lemma StepKeepsLeaversHarmless(s: State, action: Action)
    requires Inv(s) && s.sealed && LeaversHarmless(s) && Legal(s, action)
    ensures LeaversHarmless(Step(s, action))
  {
    if s.sealCompleted {
      StaysCompleted(s, action);
    } else if SomeThread(s, WillStop) {
      StopGoesOn(s, action);
    } else if action.Stop? {
      assert action.thread in Step(s, action).threads;
    } else {
      HarmlessStep(s, action);
    }
  }

  // ---------------------------------------------------------------- theorem

  ghost predicate DrainInv(s: State) { OnItsWay(s) && LeaversHarmless(s) }

  lemma {:induction false} RunKeepsDrainInv(s: State, actions: seq<Action>)
    requires Inv(s) && DrainInv(s) && LegalRun(s, actions)
    ensures Inv(RunActions(s, actions)) && DrainInv(RunActions(s, actions))
    decreases |actions|
  {
    if actions != [] {
      StepKeepsInv(s, actions[0]);
      assert s.sealed;
      StepKeepsOnItsWay(s, actions[0]);
      StepKeepsLeaversHarmless(s, actions[0]);
      hide Inv, OnItsWay, LeaversHarmless, Step, Legal;
      RunKeepsDrainInv(Step(s, actions[0]), actions[1..]);
    }
  }

  lemma SealedNow(s: State, t: nat)
    requires Inv(s) && !s.closed && Fresh(s, t) && !CanMiss(s)
    ensures DrainInv(Step(s, Seal(t)))
  {
    hide AllHarmless, IsHarmless, OperationsSound, CountersSound, RetirersMatch, NoLostWakeup, NoLostPayload, StopSound, SealSound,
      TokensSound, HistorySound;
    OpenMeansNoStop(s);
    CannotMissIsHarmless(s);
    var s' := Step(s, Seal(t));
    assert t in s'.threads && Seals(s'.threads[t]);
    MoveKeepsHarmless(s, s', t, Some(Progressing(SEAL)));
  }

  lemma CannotMissIsHarmless(s: State)
    ensures AllHarmless(s) <==> !CanMiss(s)
  {
    hide IsHarmless;
  }

  /** Unless a Schedule call in progress can still come to destroy a payload, Seal leads to the drain callback:
      once every call has returned and nothing is queued or running, it has been called exactly once. */
  lemma SealAloneDrains(s: State, t: nat, actions: seq<Action>)
    requires Reachable(s) && !s.closed && Fresh(s, t) && !CanMiss(s) && LegalRun(Step(s, Seal(t)), actions)
    ensures var end := RunActions(Step(s, Seal(t)), actions);
      end.threads == map[] && NothingActive(end.operations) ==> end.sealCompleted && end.drainCalls == 1
  {
    hide LegalRun, Step;
    ReachableSound(s);
    StepKeepsInv(s, Seal(t));
    SealedNow(s, t);
    RunKeepsDrainInv(Step(s, Seal(t)), actions);
  }
}

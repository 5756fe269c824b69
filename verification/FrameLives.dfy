/** The life of a frame over whole runs of the scheduler: which calls on its handle are accepted depends only on the calls
    on it that were accepted before, and on the GPU. */
module FrameLives {
  import opened Wrappers
  import opened FrameSchedulerSpec

  // ------------------------------------------------------- the order of a life

  /** The last call other than the draw signal, which may come at any time before finalization. */
  function LastStep(ops: seq<Op>): Option<Op> {
    if ops == [] then None
    else if ops[|ops| - 1] == SIGNAL_DRAW then LastStep(ops[..|ops| - 1])
    else Some(ops[|ops| - 1])
  }

  predicate HasEnded(ops: seq<Op>) { LastStep(ops) == Some(RECYCLE) || LastStep(ops) == Some(ABORT) }

  /** The GPU completion that was registered. */
  function Submitted(ops: seq<Op>): Option<nat> {
    if ops == [] then None
    else if ops[|ops| - 1].SUBMIT? then Some(ops[|ops| - 1].gpu)
    else Submitted(ops[..|ops| - 1])
  }

  /**
   * A frame is armed, updated and finalized, and then completes at once or is submitted to the GPU and completes with
   * it; a complete frame is recycled. Its draw is signalled once, before it is finalized. It may be given up at any
   * time but while the GPU has it.
   */
  predicate MayFollow(ops: seq<Op>, op: Op) {
    var last := LastStep(ops);
    match op
    case SIGNAL_DRAW => SIGNAL_DRAW !in ops && !HasEnded(ops)
    case ARM => last == None
    case BEGIN_UPDATE => last == Some(ARM)
    case END_UPDATE => last == Some(BEGIN_UPDATE)
    case BEGIN_FINALIZE => last == Some(END_UPDATE) && SIGNAL_DRAW in ops
    case FINISH => last == Some(BEGIN_FINALIZE)
    case SUBMIT(_) => last == Some(BEGIN_FINALIZE)
    case BEGIN_GPU => last.Some? && last.value.SUBMIT?
    case FINISH_GPU => last == Some(BEGIN_GPU)
    case RECYCLE => last == Some(FINISH) || last == Some(FINISH_GPU)
    case ABORT => !HasEnded(ops) && !(last.Some? && (last.value.SUBMIT? || last.value == BEGIN_GPU))
  }

  /** The accepted calls on a handle, from event i up to event j of a run. */
  ghost function CallsOn(trace: seq<Ring>, events: seq<RingEvent>, h: Handle, i: nat, j: nat): seq<Op>
    requires |trace| == |events| + 1 && i <= j <= |events|
    decreases j
  {
    if i == j then []
    else CallsOn(trace, events, h, i, j - 1) + Accepted(trace[j - 1], events[j - 1], h)
  }

  function Accepted(w: Ring, e: RingEvent, h: Handle): seq<Op> {
    if e.CALL? && e.handle == h && Call(w.scheduler, h, e.op, w.ready).Ok? then [e.op] else []
  }

  // -------------------------------------------------------------- the invariant

  function StateAfter(last: Option<Op>): FrameState {
    match last
    case None => ACQUIRED
    case Some(ARM) => WAITING_UPDATE
    case Some(BEGIN_UPDATE) => UPDATING
    case Some(END_UPDATE) => WAITING_DRAW
    case Some(BEGIN_FINALIZE) => FINALIZE
    case Some(SUBMIT(_)) => FrameState.SUBMITTED
    case Some(BEGIN_GPU) => GPU_IN_FLIGHT
    case Some(FINISH) => COMPLETE
    case Some(FINISH_GPU) => COMPLETE
    case Some(_) => FREE
  }

  /** A frame that has had these calls: its slot tells, or it has been released. */
  ghost predicate Stage(w: Ring, h: Handle, ops: seq<Op>) {
    && h.slot < |w.scheduler.slots| && h.frame < w.scheduler.nextFrame
    && if HasEnded(ops) then Check(w.scheduler, h).Some?
       else
         && Check(w.scheduler, h).None?
         && var slot := w.scheduler.slots[h.slot];
            && slot.state == StateAfter(LastStep(ops)) && slot.completion == Submitted(ops)
            && (slot.drawSignal.isSet <==> SIGNAL_DRAW in ops)
  }

  lemma OneMore(ops: seq<Op>, op: Op)
    ensures LastStep(ops + [op]) == if op == SIGNAL_DRAW then LastStep(ops) else Some(op)
    ensures Submitted(ops + [op]) == if op.SUBMIT? then Some(op.gpu) else Submitted(ops)
    ensures SIGNAL_DRAW in ops + [op] <==> SIGNAL_DRAW in ops || op == SIGNAL_DRAW
  {
    assert (ops + [op])[..|ops|] == ops;
  }

  lemma {:induction false} LastIsNoSignal(ops: seq<Op>)
    ensures LastStep(ops) != Some(SIGNAL_DRAW)
  {
    if ops != [] { LastIsNoSignal(ops[..|ops| - 1]); }
  }

  /** Whether a call is accepted at a stage. */
  lemma AcceptedAtStage(w: Ring, h: Handle, ops: seq<Op>, op: Op)
    requires RingInv(w) && Stage(w, h, ops)
    ensures Call(w.scheduler, h, op, w.ready).Ok? <==>
      MayFollow(ops, op) && (op == FINISH_GPU ==> Submitted(ops).Some? && Submitted(ops).value in w.ready)
  {
    LastIsNoSignal(ops);
    if !HasEnded(ops) {
      assert SlotInv(w.scheduler, h.slot, w.ready);
    }
  }

  lemma CallAtStage(w: Ring, h: Handle, ops: seq<Op>, op: Op)
    requires RingInv(w) && Stage(w, h, ops) && Call(w.scheduler, h, op, w.ready).Ok?
    ensures Stage(After(w, CALL(h, op)), h, ops + [op])
  {
    OneMore(ops, op);
    LastIsNoSignal(ops);
    AcceptedAtStage(w, h, ops, op);
    assert SlotInv(w.scheduler, h.slot, w.ready);
    hide LastStep, Submitted;
  }

  /** An event that is not an accepted call on the handle leaves its stage alone. */
  lemma OtherAtStage(w: Ring, h: Handle, ops: seq<Op>, e: RingEvent)
    requires RingInv(w) && Stage(w, h, ops) && Accepted(w, e, h) == []
    ensures Stage(After(w, e), h, ops)
  {
    hide LastStep, Submitted, StateAfter;
    EventKeepsSize(w, e);
    if HasEnded(ops) {
      EventKeepsReleased(w, e, h);
    } else {
      match e
      case CALL(other, op) => OtherCallAtStage(w, h, ops, other, op);
      case ACQUIRE => assert SlotInv(w.scheduler, h.slot, w.ready);
      case GPU_DONE(_) =>
    }
  }

  lemma OtherCallAtStage(w: Ring, h: Handle, ops: seq<Op>, other: Handle, op: Op)
    requires RingInv(w) && Stage(w, h, ops) && !HasEnded(ops) && Accepted(w, CALL(other, op), h) == []
    ensures Stage(After(w, CALL(other, op)), h, ops)
  {
    hide LastStep, Submitted, StateAfter, HasEnded;
    if Call(w.scheduler, other, op, w.ready).Ok? {
      assert other != h;
      assert other.slot != h.slot;
    }
  }

  lemma EventAtStage(w: Ring, h: Handle, ops: seq<Op>, e: RingEvent)
    requires RingInv(w) && Stage(w, h, ops)
    ensures Stage(After(w, e), h, ops + Accepted(w, e, h))
  {
    hide Stage, RingInv, Call, After;
    if Accepted(w, e, h) == [] {
      assert ops + [] == ops;
      OtherAtStage(w, h, ops, e);
    } else {
      CallAtStage(w, h, ops, e.op);
    }
  }

  lemma AcquiredAtStage(w: Ring, h: Handle)
    requires RingInv(w) && TryAcquire(w.scheduler).Ok? && TryAcquire(w.scheduler).value.1 == Some(h)
    ensures Stage(After(w, ACQUIRE), h, [])
  {
    assert SlotInv(w.scheduler, w.scheduler.nextFrame % |w.scheduler.slots|, w.ready);
  }

  lemma {:induction false} StageOfFrame(owner: nat, n: nat, trace: seq<Ring>, events: seq<RingEvent>, a: nat, h: Handle, j: nat)
    requires IsRun(owner, n, trace, events) && a < j <= |events| && events[a] == ACQUIRE
    requires TryAcquire(trace[a].scheduler).Ok? && TryAcquire(trace[a].scheduler).value.1 == Some(h)
    ensures Stage(trace[j], h, CallsOn(trace, events, h, a + 1, j))
    decreases j
  {
    hide Stage, RingInv, TryAcquire, After, Accepted;
    RunKeepsInv(owner, n, trace, events, j - 1);
    if j == a + 1 {
      AcquiredAtStage(trace[a], h);
    } else {
      StageOfFrame(owner, n, trace, events, a, h, j - 1);
      EventAtStage(trace[j - 1], h, CallsOn(trace, events, h, a + 1, j - 1), events[j - 1]);
    }
  }

  /**
   * At every point of every run, a call on the handle of an acquired frame is accepted exactly when it may follow the
   * calls on that handle accepted so far, and the GPU completion that was registered has been signalled if it is the one
   * that completes the frame with the GPU. Whatever happens to other frames makes no difference.
   */
  lemma LifeOfAFrame(owner: nat, n: nat, trace: seq<Ring>, events: seq<RingEvent>, a: nat, h: Handle, j: nat, op: Op)
    requires IsRun(owner, n, trace, events) && a < j <= |events| && events[a] == ACQUIRE
    requires TryAcquire(trace[a].scheduler).Ok? && TryAcquire(trace[a].scheduler).value.1 == Some(h)
    ensures var ops := CallsOn(trace, events, h, a + 1, j);
      Call(trace[j].scheduler, h, op, trace[j].ready).Ok? <==>
        && MayFollow(ops, op)
        && (op == FINISH_GPU ==> Submitted(ops).Some? && Submitted(ops).value in trace[j].ready)
  {
    hide Stage, RingInv, TryAcquire, After, Accepted;
    RunKeepsInv(owner, n, trace, events, j);
    StageOfFrame(owner, n, trace, events, a, h, j);
    AcceptedAtStage(trace[j], h, CallsOn(trace, events, h, a + 1, j), op);
  }

  /** Each call may follow those before it. */
  ghost predicate InOrder(ops: seq<Op>) { forall k :: 0 <= k < |ops| ==> MayFollow(ops[..k], ops[k]) }

  lemma NothingIsInOrder()
    ensures InOrder([])
  {
  }

  /** So every frame lives its life in that order. */
  lemma {:induction false} LifeIsInOrder(owner: nat, n: nat, trace: seq<Ring>, events: seq<RingEvent>, a: nat, h: Handle, j: nat)
    requires IsRun(owner, n, trace, events) && a < j <= |events| && events[a] == ACQUIRE
    requires TryAcquire(trace[a].scheduler).Ok? && TryAcquire(trace[a].scheduler).value.1 == Some(h)
    ensures InOrder(CallsOn(trace, events, h, a + 1, j))
    decreases j
  {
    hide TryAcquire, After, Call, MayFollow, InOrder;
    NothingIsInOrder();
    if j > a + 1 {
      LifeIsInOrder(owner, n, trace, events, a, h, j - 1);
      var before, ops := CallsOn(trace, events, h, a + 1, j - 1), CallsOn(trace, events, h, a + 1, j);
      var more := Accepted(trace[j - 1], events[j - 1], h);
      assert ops == before + more;
      if more == [] {
        assert ops == before;
      } else {
        LifeOfAFrame(owner, n, trace, events, a, h, j - 1, events[j - 1].op);
        assert MayFollow(before, events[j - 1].op);
        assert more == [events[j - 1].op] && ops[|before|] == more[0];
        assert ops[..|before|] == before;
      }
      InOrderStill(before, ops);
    }
  }

  lemma InOrderStill(before: seq<Op>, ops: seq<Op>)
    requires InOrder(before)
    requires ops == before || (|ops| == |before| + 1 && ops[..|before|] == before && MayFollow(before, ops[|before|]))
    ensures InOrder(ops)
  {
    hide MayFollow;
    forall k | 0 <= k < |ops|
      ensures MayFollow(ops[..k], ops[k])
    {
      if k < |before| {
        assert ops[..k] == before[..k] && ops[k] == before[k];
      } else if ops != before {
        assert ops[..k] == before;
      }
    }
  }
}

/** The ring of frame slots of engine/controller/frame_scheduler.cpp as a value. */
module FrameSchedulerSpec {
  import opened Wrappers

  const INVALID_INDEX := 0xFFFF_FFFF_FFFF_FFFF

  datatype FrameState =
    FREE | ACQUIRED | WAITING_UPDATE | UPDATING | WAITING_DRAW | FINALIZE | SUBMITTED | GPU_IN_FLIGHT | COMPLETE

  datatype Handle = Handle(owner: nat, frame: nat, simulation: nat, slot: nat, generation: nat)

  datatype Signal = Signal(isSet: bool, generation: nat, frame: nat, simulation: nat)

  const NO_SIGNAL := Signal(false, 0, INVALID_INDEX, INVALID_INDEX)

  datatype Slot = Slot(
    state: FrameState,
    frame: nat,
    simulation: nat,
    generation: nat,
    updateSignal: Signal,
    drawSignal: Signal,
    completion: Option<nat>)

  datatype Checkpoint = UPDATE | DRAW

  datatype Scheduler = Scheduler(owner: nat, slots: seq<Slot>, checkpoint: Checkpoint, nextFrame: nat, nextSimulation: nat)

  datatype FrameError = INVALID_HANDLE | FOREIGN_HANDLE | OUT_OF_RANGE | STALE_HANDLE | WRONG_STATE | OUT_OF_ORDER |
    NO_SIGNAL_YET | SIGNALLED_TWICE | EXHAUSTED | NOT_READY

  const FREE_SLOT := Slot(FREE, INVALID_INDEX, INVALID_INDEX, 0, NO_SIGNAL, NO_SIGNAL, None)

  function Initial(owner: nat, n: nat): Scheduler {
    Scheduler(owner, seq(n, _ => FREE_SLOT), UPDATE, 0, 0)
  }

  // ------------------------------------------------------------ operations

  /** Why a handle does not name the frame that now occupies its slot. */
  function Check(s: Scheduler, h: Handle): Option<FrameError> {
    if h.owner == 0 || h.generation == 0 then Some(INVALID_HANDLE)
    else if h.owner != s.owner then Some(FOREIGN_HANDLE)
    else if h.slot >= |s.slots| then Some(OUT_OF_RANGE)
    else
      var slot := s.slots[h.slot];
      if slot.frame != h.frame || slot.simulation != h.simulation || slot.generation != h.generation
      then Some(STALE_HANDLE) else None
  }

  /** The next frame takes the slot its index falls on, if that slot is free. */
  function TryAcquire(s: Scheduler): Result<(Scheduler, Option<Handle>), FrameError>
    requires |s.slots| > 0
  {
    if s.checkpoint != UPDATE then Err(OUT_OF_ORDER)
    else if s.nextFrame == INVALID_INDEX || s.nextSimulation == INVALID_INDEX then Err(EXHAUSTED)
    else
      var i := s.nextFrame % |s.slots|;
      var slot := s.slots[i];
      if slot.state != FREE then Ok((s, None))
      else if slot.generation == INVALID_INDEX then Err(EXHAUSTED)
      else
        var g := slot.generation + 1;
        var taken := Slot(ACQUIRED, s.nextFrame, s.nextSimulation, g,
                          Signal(true, g, s.nextFrame, s.nextSimulation), NO_SIGNAL, slot.completion);
        Ok((s.(slots := s.slots[i := taken], checkpoint := DRAW, nextFrame := s.nextFrame + 1,
               nextSimulation := s.nextSimulation + 1),
            Some(Handle(s.owner, s.nextFrame, s.nextSimulation, i, g))))
  }

  datatype Op =
    | SIGNAL_DRAW | ARM | BEGIN_UPDATE | END_UPDATE | BEGIN_FINALIZE | FINISH
    | SUBMIT(gpu: nat) | BEGIN_GPU | FINISH_GPU | RECYCLE | ABORT

  function Moved(s: Scheduler, h: Handle, from: FrameState, to: FrameState): Result<Scheduler, FrameError>
    requires h.slot < |s.slots|
  {
    var slot := s.slots[h.slot];
    if slot.state != from then Err(WRONG_STATE) else Ok(s.(slots := s.slots[h.slot := slot.(state := to)]))
  }

  function Reset(s: Scheduler, h: Handle): Scheduler
    requires h.slot < |s.slots|
  {
    s.(slots := s.slots[h.slot := FREE_SLOT.(generation := s.slots[h.slot].generation)])
  }

  /** One call on a frame. ready holds the GPU completions that have been signalled. */
  function Call(s: Scheduler, h: Handle, op: Op, ready: set<nat>): Result<Scheduler, FrameError> {
    if op == SIGNAL_DRAW && s.checkpoint != DRAW then Err(OUT_OF_ORDER)
    else
      var bad := Check(s, h);
      if bad.Some? then Err(bad.value)
      else
        var slot := s.slots[h.slot];
        match op
        case SIGNAL_DRAW =>
          if !slot.updateSignal.isSet || slot.updateSignal.generation != h.generation then Err(NO_SIGNAL_YET)
          else if slot.drawSignal.isSet then Err(SIGNALLED_TWICE)
          else
            var signal := Signal(true, slot.generation, slot.frame, slot.simulation);
            Ok(s.(slots := s.slots[h.slot := slot.(drawSignal := signal)], checkpoint := UPDATE))
        case ARM => Moved(s, h, ACQUIRED, WAITING_UPDATE)
        case BEGIN_UPDATE => Moved(s, h, WAITING_UPDATE, UPDATING)
        case END_UPDATE => Moved(s, h, UPDATING, WAITING_DRAW)
        case BEGIN_FINALIZE =>
          if !slot.drawSignal.isSet || slot.drawSignal.generation != h.generation then Err(NO_SIGNAL_YET)
          else Moved(s, h, WAITING_DRAW, FINALIZE)
        case FINISH => Moved(s, h, FINALIZE, COMPLETE)
        case SUBMIT(gpu) =>
          if slot.state != FINALIZE then Err(WRONG_STATE)
          else Ok(s.(slots := s.slots[h.slot := slot.(state := FrameState.SUBMITTED, completion := Some(gpu))]))
        case BEGIN_GPU => Moved(s, h, SUBMITTED, GPU_IN_FLIGHT)
        case FINISH_GPU =>
          if slot.completion.None? || slot.completion.value !in ready then Err(NOT_READY)
          else Moved(s, h, GPU_IN_FLIGHT, COMPLETE)
        case RECYCLE => if slot.state != COMPLETE then Err(WRONG_STATE) else Ok(Reset(s, h))
        case ABORT =>
          if slot.state == FREE || slot.state == SUBMITTED || slot.state == GPU_IN_FLIGHT then Err(WRONG_STATE)
          else
            var releases := s.checkpoint == DRAW && !slot.drawSignal.isSet && slot.frame + 1 == s.nextFrame;
            Ok(Reset(s, h).(checkpoint := if releases then UPDATE else s.checkpoint))
  }

  // ------------------------------------------------------------- invariant

  predicate IsActive(slot: Slot) { slot.state != FREE }

  /** What every slot satisfies. */
  predicate SlotInv(s: Scheduler, i: nat, ready: set<nat>)
    requires i < |s.slots|
  {
    var slot := s.slots[i];
    if IsActive(slot) then
      && slot.frame < s.nextFrame <= slot.frame + |s.slots|
      && slot.frame % |s.slots| == i
      && slot.simulation == slot.frame
      && slot.generation > 0
      && slot.updateSignal == Signal(true, slot.generation, slot.frame, slot.simulation)
      && (slot.drawSignal == NO_SIGNAL || slot.drawSignal == slot.updateSignal)
      && (!slot.drawSignal.isSet ==> slot.frame + 1 == s.nextFrame && s.checkpoint == DRAW)
      && (slot.state in {FINALIZE, SUBMITTED, GPU_IN_FLIGHT, COMPLETE} ==> slot.drawSignal.isSet)
      && (slot.state in {SUBMITTED, GPU_IN_FLIGHT} ==> slot.completion.Some?)
      && (slot.state !in {SUBMITTED, GPU_IN_FLIGHT, COMPLETE} ==> slot.completion.None?)
      && (slot.state == COMPLETE && slot.completion.Some? ==> slot.completion.value in ready)
    else
      slot == FREE_SLOT.(generation := slot.generation)
  }

  /** The frame acquired last is still there and its draw has not been signalled. */
  predicate DrawPending(s: Scheduler)
    requires |s.slots| > 0
  {
    s.nextFrame > 0 &&
    var slot := s.slots[(s.nextFrame - 1) % |s.slots|];
    IsActive(slot) && slot.frame + 1 == s.nextFrame && !slot.drawSignal.isSet
  }

  ghost predicate SchedulerInv(s: Scheduler, ready: set<nat>) {
    && |s.slots| > 0
    && s.owner != 0
    && s.nextFrame == s.nextSimulation <= INVALID_INDEX
    && (forall i: nat :: i < |s.slots| ==> SlotInv(s, i, ready))
    && (s.checkpoint == DRAW <==> DrawPending(s))
  }

  lemma InitialSchedulerInv(owner: nat, n: nat)
    requires owner != 0 && n > 0
    ensures SchedulerInv(Initial(owner, n), {})
  {
  }

  lemma ProductIsNat(e: nat, n: nat)
    ensures e * n >= 0
  {
  }

  lemma Multiples(d: int, n: nat)
    ensures d < 0 ==> d * n + n <= 0
    ensures d > 1 ==> d * n >= n + n
  {
    if d < 0 {
      ProductIsNat(-d - 1, n);
      assert d * n == -((-d - 1) * n) - n;
    } else if d > 1 {
      ProductIsNat(d - 2, n);
      assert d * n == (d - 2) * n + n + n;
    }
  }

  lemma OnlyMultiple(d: int, n: int)
    requires n > 0 && -n < d * n <= n
    ensures d == 0 || d == 1
  {
    Multiples(d, n);
  }

  lemma AddResidue(a: nat, n: nat)
    requires n > 0
    ensures (a + n) % n == a % n
  {
    var d := (a + n) / n - a / n;
    assert (a + n) % n - a % n == n - d * n;
    assert n - d * n == (1 - d) * n;
    OnlyMultiple(1 - d, n);
  }

  /** Frames within the ring's width of each other fall on different slots. */
  lemma OneFramePerSlot(s: Scheduler, ready: set<nat>, i: nat, j: nat)
    requires SchedulerInv(s, ready) && i < |s.slots| && j < |s.slots|
    requires IsActive(s.slots[i]) && IsActive(s.slots[j]) && s.slots[i].frame == s.slots[j].frame
    ensures i == j
  {
    assert SlotInv(s, i, ready) && SlotInv(s, j, ready);
  }

  /** Acquiring keeps the invariant; the handle it gives names the new frame and no older handle does. */
  lemma AcquireKeepsInv(s: Scheduler, ready: set<nat>)
    requires SchedulerInv(s, ready)
    ensures TryAcquire(s).Ok? ==> SchedulerInv(TryAcquire(s).value.0, ready)
    ensures TryAcquire(s) == Err(OUT_OF_ORDER) <==> DrawPending(s)
    ensures TryAcquire(s).Ok? && TryAcquire(s).value.1.Some? ==>
              var h := TryAcquire(s).value.1.value;
              && Check(TryAcquire(s).value.0, h) == None && h.frame == s.nextFrame
              && forall x: Handle :: x.frame < s.nextFrame ==> Check(TryAcquire(s).value.0, x) == Check(s, x)
  {
    hide SlotInv;
    if TryAcquire(s).Ok? && TryAcquire(s).value.1.Some? {
      var t := TryAcquire(s).value.0;
      var k := s.nextFrame % |s.slots|;
      forall i: nat | i < |t.slots|
        ensures SlotInv(t, i, ready)
      {
        AcquireKeepsSlot(s, ready, i);
      }
      FreeSlotChecksNothing(s, ready, k);
    }
  }

  lemma FreeSlotChecksNothing(s: Scheduler, ready: set<nat>, i: nat)
    requires SchedulerInv(s, ready) && i < |s.slots| && !IsActive(s.slots[i])
    ensures s.slots[i].frame == INVALID_INDEX
    ensures forall h: Handle :: h.slot == i && h.frame != INVALID_INDEX ==> Check(s, h).Some?
  {
    assert SlotInv(s, i, ready);
  }

  lemma AcquireKeepsSlot(s: Scheduler, ready: set<nat>, i: nat)
    requires SchedulerInv(s, ready) && i < |s.slots|
    requires TryAcquire(s).Ok? && TryAcquire(s).value.1.Some?
    ensures SlotInv(TryAcquire(s).value.0, i, ready)
  {
    var n := |s.slots|;
    var slot := s.slots[i];
    assert SlotInv(s, i, ready);
    if i != s.nextFrame % n && IsActive(slot) && slot.frame + n == s.nextFrame {
      AddResidue(slot.frame, n);
    }
  }

  lemma MovedKeepsSlot(s: Scheduler, h: Handle, op: Op, ready: set<nat>)
    requires SchedulerInv(s, ready) && Call(s, h, op, ready).Ok? && op != SIGNAL_DRAW && op != RECYCLE && op != ABORT
    ensures var t := Call(s, h, op, ready).value;
            && h.slot < |s.slots| == |t.slots|
            && t == s.(slots := s.slots[h.slot := t.slots[h.slot]])
            && SlotInv(t, h.slot, ready)
            && IsActive(t.slots[h.slot]) == IsActive(s.slots[h.slot])
            && t.slots[h.slot].frame == s.slots[h.slot].frame
            && t.slots[h.slot].drawSignal == s.slots[h.slot].drawSignal
  {
    assert SlotInv(s, h.slot, ready);
  }

  lemma MovedKeepsInv(s: Scheduler, h: Handle, op: Op, ready: set<nat>)
    requires SchedulerInv(s, ready) && Call(s, h, op, ready).Ok? && op != SIGNAL_DRAW && op != RECYCLE && op != ABORT
    ensures SchedulerInv(Call(s, h, op, ready).value, ready)
  {
    MovedKeepsSlot(s, h, op, ready);
    hide Call;
    var t := Call(s, h, op, ready).value;
    forall i: nat | i < |t.slots|
      ensures SlotInv(t, i, ready)
    {
      assert SlotInv(s, i, ready);
    }
  }

  lemma SignalKeepsInv(s: Scheduler, h: Handle, ready: set<nat>)
    requires SchedulerInv(s, ready) && Call(s, h, SIGNAL_DRAW, ready).Ok?
    ensures SchedulerInv(Call(s, h, SIGNAL_DRAW, ready).value, ready)
  {
    var t := Call(s, h, SIGNAL_DRAW, ready).value;
    assert SlotInv(s, h.slot, ready);
    forall i: nat | i < |t.slots|
      ensures SlotInv(t, i, ready)
    {
      assert SlotInv(s, i, ready);
      if i != h.slot && IsActive(s.slots[i]) && s.slots[i].frame == s.slots[h.slot].frame {
        OneFramePerSlot(s, ready, i, h.slot);
      }
    }
  }

  lemma ResetKeepsInv(s: Scheduler, h: Handle, op: Op, ready: set<nat>)
    requires SchedulerInv(s, ready) && (op == RECYCLE || op == ABORT) && Call(s, h, op, ready).Ok?
    ensures SchedulerInv(Call(s, h, op, ready).value, ready)
  {
    var t := Call(s, h, op, ready).value;
    assert SlotInv(s, h.slot, ready);
    forall i: nat | i < |t.slots|
      ensures SlotInv(t, i, ready)
    {
      assert SlotInv(s, i, ready);
      if i != h.slot && IsActive(s.slots[i]) && IsActive(s.slots[h.slot]) &&
        s.slots[i].frame == s.slots[h.slot].frame
      {
        OneFramePerSlot(s, ready, i, h.slot);
      }
    }
  }

  /** Every accepted call keeps the invariant. */
  lemma CallKeepsInv(s: Scheduler, h: Handle, op: Op, ready: set<nat>)
    requires SchedulerInv(s, ready) && Call(s, h, op, ready).Ok?
    ensures SchedulerInv(Call(s, h, op, ready).value, ready)
  {
    if op == SIGNAL_DRAW {
      SignalKeepsInv(s, h, ready);
    } else if op == RECYCLE || op == ABORT {
      ResetKeepsInv(s, h, op, ready);
    } else {
      MovedKeepsInv(s, h, op, ready);
    }
  }

  /** Signalling another GPU completion keeps the invariant. */
  lemma ReadyKeepsInv(s: Scheduler, ready: set<nat>, more: set<nat>)
    requires SchedulerInv(s, ready) && ready <= more
    ensures SchedulerInv(s, more)
  {
    forall i: nat | i < |s.slots|
      ensures SlotInv(s, i, more)
    {
      assert SlotInv(s, i, ready);
    }
  }

  // -------------------------------------------------------------- theorems

  /** A handle of an acquired frame, no longer current. */
  predicate Released(s: Scheduler, h: Handle) {
    h.frame < s.nextFrame && h.slot < |s.slots| && Check(s, h).Some?
  }

  lemma ReleasedStays(s: Scheduler, h: Handle, other: Handle, op: Op, ready: set<nat>)
    requires SchedulerInv(s, ready) && Released(s, h)
    ensures Call(s, other, op, ready).Ok? ==> Released(Call(s, other, op, ready).value, h)
    ensures TryAcquire(s).Ok? ==> Released(TryAcquire(s).value.0, h)
  {
    hide SlotInv;
    if Call(s, other, op, ready).Ok? {
      assert SlotInv(s, other.slot, ready);
    }
    if TryAcquire(s).Ok? && TryAcquire(s).value.1.Some? {
      AcquireKeepsInv(s, ready);
    }
  }

  /** Recycling and aborting release the handle, and only they do. */
  lemma OnlyResetReleases(s: Scheduler, h: Handle, other: Handle, op: Op, ready: set<nat>)
    requires SchedulerInv(s, ready) && Check(s, h).None? && h.frame < s.nextFrame && Call(s, other, op, ready).Ok?
    ensures Check(Call(s, other, op, ready).value, h).Some? <==> (op == RECYCLE || op == ABORT) && other.slot == h.slot
  {
    assert SlotInv(s, other.slot, ready);
  }

  /** A frame that is too far gone to be given up, or not there, holds no draw checkpoint. */
  lemma RefusedAbortKeepsCheckpoint(s: Scheduler, h: Handle, ready: set<nat>)
    requires SchedulerInv(s, ready) && Check(s, h).None?
    requires s.slots[h.slot].state in {FREE, SUBMITTED, GPU_IN_FLIGHT}
    ensures Call(s, h, ABORT, ready) == Err(WRONG_STATE)
    ensures s.slots[h.slot].drawSignal.isSet || s.slots[h.slot].frame + 1 != s.nextFrame
  {
    assert SlotInv(s, h.slot, ready);
  }

  // -------------------------------------------------------------- whole runs

  /** The scheduler, and the GPU completions signalled so far. */
  datatype Ring = Ring(scheduler: Scheduler, ready: set<nat>)

  datatype RingEvent = ACQUIRE | CALL(handle: Handle, op: Op) | GPU_DONE(gpu: nat)

  ghost predicate RingInv(w: Ring) { SchedulerInv(w.scheduler, w.ready) }

  /** A refused call changes nothing. */
  function After(w: Ring, e: RingEvent): Ring
    requires |w.scheduler.slots| > 0
  {
    match e
    case ACQUIRE =>
      (match TryAcquire(w.scheduler) case Ok(taken) => w.(scheduler := taken.0) case Err(_) => w)
    case CALL(h, op) =>
      (match Call(w.scheduler, h, op, w.ready) case Ok(t) => w.(scheduler := t) case Err(_) => w)
    case GPU_DONE(gpu) => w.(ready := w.ready + {gpu})
  }

  lemma EventKeepsInv(w: Ring, e: RingEvent)
    requires RingInv(w)
    ensures RingInv(After(w, e))
  {
    hide SlotInv, Call, TryAcquire;
    match e
    case ACQUIRE => AcquireKeepsInv(w.scheduler, w.ready);
    case CALL(h, op) =>
      if Call(w.scheduler, h, op, w.ready).Ok? { CallKeepsInv(w.scheduler, h, op, w.ready); }
    case GPU_DONE(gpu) => ReadyKeepsInv(w.scheduler, w.ready, w.ready + {gpu});
  }

  /** The states of a run of a new scheduler. */
  ghost predicate IsRun(owner: nat, n: nat, trace: seq<Ring>, events: seq<RingEvent>) {
    && owner != 0 && n > 0
    && |trace| == |events| + 1 && trace[0] == Ring(Initial(owner, n), {})
    && forall i :: 0 <= i < |events| ==> |trace[i].scheduler.slots| > 0 && trace[i + 1] == After(trace[i], events[i])
  }

  lemma {:induction false} RunKeepsInv(owner: nat, n: nat, trace: seq<Ring>, events: seq<RingEvent>, i: nat)
    requires IsRun(owner, n, trace, events) && i < |trace|
    ensures RingInv(trace[i])
    decreases i
  {
    hide RingInv, After;
    if i == 0 {
      InitialRing(owner, n);
    } else {
      RunKeepsInv(owner, n, trace, events, i - 1);
      EventKeepsInv(trace[i - 1], events[i - 1]);
    }
  }

  lemma InitialRing(owner: nat, n: nat)
    requires owner != 0 && n > 0
    ensures RingInv(Ring(Initial(owner, n), {}))
  {
    InitialSchedulerInv(owner, n);
  }

  lemma EventKeepsReleased(w: Ring, e: RingEvent, h: Handle)
    requires RingInv(w) && Released(w.scheduler, h)
    ensures Released(After(w, e).scheduler, h)
  {
    hide SlotInv, Call, TryAcquire;
    match e
    case ACQUIRE => ReleasedStays(w.scheduler, h, h, RECYCLE, w.ready);
    case CALL(other, op) => ReleasedStays(w.scheduler, h, other, op, w.ready);
    case GPU_DONE(_) =>
  }

  /** A released handle never validates again: whatever is acquired, recycled or aborted later, it stays refused. */
  lemma {:induction false} ReleasedStaysReleased(owner: nat, n: nat, trace: seq<Ring>, events: seq<RingEvent>,
                                                 i: nat, j: nat, h: Handle)
    requires IsRun(owner, n, trace, events) && i <= j < |trace| && Released(trace[i].scheduler, h)
    ensures Released(trace[j].scheduler, h)
    decreases j
  {
    hide After, Released, RingInv;
    if i < j {
      ReleasedStaysReleased(owner, n, trace, events, i, j - 1, h);
      RunKeepsInv(owner, n, trace, events, j - 1);
      EventKeepsReleased(trace[j - 1], events[j - 1], h);
    }
  }

  /** A handle that validates at one point of a run and is refused at a later one is refused from then on. */
  lemma RefusedForGood(owner: nat, n: nat, trace: seq<Ring>, events: seq<RingEvent>, i: nat, j: nat, k: nat, h: Handle)
    requires IsRun(owner, n, trace, events) && i <= j <= k < |trace|
    requires h.frame != INVALID_INDEX && Check(trace[i].scheduler, h).None? && Check(trace[j].scheduler, h).Some?
    ensures Check(trace[k].scheduler, h).Some?
  {
    RunKeepsInv(owner, n, trace, events, i);
    KnownFrame(trace[i], h);
    FramesGrow(owner, n, trace, events, i, j);
    ReleasedStaysReleased(owner, n, trace, events, j, k, h);
  }

  lemma KnownFrame(w: Ring, h: Handle)
    requires RingInv(w) && Check(w.scheduler, h).None? && h.frame != INVALID_INDEX
    ensures h.frame < w.scheduler.nextFrame && h.slot < |w.scheduler.slots|
  {
    assert SlotInv(w.scheduler, h.slot, w.ready);
  }

  lemma EventKeepsSize(w: Ring, e: RingEvent)
    requires RingInv(w)
    ensures |After(w, e).scheduler.slots| == |w.scheduler.slots|
    ensures After(w, e).scheduler.nextFrame >= w.scheduler.nextFrame
  {
    hide SlotInv;
  }

  lemma {:induction false} FramesGrow(owner: nat, n: nat, trace: seq<Ring>, events: seq<RingEvent>, i: nat, j: nat)
    requires IsRun(owner, n, trace, events) && i <= j < |trace|
    ensures trace[i].scheduler.nextFrame <= trace[j].scheduler.nextFrame
    ensures |trace[j].scheduler.slots| == |trace[i].scheduler.slots|
    decreases j
  {
    hide After, RingInv;
    if i < j {
      FramesGrow(owner, n, trace, events, i, j - 1);
      RunKeepsInv(owner, n, trace, events, j - 1);
      EventKeepsSize(trace[j - 1], events[j - 1]);
    }
  }

  /** The slot still holds the frame that registered the GPU completion, or that has been signalled. */
  ghost predicate HeldForGpu(w: Ring, i: nat, frame: nat, gpu: nat) {
    || gpu in w.ready
    || (i < |w.scheduler.slots| && IsActive(w.scheduler.slots[i]) && w.scheduler.slots[i].frame == frame
        && w.scheduler.slots[i].completion == Some(gpu))
  }

  lemma CallKeepsHeld(w: Ring, h: Handle, op: Op, i: nat, frame: nat, gpu: nat)
    requires RingInv(w) && HeldForGpu(w, i, frame, gpu) && gpu !in w.ready && Call(w.scheduler, h, op, w.ready).Ok?
    ensures HeldForGpu(After(w, CALL(h, op)), i, frame, gpu)
  {
    assert SlotInv(w.scheduler, i, w.ready);
    if h.slot == i {
      match op
      case RECYCLE =>
      case ABORT =>
      case _ =>
    }
  }

  lemma EventKeepsHeld(w: Ring, e: RingEvent, i: nat, frame: nat, gpu: nat)
    requires RingInv(w) && HeldForGpu(w, i, frame, gpu)
    ensures HeldForGpu(After(w, e), i, frame, gpu)
  {
    if gpu !in w.ready {
      match e
      case CALL(h, op) =>
        if Call(w.scheduler, h, op, w.ready).Ok? { CallKeepsHeld(w, h, op, i, frame, gpu); }
      case _ => hide SlotInv, Call;
    }
  }

  /**
   * A slot whose frame has registered a GPU completion keeps that frame until the completion is signalled: at any
   * later point of the run at which it is free or holds another frame, the GPU is done.
   */
  lemma CompletionHolds(w: Ring, slot: nat, gpu: nat)
    requires RingInv(w) && slot < |w.scheduler.slots| && w.scheduler.slots[slot].completion == Some(gpu)
    ensures HeldForGpu(w, slot, w.scheduler.slots[slot].frame, gpu)
  {
    assert SlotInv(w.scheduler, slot, w.ready);
  }

  lemma {:induction false} FreedOnlyWhenReady(owner: nat, n: nat, trace: seq<Ring>, events: seq<RingEvent>,
                                              i: nat, j: nat, slot: nat, gpu: nat)
    requires IsRun(owner, n, trace, events) && i <= j < |trace|
    requires slot < |trace[i].scheduler.slots| && trace[i].scheduler.slots[slot].completion == Some(gpu)
    ensures HeldForGpu(trace[j], slot, trace[i].scheduler.slots[slot].frame, gpu)
    decreases j
  {
    hide After, RingInv, HeldForGpu;
    if i == j {
      RunKeepsInv(owner, n, trace, events, i);
      CompletionHolds(trace[i], slot, gpu);
    } else {
      FreedOnlyWhenReady(owner, n, trace, events, i, j - 1, slot, gpu);
      RunKeepsInv(owner, n, trace, events, j - 1);
      EventKeepsHeld(trace[j - 1], events[j - 1], slot, trace[i].scheduler.slots[slot].frame, gpu);
    }
  }
}

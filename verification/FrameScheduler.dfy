/** The mutable frame scheduler of engine/controller/frame_scheduler.cpp. */
module FrameSchedulerClass {
  import opened Wrappers
  import opened FrameSchedulerSpec

  class FrameScheduler {
    const owner: nat
    const slots: array<Slot>
    var checkpoint: Checkpoint
    var nextFrame: nat
    var nextSimulation: nat

    ghost function View(): Scheduler
      reads this, slots
    {
      Scheduler(owner, slots[..], checkpoint, nextFrame, nextSimulation)
    }

    constructor (id: nat, maxActiveFrames: nat)
      requires id != 0 && maxActiveFrames > 0
      ensures View() == Initial(id, maxActiveFrames) && SchedulerInv(View(), {}) && fresh(slots)
    {
      owner := id;
      slots := new Slot[maxActiveFrames](_ => FREE_SLOT);
      checkpoint, nextFrame, nextSimulation := UPDATE, 0, 0;
      new;
      assert slots[..] == Initial(id, maxActiveFrames).slots;
      InitialSchedulerInv(id, maxActiveFrames);
    }

    method Validate(h: Handle) returns (bad: Option<FrameError>)
      ensures bad == Check(View(), h)
      ensures bad == Some(INVALID_HANDLE) <==> h.owner == 0 || h.generation == 0
      ensures bad == Some(FOREIGN_HANDLE) <==> h.owner != 0 && h.generation != 0 && h.owner != owner
      ensures bad == Some(OUT_OF_RANGE) <==> h.owner == owner && h.owner != 0 && h.generation != 0 && h.slot >= slots.Length
      ensures bad == None <==>
        && h.owner == owner && h.owner != 0 && h.generation != 0 && h.slot < slots.Length
        && slots[h.slot].frame == h.frame && slots[h.slot].simulation == h.simulation
        && slots[h.slot].generation == h.generation
      ensures bad.Some? ==> bad.value in {INVALID_HANDLE, FOREIGN_HANDLE, OUT_OF_RANGE, STALE_HANDLE}
    {
      if h.owner == 0 || h.generation == 0 {
        return Some(INVALID_HANDLE);
      }
      if h.owner != owner {
        return Some(FOREIGN_HANDLE);
      }
      if h.slot >= slots.Length {
        return Some(OUT_OF_RANGE);
      }
      var slot := slots[h.slot];
      if slot.frame != h.frame || slot.simulation != h.simulation || slot.generation != h.generation {
        return Some(STALE_HANDLE);
      }
      return None;
    }

    method TryAcquireFrame() returns (result: Result<Option<Handle>, FrameError>)
      requires slots.Length > 0
      modifies this, slots
      ensures match TryAcquire(old(View()))
              case Ok((t, h)) => result == Ok(h) && View() == t
              case Err(e) => result == Err(e) && View() == old(View())
      ensures result == Err(OUT_OF_ORDER) <==> old(checkpoint) != UPDATE
      ensures result.Ok? && result.value.None? ==> slots[old(nextFrame) % slots.Length].state != FREE && View() == old(View())
      ensures result.Ok? && result.value.Some? ==>
        var h, was := result.value.value, old(slots[..]);
        && h.owner == owner && h.frame == old(nextFrame) && h.simulation == old(nextSimulation)
        && h.slot == old(nextFrame) % slots.Length && was[h.slot].state == FREE && h.generation == was[h.slot].generation + 1
        && slots[h.slot].state == ACQUIRED && slots[h.slot].frame == h.frame && slots[h.slot].simulation == h.simulation
        && slots[h.slot].generation == h.generation && !slots[h.slot].drawSignal.isSet
        && slots[h.slot].updateSignal == Signal(true, h.generation, h.frame, h.simulation)
        && OthersStay(was, slots[..], h.slot)
        && nextFrame == old(nextFrame) + 1 && nextSimulation == old(nextSimulation) + 1 && checkpoint == DRAW
    {
      if checkpoint != UPDATE {
        return Err(OUT_OF_ORDER);
      }
      if nextFrame == INVALID_INDEX || nextSimulation == INVALID_INDEX {
        return Err(EXHAUSTED);
      }
      var index := nextFrame % slots.Length;
      var slot := slots[index];
      if slot.state != FREE {
        return Ok(None);
      }
      if slot.generation == INVALID_INDEX {
        return Err(EXHAUSTED);
      }
      var generation := slot.generation + 1;
      slots[index] := Slot(ACQUIRED, nextFrame, nextSimulation, generation,
                           Signal(true, generation, nextFrame, nextSimulation), NO_SIGNAL, slot.completion);
      var h := Handle(owner, nextFrame, nextSimulation, index, generation);
      nextFrame := nextFrame + 1;
      nextSimulation := nextSimulation + 1;
      checkpoint := DRAW;
      return Ok(Some(h));
    }

    method SignalDraw(h: Handle) returns (result: Result<(), FrameError>)
      modifies this, slots
      ensures Answers(old(View()), h, SIGNAL_DRAW, {}, result, View())
      ensures result == Err(OUT_OF_ORDER) <==> old(checkpoint) != DRAW
      ensures result.Ok? ==>
        && h.slot < slots.Length && checkpoint == UPDATE
        && slots[h.slot] == old(slots[..])[h.slot].(drawSignal := Signal(true, h.generation, h.frame, h.simulation))
        && OthersStay(old(slots[..]), slots[..], h.slot)
    {
      if checkpoint != DRAW {
        return Err(OUT_OF_ORDER);
      }
      var bad := Validate(h);
      if bad.Some? {
        return Err(bad.value);
      }
      var slot := slots[h.slot];
      if !slot.updateSignal.isSet || slot.updateSignal.generation != h.generation {
        return Err(NO_SIGNAL_YET);
      }
      if slot.drawSignal.isSet {
        return Err(SIGNALLED_TWICE);
      }
      slots[h.slot] := slot.(drawSignal := Signal(true, slot.generation, slot.frame, slot.simulation));
      checkpoint := UPDATE;
      return Ok(());
    }

    /** Moves a frame from the state it must be in to the next. */
    method Transition(h: Handle, from: FrameState, to: FrameState) returns (result: Result<(), FrameError>)
      modifies slots
      ensures match Check(old(View()), h)
              case Some(e) => result == Err(e) && View() == old(View())
              case None =>
                match Moved(old(View()), h, from, to)
                case Ok(t) => result == Ok(()) && View() == t
                case Err(e) => result == Err(e) && View() == old(View())
    {
      var bad := Validate(h);
      if bad.Some? {
        return Err(bad.value);
      }
      var slot := slots[h.slot];
      if slot.state != from {
        return Err(WRONG_STATE);
      }
      slots[h.slot] := slot.(state := to);
      return Ok(());
    }

    method ArmFrame(h: Handle) returns (result: Result<(), FrameError>)
      modifies slots
      ensures Answers(old(View()), h, ARM, {}, result, View())
    {
      result := Transition(h, ACQUIRED, WAITING_UPDATE);
    }

    method BeginUpdate(h: Handle) returns (result: Result<(), FrameError>)
      modifies slots
      ensures Answers(old(View()), h, BEGIN_UPDATE, {}, result, View())
    {
      result := Transition(h, WAITING_UPDATE, UPDATING);
    }

    method EndUpdate(h: Handle) returns (result: Result<(), FrameError>)
      modifies slots
      ensures Answers(old(View()), h, END_UPDATE, {}, result, View())
    {
      result := Transition(h, UPDATING, WAITING_DRAW);
    }

    method BeginFinalize(h: Handle) returns (result: Result<(), FrameError>)
      modifies slots
      ensures Answers(old(View()), h, BEGIN_FINALIZE, {}, result, View())
    {
      var bad := Validate(h);
      if bad.Some? {
        return Err(bad.value);
      }
      var slot := slots[h.slot];
      if !slot.drawSignal.isSet || slot.drawSignal.generation != h.generation {
        return Err(NO_SIGNAL_YET);
      }
      result := Transition(h, WAITING_DRAW, FINALIZE);
    }

    method CompleteFrame(h: Handle) returns (result: Result<(), FrameError>)
      modifies slots
      ensures Answers(old(View()), h, FINISH, {}, result, View())
    {
      result := Transition(h, FINALIZE, COMPLETE);
    }

    method MarkSubmitted(h: Handle, gpu: nat) returns (result: Result<(), FrameError>)
      modifies slots
      ensures Answers(old(View()), h, SUBMIT(gpu), {}, result, View())
      ensures result.Ok? ==>
        && h.slot < slots.Length && OthersStay(old(slots[..]), slots[..], h.slot)
        && slots[h.slot] == old(slots[..])[h.slot].(state := FrameState.SUBMITTED, completion := Some(gpu))
    {
      result := Transition(h, FINALIZE, FrameState.SUBMITTED);
      if result.Ok? {
        slots[h.slot] := slots[h.slot].(completion := Some(gpu));
      }
    }

    method BeginGpu(h: Handle) returns (result: Result<(), FrameError>)
      modifies slots
      ensures Answers(old(View()), h, BEGIN_GPU, {}, result, View())
    {
      result := Transition(h, FrameState.SUBMITTED, GPU_IN_FLIGHT);
    }

    method CompleteGpu(h: Handle, ready: set<nat>) returns (result: Result<(), FrameError>)
      modifies slots
      ensures Answers(old(View()), h, FINISH_GPU, ready, result, View())
    {
      var bad := Validate(h);
      if bad.Some? {
        return Err(bad.value);
      }
      var slot := slots[h.slot];
      if slot.completion.None? || slot.completion.value !in ready {
        return Err(NOT_READY);
      }
      result := Transition(h, GPU_IN_FLIGHT, COMPLETE);
    }

    method ResetFrameData(h: Handle)
      requires h.slot < slots.Length
      modifies slots
      ensures View() == Reset(old(View()), h)
      ensures slots[h.slot].state == FREE && slots[h.slot].generation == old(slots[h.slot].generation)
      ensures slots[h.slot].completion == None && OthersStay(old(slots[..]), slots[..], h.slot)
    {
      slots[h.slot] := FREE_SLOT.(generation := slots[h.slot].generation);
    }

    method RecycleFrame(h: Handle) returns (result: Result<(), FrameError>)
      modifies slots
      ensures Answers(old(View()), h, RECYCLE, {}, result, View())
      ensures result.Ok? ==>
        && h.slot < slots.Length && old(slots[..])[h.slot].state == COMPLETE && slots[h.slot].state == FREE
        && slots[h.slot].generation == h.generation && OthersStay(old(slots[..]), slots[..], h.slot)
    {
      var bad := Validate(h);
      if bad.Some? {
        return Err(bad.value);
      }
      if slots[h.slot].state != COMPLETE {
        return Err(WRONG_STATE);
      }
      ResetFrameData(h);
      return Ok(());
    }

    /** Gives a frame up before the GPU has it; an unsignalled last frame gives its draw checkpoint back. The source
        gives the checkpoint back before it looks at the state; under the ring's invariant that is the same, since a
        frame refused for its state leaves the checkpoint alone (RefusedAbortKeepsCheckpoint). */
    method AbortFrame(h: Handle) returns (result: Result<(), FrameError>)
      modifies this`checkpoint, slots
      ensures Answers(old(View()), h, ABORT, {}, result, View())
      ensures result.Ok? ==>
        && h.slot < slots.Length && slots[h.slot].state == FREE && slots[h.slot].generation == h.generation
        && OthersStay(old(slots[..]), slots[..], h.slot)
        && checkpoint == (if old(checkpoint) == DRAW && !old(slots[..])[h.slot].drawSignal.isSet && h.frame + 1 == nextFrame
                          then UPDATE else old(checkpoint))
    {
      var bad := Validate(h);
      if bad.Some? {
        return Err(bad.value);
      }
      var slot := slots[h.slot];
      if slot.state == FREE || slot.state == FrameState.SUBMITTED || slot.state == GPU_IN_FLIGHT {
        return Err(WRONG_STATE);
      }
      if checkpoint == DRAW && !slot.drawSignal.isSet && slot.frame + 1 == nextFrame {
        checkpoint := UPDATE;
      }
      ResetFrameData(h);
      return Ok(());
    }
  }

  /** Only the element at i differs. */
  ghost predicate OthersStay<T>(before: seq<T>, after: seq<T>, i: nat) {
    |after| == |before| && forall j :: 0 <= j < |before| && j != i ==> after[j] == before[j]
  }

  /** The answer to a call is the specified one, and a refused call changes nothing. */
  ghost predicate Answers(s: Scheduler, h: Handle, op: Op, ready: set<nat>, result: Result<(), FrameError>, t: Scheduler) {
    match Call(s, h, op, ready)
    case Ok(u) => result == Ok(()) && t == u
    case Err(e) => result == Err(e) && t == s
  }
}

/** The mutable engine of engine/engine.cpp: frame records, admission and lifecycle over a frame scheduler. */
module EngineClass {
  import opened Wrappers
  import opened FrameSchedulerSpec
  import opened FrameSchedulerClass
  import opened EngineFrames

  datatype EngineError = NOT_RUNNING | DRAW_OUT_OF_ORDER | SUBMIT_FAILED | FRAMES_EXHAUSTED

  /** The engine has taken exactly this step of the protocol, without a rejected scheduler call. */
  ghost predicate Took(e: Engine, a: Action, t: Engine) {
    Enabled(e, a) && |e.records| == |e.scheduler.slots| > 0 && Step(e, a) == Ok(t)
  }

  lemma TakesStep(e: Engine, a: Action)
    requires EngineInv(e) && Enabled(e, a) && a != BEGIN_FRAME
    ensures |e.records| == |e.scheduler.slots| > 0
    ensures Step(e, a).Ok? && EngineInv(Step(e, a).value) && Took(e, a, Step(e, a).value)
  {
    SchedulerNeverRejects(e, a);
  }

  lemma AbortTakesStep(e: Engine, key: Handle)
    requires EngineInv(e)
    ensures Abort(e, key).Ok? && EngineInv(Abort(e, key).value) && Took(e, ABORT_FRAME(key), Abort(e, key).value)
  {
    hide EngineInv, Abort;
    TakesStep(e, ABORT_FRAME(key));
  }

  lemma DrawTakesStep(e: Engine, fails: bool)
    requires EngineInv(e) && e.running && |e.records| > 0
    ensures RequestDraw(e, fails).Ok? && EngineInv(RequestDraw(e, fails).value)
    ensures Took(e, REQUEST_DRAW(fails), RequestDraw(e, fails).value)
  {
    hide EngineInv, RequestDraw;
    TakesStep(e, REQUEST_DRAW(fails));
  }

  lemma PublishTakesStep(e: Engine, key: Handle, fails: bool)
    requires EngineInv(e)
    ensures |e.records| == |e.scheduler.slots| > 0
    ensures Publish(e, key, fails).Ok? && EngineInv(Publish(e, key, fails).value)
    ensures Took(e, PUBLISH(key, fails), Publish(e, key, fails).value)
  {
    hide EngineInv, Publish;
    TakesStep(e, PUBLISH(key, fails));
  }

  lemma ReapTakesStep(e: Engine, i: nat, gpuFails: bool)
    requires EngineInv(e) && Enabled(e, REAP(i, gpuFails))
    ensures i < |e.scheduler.slots| && Reap(e, i, gpuFails).Ok? && EngineInv(Reap(e, i, gpuFails).value)
    ensures Took(e, REAP(i, gpuFails), Reap(e, i, gpuFails).value)
  {
    hide EngineInv, Reap;
    TakesStep(e, REAP(i, gpuFails));
  }

  /** Only completing GPU work looks at the signalled completions. */
  lemma ReadyIsForGpu(s: Scheduler, h: Handle, op: Op, ready: set<nat>)
    requires op != FINISH_GPU
    ensures Call(s, h, op, ready) == Call(s, h, op, {})
  {
  }

  lemma {:induction false} OneMoreStep(e: Engine, actions: seq<Action>, m: Engine, a: Action, t: Engine)
    requires Reaches(e, actions, m) && Took(m, a, t)
    ensures Reaches(e, actions + [a], t)
    decreases |actions|
  {
    hide Step, Enabled;
    if actions == [] {
      assert ([] + [a])[1..] == [];
    } else {
      OneMoreStep(Step(e, actions[0]).value, actions[1..], m, a, t);
      assert (actions + [a])[1..] == actions[1..] + [a];
    }
  }

  class EngineCore {
    const scheduler: FrameScheduler
    const records: array<Option<Record>>
    var running: bool
    var admissionOpen: bool
    var nextDraw: nat
    var ready: set<nat>
    ghost var extracted: set<nat>
    ghost var abandoned: set<nat>
    ghost var published: seq<Handle>

    ghost function View(): Engine
      reads this, scheduler, scheduler.slots, records
    {
      Engine(scheduler.View(), records[..], running, admissionOpen, nextDraw, ready, extracted, abandoned, published)
    }

    ghost predicate Valid()
      reads this, scheduler, scheduler.slots, records
    {
      EngineInv(View())
    }

    constructor (owner: nat, n: nat)
      requires owner != 0 && n > 0
      ensures View() == InitialEngine(owner, n) && Valid()
      ensures fresh(scheduler) && fresh(scheduler.slots) && fresh(records)
    {
      scheduler := new FrameScheduler(owner, n);
      records := new Option<Record>[n](_ => None);
      running, admissionOpen, nextDraw, ready := true, true, 0, {};
      extracted, abandoned, published := {}, {}, [];
      new;
      assert records[..] == InitialEngine(owner, n).records;
      InitialEngineInv(owner, n);
    }

    /** The record a key names, while the engine runs. */
    method ResolveReservation(key: Handle) returns (found: bool)
      ensures found <==> Resolves(View(), key)
      ensures found <==> running && key.slot < records.Length && records[key.slot].Some? && records[key.slot].value.frame == key
    {
      found := running && key.slot < records.Length && records[key.slot].Some? && records[key.slot].value.frame == key;
    }

    /** Acquires the next frame and reserves its record, closing admission. */
    method BeginFrame() returns (result: Result<Option<Handle>, EngineError>)
      requires Valid() && running && admissionOpen
      modifies this`admissionOpen, scheduler, scheduler.slots, records
      ensures Valid()
      ensures result.Err? ==> result.error == FRAMES_EXHAUSTED && View() == old(View())
      ensures result.Ok? ==> Took(old(View()), BEGIN_FRAME, View())
      ensures result.Ok? && result.value.Some? ==> Resolves(View(), result.value.value) && !admissionOpen
    {
      hide EngineInv, Check;
      ghost var e := View();
      SchedulerNeverRejects(e, BEGIN_FRAME);
      BeginSteps(e);
      SlotOfNext(e);
      var acquired := scheduler.TryAcquireFrame();
      if acquired.Err? {
        return Err(FRAMES_EXHAUSTED);
      }
      if acquired.value.None? {
        return Ok(None);
      }
      var h := acquired.value.value;
      records[h.slot] := Some(Record(h, false, false, false, false, IDLE));
      admissionOpen := false;
      return Ok(Some(h));
    }

    /** Publishes the update of a reserved frame; a stale key or one already published is refused. */
    method CompleteUserUpdate(key: Handle, submitFails: bool) returns (result: Result<bool, EngineError>)
      requires Valid()
      modifies this`running, this`abandoned, this`published, scheduler, scheduler.slots, records
      ensures Valid() && Took(old(View()), PUBLISH(key, submitFails), View())
      ensures result == Ok(false) <==> !Resolves(old(View()), key) || old(View()).records[key.slot].value.hasUpdateTask
      ensures result == Ok(false) ==> View() == old(View())
      ensures result != Ok(false) ==> result == if submitFails then Err(SUBMIT_FAILED) else Ok(true)
      ensures result != Ok(false) ==> key.slot < records.Length && OthersStay(old(records[..]), records[..], key.slot)
      ensures result == Ok(true) ==>
        && running == old(running) && published == old(published) + [key]
        && records[key.slot] == Some(old(records[..])[key.slot].value.(hasUpdateTask := true, progress := UPDATE_QUEUED))
      ensures result.Err? ==> !running && records[key.slot] == None && published == old(published)
    {
      hide EngineInv, Took, Call, Step;
      ghost var e := View();
      PublishTakesStep(e, key, submitFails);
      var found := ResolveReservation(key);
      if !found || records[key.slot].value.hasUpdateTask {
        return Ok(false);
      }
      var r := records[key.slot].value;
      ReadyIsForGpu(scheduler.View(), r.frame, ARM, ready);
      var armed := scheduler.ArmFrame(r.frame);
      if submitFails {
        running := false;
        DropRecord(key.slot);
        abandoned := abandoned + {key.frame};
        return Err(SUBMIT_FAILED);
      }
      records[key.slot] := Some(r.(hasUpdateTask := true, progress := UPDATE_QUEUED));
      published := published + [key];
      return Ok(true);
    }

    /** Gives the frame of a record back to the scheduler and clears the record. */
    method DropRecord(i: nat)
      requires HasRecord(View(), i) && OnFrame(View(), i, ABORT).Ok?
      modifies scheduler, scheduler.slots, records
      ensures View() == OnFrame(old(View()), i, ABORT).value.(records := old(View()).records[i := None])
      ensures records[i] == None && OthersStay(old(records[..]), records[..], i)
    {
      hide Call;
      ReadyIsForGpu(scheduler.View(), records[i].value.frame, ABORT, ready);
      var answer := scheduler.AbortFrame(records[i].value.frame);
      records[i] := None;
    }

    /** Gives a reserved frame up before its update is published, and opens admission again. */
    method AbortFrame(key: Handle) returns (aborted: bool)
      requires Valid()
      modifies this`admissionOpen, this`nextDraw, this`abandoned, scheduler, scheduler.slots, records
      ensures Valid() && Took(old(View()), ABORT_FRAME(key), View())
      ensures aborted <==> Resolves(old(View()), key) && !old(View()).records[key.slot].value.hasUpdateTask
      ensures if aborted then admissionOpen && !Resolves(View(), key) else View() == old(View())
      ensures aborted ==>
        && nextDraw == key.frame + 1 && running == old(running)
        && key.slot < records.Length && records[key.slot] == None && OthersStay(old(records[..]), records[..], key.slot)
    {
      hide EngineInv, Took, Call, Step;
      ghost var e := View();
      AbortTakesStep(e, key);
      var found := ResolveReservation(key);
      if !found || records[key.slot].value.hasUpdateTask {
        return false;
      }
      DropRecord(key.slot);
      nextDraw := key.frame + 1;
      admissionOpen := true;
      abandoned := abandoned + {key.frame};
      return true;
    }

    /** Signals the draw of a frame and submits its task. */
    method ScheduleDraw(i: nat, submitFails: bool)
      requires HasRecord(View(), i) && EngineFrames.ScheduleDraw(View(), i, submitFails).Ok?
      modifies this`running, scheduler, scheduler.slots, records
      ensures Ok(View()) == EngineFrames.ScheduleDraw(old(View()), i, submitFails)
      ensures OthersStay(old(records[..]), records[..], i) && running == (old(running) && !submitFails)
      ensures records[i] == Some(if submitFails then old(records[..])[i].value.(progress := DRAW_LOST)
                                 else old(records[..])[i].value.(hasDrawTask := true, progress := DRAW_QUEUED))
    {
      hide Call;
      ghost var e := View();
      var r := records[i].value;
      ReadyIsForGpu(scheduler.View(), r.frame, SIGNAL_DRAW, ready);
      var signalled := scheduler.SignalDraw(r.frame);
      assert OnFrame(e, i, SIGNAL_DRAW) == Ok(View());
      if submitFails {
        records[i] := Some(r.(progress := DRAW_LOST));
        running := false;
      } else {
        records[i] := Some(r.(hasDrawTask := true, progress := DRAW_QUEUED));
      }
    }

    /** Asks for the draw of the next frame; the draw is scheduled now, or by the update when it succeeds. */
    method Draw(submitFails: bool) returns (result: Result<(), EngineError>)
      requires Valid()
      modifies this`running, this`nextDraw, scheduler, scheduler.slots, records
      ensures Valid()
      ensures result == Err(NOT_RUNNING) <==> !old(running)
      ensures result == Err(NOT_RUNNING) || result == Err(DRAW_OUT_OF_ORDER) ==> View() == old(View())
      ensures result != Err(NOT_RUNNING) ==> Took(old(View()), REQUEST_DRAW(submitFails), View())
      ensures result == Ok(()) ==> nextDraw == old(nextDraw) + 1
      ensures records.Length > 0
      ensures result == Err(DRAW_OUT_OF_ORDER) <==>
        && old(running)
        && var record := old(records[nextDraw % records.Length]);
           !(record.Some? && record.value.hasUpdateTask && record.value.frame.frame == old(nextDraw)
             && !record.value.drawRequested)
      ensures result == Ok(()) || result == Err(SUBMIT_FAILED) ==>
        var i, was := old(nextDraw) % records.Length, old(records[nextDraw % records.Length]).value;
        && OthersStay(old(records[..]), records[..], i) && records[i].Some?
        && (result == Err(SUBMIT_FAILED) <==> was.updateSucceeded && submitFails)
        && (was.updateSucceeded && !submitFails ==>
              records[i].value == was.(drawRequested := true, hasDrawTask := true, progress := DRAW_QUEUED))
        && (!was.updateSucceeded ==> records[i].value == was.(drawRequested := true))
      ensures result == Err(SUBMIT_FAILED) ==> !running && nextDraw == old(nextDraw)
      ensures result == Ok(()) ==> running
    {
      hide EngineInv, EngineFrames.ScheduleDraw, Took, Step;
      InvOf(View());
      if !running {
        return Err(NOT_RUNNING);
      }
      ghost var e := View();
      DrawTakesStep(e, submitFails);
      var i := nextDraw % records.Length;
      if records[i].None? {
        return Err(DRAW_OUT_OF_ORDER);
      }
      var r := records[i].value;
      if !r.hasUpdateTask || r.frame.frame != nextDraw || r.drawRequested {
        return Err(DRAW_OUT_OF_ORDER);
      }
      records[i] := Some(r.(drawRequested := true));
      if r.updateSucceeded {
        ScheduleDraw(i, submitFails);
        if submitFails {
          return Err(SUBMIT_FAILED);
        }
      }
      nextDraw := nextDraw + 1;
      return Ok(());
    }

    // --------------------------------------------------- callbacks of the tasks

    method RunUpdate(i: nat)
      requires Valid() && Enabled(View(), START_UPDATE(i))
      modifies scheduler, scheduler.slots, records
      ensures Valid() && Took(old(View()), START_UPDATE(i), View())
    {
      ghost var e := View();
      TakesStep(e, START_UPDATE(i));
      hide EngineInv, Call;
      ReadyIsForGpu(scheduler.View(), records[i].value.frame, BEGIN_UPDATE, ready);
      var answer := scheduler.BeginUpdate(records[i].value.frame);
      records[i] := Some(records[i].value.(progress := SIMULATING));
    }

    /** The update of a frame has ended; a draw asked for meanwhile is scheduled now. */
    method FinishUpdate(i: nat, succeeded: bool, submitFails: bool)
      requires Valid() && Enabled(View(), FINISH_UPDATE(i, succeeded, submitFails))
      modifies this`running, scheduler, scheduler.slots, records
      ensures Valid() && Took(old(View()), FINISH_UPDATE(i, succeeded, submitFails), View())
      ensures records[i].Some?
      ensures var drawn := old(records[i]).value.drawRequested;
        && running == (old(running) && succeeded && !(drawn && submitFails))
        && records[i].value.updateSucceeded == (succeeded || old(records[i]).value.updateSucceeded)
        && records[i].value.progress ==
             (if !succeeded then UPDATE_FAILED else if !drawn then UPDATED else if submitFails then DRAW_LOST else DRAW_QUEUED)
    {
      hide EngineInv, Call, EngineFrames.ScheduleDraw;
      ghost var e := View();
      TakesStep(e, FINISH_UPDATE(i, succeeded, submitFails));
      if !succeeded {
        records[i] := Some(records[i].value.(progress := UPDATE_FAILED));
        running := false;
        return;
      }
      ReadyIsForGpu(scheduler.View(), records[i].value.frame, END_UPDATE, ready);
      var answer := scheduler.EndUpdate(records[i].value.frame);
      var r := records[i].value.(updateSucceeded := true, progress := UPDATED);
      records[i] := Some(r);
      if r.drawRequested {
        ScheduleDraw(i, submitFails);
      }
    }

    method RunDraw(i: nat)
      requires Valid() && Enabled(View(), START_DRAW(i))
      modifies scheduler, scheduler.slots, records
      ensures Valid() && Took(old(View()), START_DRAW(i), View())
    {
      ghost var e := View();
      TakesStep(e, START_DRAW(i));
      hide EngineInv, Call;
      ReadyIsForGpu(scheduler.View(), records[i].value.frame, BEGIN_FINALIZE, ready);
      var answer := scheduler.BeginFinalize(records[i].value.frame);
      records[i] := Some(records[i].value.(progress := EXTRACTING));
    }

    /** Extraction has returned: the next update may be admitted. */
    method FinishDraw(i: nat)
      requires Valid() && Enabled(View(), FINISH_EXTRACTION(i))
      modifies this`admissionOpen, this`extracted, records
      ensures Valid() && Took(old(View()), FINISH_EXTRACTION(i), View())
      ensures admissionOpen && records[i] == Some(old(records[i]).value.(progress := PREPARING))
    {
      ghost var e := View();
      TakesStep(e, FINISH_EXTRACTION(i));
      hide EngineInv;
      extracted := extracted + {records[i].value.frame.frame};
      records[i] := Some(records[i].value.(progress := PREPARING));
      admissionOpen := true;
    }

    method RegisterGpuCompletion(i: nat, gpu: nat)
      requires Valid() && Enabled(View(), REGISTER_GPU(i, gpu))
      modifies scheduler, scheduler.slots
      ensures Valid() && Took(old(View()), REGISTER_GPU(i, gpu), View())
    {
      ghost var e := View();
      TakesStep(e, REGISTER_GPU(i, gpu));
      hide EngineInv, Call;
      ReadyIsForGpu(scheduler.View(), records[i].value.frame, SUBMIT(gpu), ready);
      var answer := scheduler.MarkSubmitted(records[i].value.frame, gpu);
    }

    /** Preparation has returned; without a GPU completion the frame is complete. */
    method CompleteDraw(i: nat)
      requires Valid() && Enabled(View(), COMPLETE_DRAW(i))
      modifies scheduler, scheduler.slots, records
      ensures Valid() && Took(old(View()), COMPLETE_DRAW(i), View())
    {
      ghost var e := View();
      TakesStep(e, COMPLETE_DRAW(i));
      hide EngineInv, Call;
      if scheduler.slots[i].completion.None? {
        ReadyIsForGpu(scheduler.View(), records[i].value.frame, FINISH, ready);
        var answer := scheduler.CompleteFrame(records[i].value.frame);
      }
      records[i] := Some(records[i].value.(progress := DRAWN(true)));
    }

    /** An extraction or preparation task has failed, so the draw task behind it ends without running. The engine
        goes on until it reclaims the frame. */
    method LoseDrawTask(i: nat)
      requires Valid() && Enabled(View(), FAIL_DRAW(i, false))
      modifies records
      ensures Valid() && Took(old(View()), FAIL_DRAW(i, false), View()) && running == old(running)
      ensures records[i] == Some(old(records[i]).value.(progress := DRAWN(false)))
    {
      ghost var e := View();
      TakesStep(e, FAIL_DRAW(i, false));
      hide EngineInv;
      records[i] := Some(records[i].value.(progress := DRAWN(false)));
    }

    method LatchRuntimeFailure(i: nat)
      requires Valid() && Enabled(View(), FAIL_DRAW(i, true))
      modifies this`running, records
      ensures Valid() && Took(old(View()), FAIL_DRAW(i, true), View())
      ensures !running && records[i] == Some(old(records[i]).value.(progress := DRAWN(false)))
    {
      ghost var e := View();
      TakesStep(e, FAIL_DRAW(i, true));
      hide EngineInv;
      records[i] := Some(records[i].value.(progress := DRAWN(false)));
      running := false;
    }

    method SignalGpu(gpu: nat)
      requires Valid()
      modifies this`ready
      ensures Valid() && Took(old(View()), SIGNAL_GPU(gpu), View())
    {
      ghost var e := View();
      TakesStep(e, SIGNAL_GPU(gpu));
      hide EngineInv;
      ready := ready + {gpu};
    }

    method EnterStopping()
      requires Valid()
      modifies this`running
      ensures Valid() && Took(old(View()), STOP, View())
    {
      ghost var e := View();
      TakesStep(e, STOP);
      hide EngineInv;
      running := false;
    }

    // ------------------------------------------------------------- reclamation

    /** Recycles a finished frame, aborts a failed one, and clears the record. */
    method RetireRecord(i: nat, failed: bool)
      requires HasRecord(View(), i) && Retire(View(), i, failed).Ok?
      modifies scheduler, scheduler.slots, records
      ensures Ok(View()) == Retire(old(View()), i, failed)
      ensures records[i] == None && OthersStay(old(records[..]), records[..], i)
    {
      hide Call;
      ghost var e := View();
      if failed {
        ReadyIsForGpu(scheduler.View(), records[i].value.frame, ABORT, ready);
        var aborted := scheduler.AbortFrame(records[i].value.frame);
      } else {
        ReadyIsForGpu(scheduler.View(), records[i].value.frame, RECYCLE, ready);
        var recycled := scheduler.RecycleFrame(records[i].value.frame);
      }
      assert OnFrame(e, i, if failed then ABORT else RECYCLE) == Ok(View());
      records[i] := None;
    }

    /** A submitted frame is in flight from now on. */
    method BeginGpuWork(i: nat)
      requires HasRecord(View(), i) && i < scheduler.slots.Length
      requires scheduler.slots[i].state == SUBMITTED ==> OnFrame(View(), i, BEGIN_GPU).Ok?
      modifies scheduler, scheduler.slots
      ensures Ok(View()) == if old(scheduler.slots[i]).state == SUBMITTED then OnFrame(old(View()), i, BEGIN_GPU) else Ok(old(View()))
    {
      hide Call;
      ReadyIsForGpu(scheduler.View(), records[i].value.frame, BEGIN_GPU, ready);
      if scheduler.slots[i].state == SUBMITTED {
        var begun := scheduler.BeginGpu(records[i].value.frame);
      }
    }

    method EndGpuWork(i: nat)
      requires HasRecord(View(), i) && OnFrame(View(), i, FINISH_GPU).Ok?
      modifies scheduler, scheduler.slots
      ensures Ok(View()) == OnFrame(old(View()), i, FINISH_GPU)
    {
      hide Call;
      var completed := scheduler.CompleteGpu(records[i].value.frame, ready);
    }

    /** Takes back the frame of one slot whose draw task has ended, unless the GPU still has it. */
    method ReapRecord(i: nat, gpuFails: bool)
      requires Valid() && Enabled(View(), REAP(i, gpuFails))
      modifies this`running, scheduler, scheduler.slots, records
      ensures Valid() && Took(old(View()), REAP(i, gpuFails), View())
      ensures i < scheduler.slots.Length
      ensures var gpu, failed := old(scheduler.slots[i]).completion, old(records[i]).value.progress == DRAWN(false);
        && (records[i] == None <==> gpu.None? || gpu.value in ready)
        && (running <==> old(running) && !failed && !(gpuFails && gpu.Some? && gpu.value in ready))
      ensures OthersStay(old(records[..]), records[..], i) && admissionOpen == old(admissionOpen) && nextDraw == old(nextDraw)
    {
      hide EngineInv, Took, Call, Retire, Step, OnFrame;
      ghost var e := View();
      ReapTakesStep(e, i, gpuFails);
      var failed := !records[i].value.progress.ok;
      running := running && !failed;
      var gpu := scheduler.slots[i].completion;
      if gpu.Some? {
        BeginGpuWork(i);
        if gpu.value !in ready {
          return;
        }
        running, failed := running && !gpuFails, failed || gpuFails;
        EndGpuWork(i);
      }
      RetireRecord(i, failed);
    }

    /** Goes over all slots and takes back what has ended. */
    method ReapTerminalFrameRecords(gpuFails: set<nat>) returns (ghost actions: seq<Action>)
      requires Valid()
      modifies this`running, scheduler, scheduler.slots, records
      ensures Valid() && Reaches(old(View()), actions, View())
    {
      hide EngineInv, Step;
      actions := [];
      for i := 0 to records.Length
        invariant Valid() && Reaches(old(View()), actions, View())
      {
        if records[i].Some? && records[i].value.progress.DRAWN? {
          ghost var m := View();
          ReapRecord(i, i in gpuFails);
          OneMoreStep(old(View()), actions, m, REAP(i, i in gpuFails), View());
          actions := actions + [REAP(i, i in gpuFails)];
        }
      }
    }

    /** Begins a frame if admission is open and the slot of the next frame is free. */
    method TryBeginFrame(gpuFails: set<nat>) returns (result: Result<Option<Handle>, EngineError>, ghost actions: seq<Action>)
      requires Valid()
      modifies this`running, this`admissionOpen, scheduler, scheduler.slots, records
      ensures Valid() && Reaches(old(View()), actions, View())
      ensures !old(running) ==> result == Err(NOT_RUNNING) && View() == old(View())
      ensures result.Ok? && result.value.Some? ==> Resolves(View(), result.value.value) && old(admissionOpen) && !admissionOpen
    {
      actions := [];
      if !running {
        return Err(NOT_RUNNING), [];
      }
      actions := ReapTerminalFrameRecords(gpuFails);
      if !running {
        return Err(NOT_RUNNING), actions;
      }
      if !admissionOpen {
        return Ok(None), actions;
      }
      ghost var m := View();
      result := BeginFrame();
      if result.Ok? {
        OneMoreStep(old(View()), actions, m, BEGIN_FRAME, View());
        actions := actions + [BEGIN_FRAME];
      }
    }
  }

  lemma SlotOfNext(e: Engine)
    requires EngineInv(e)
    ensures |e.scheduler.slots| == |e.records| > 0
    ensures TryAcquire(e.scheduler).Ok? && TryAcquire(e.scheduler).value.1.Some? ==>
              TryAcquire(e.scheduler).value.1.value.slot < |e.records|
  {
  }
}

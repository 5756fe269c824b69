// The frame protocol of engine/engine.cpp: main-thread calls and worker callbacks over the frame scheduler.
// Every locked block and every unlocked call into the scheduler is one step.
module EngineFrames {
  import opened Wrappers
  import opened Reordering
  import opened FrameSchedulerSpec

  /** How far the worker tasks of a frame have got. */
  datatype Progress =
    | IDLE
    | UPDATE_QUEUED
    | SIMULATING
    | UPDATED
    | UPDATE_FAILED
    | DRAW_LOST
    | DRAW_QUEUED
    | EXTRACTING
    | PREPARING
    | DRAWN(ok: bool)

  datatype Record = Record(
    frame: Handle,
    hasUpdateTask: bool,
    hasDrawTask: bool,
    drawRequested: bool,
    updateSucceeded: bool,
    progress: Progress)

  /** extracted and abandoned list frames for the record; published lists the keys whose update was published. */
  datatype Engine = Engine(
    scheduler: Scheduler,
    records: seq<Option<Record>>,
    running: bool,
    admissionOpen: bool,
    nextDraw: nat,
    ready: set<nat>,
    extracted: set<nat>,
    abandoned: set<nat>,
    published: seq<Handle>)

  function InitialEngine(owner: nat, n: nat): Engine {
    Engine(Initial(owner, n), seq(n, _ => None), true, true, 0, {}, {}, {}, [])
  }

  datatype Action =
    | BEGIN_FRAME
    | PUBLISH(key: Handle, submitFails: bool)
    | ABORT_FRAME(aborted: Handle)
    | REQUEST_DRAW(drawFails: bool)
    | START_UPDATE(slot: nat)
    | FINISH_UPDATE(slot: nat, succeeded: bool, drawFails: bool)
    | START_DRAW(slot: nat)
    | FINISH_EXTRACTION(slot: nat)
    | REGISTER_GPU(slot: nat, gpu: nat)
    | COMPLETE_DRAW(slot: nat)
    | FAIL_DRAW(slot: nat, latched: bool)
    | SIGNAL_GPU(gpu: nat)
    | REAP(slot: nat, gpuFails: bool)
    | STOP

  predicate HasRecord(e: Engine, i: nat) { i < |e.records| && e.records[i].Some? }

  predicate IsDoing(e: Engine, i: nat, p: set<Progress>) { HasRecord(e, i) && e.records[i].value.progress in p }

  /** The record a key names, while the engine runs. */
  predicate Resolves(e: Engine, key: Handle) {
    e.running && HasRecord(e, key.slot) && e.records[key.slot].value.frame == key
  }

  /** When a step can happen: what the caller must have, and what the worker tasks have reached. */
  predicate Enabled(e: Engine, a: Action) {
    match a
    case BEGIN_FRAME => e.running && e.admissionOpen
    case PUBLISH(_, _) => true
    case ABORT_FRAME(_) => true
    case REQUEST_DRAW(_) => e.running
    case START_UPDATE(i) => IsDoing(e, i, {UPDATE_QUEUED})
    case FINISH_UPDATE(i, ok, _) => IsDoing(e, i, if ok then {SIMULATING} else {SIMULATING, UPDATE_QUEUED})
    case START_DRAW(i) => IsDoing(e, i, {DRAW_QUEUED})
    case FINISH_EXTRACTION(i) => IsDoing(e, i, {EXTRACTING})
    case REGISTER_GPU(i, _) =>
      IsDoing(e, i, {EXTRACTING, PREPARING}) && i < |e.scheduler.slots| && e.scheduler.slots[i].state == FINALIZE
    case COMPLETE_DRAW(i) => IsDoing(e, i, {PREPARING})
    // An extraction or preparation task that fails takes the draw task with it; nothing latches the failure.
    case FAIL_DRAW(i, latched) => IsDoing(e, i, if latched then {DRAW_QUEUED, EXTRACTING, PREPARING} else {EXTRACTING, PREPARING})
    case SIGNAL_GPU(_) => true
    case REAP(i, _) => IsDoing(e, i, {DRAWN(true), DRAWN(false)})
    case STOP => true
  }

  // ------------------------------------------------------------ transitions

  /** A scheduler call on the frame recorded in slot i. */
  function OnFrame(e: Engine, i: nat, op: Op): Result<Engine, FrameError>
    requires HasRecord(e, i)
  {
    match Call(e.scheduler, e.records[i].value.frame, op, e.ready)
    case Ok(t) => Ok(e.(scheduler := t))
    case Err(bad) => Err(bad)
  }

  function SetRecord(e: Engine, i: nat, r: Record): Engine
    requires i < |e.records|
  {
    e.(records := e.records[i := Some(r)])
  }

  function Advance(e: Engine, i: nat, p: Progress): Engine
    requires HasRecord(e, i)
  {
    SetRecord(e, i, e.records[i].value.(progress := p))
  }

  function Begin(e: Engine): Result<Engine, FrameError>
    requires |e.scheduler.slots| > 0
  {
    match TryAcquire(e.scheduler)
    case Err(bad) => Err(bad)
    case Ok((t, None)) => Ok(e)
    case Ok((t, Some(h))) =>
      if h.slot < |e.records| then
        Ok(SetRecord(e, h.slot, Record(h, false, false, false, false, IDLE)).(scheduler := t, admissionOpen := false))
      else Ok(e)
  }

  /** Signals the draw and submits its task. */
  function ScheduleDraw(e: Engine, i: nat, fails: bool): Result<Engine, FrameError>
    requires HasRecord(e, i)
  {
    match OnFrame(e, i, SIGNAL_DRAW)
    case Err(bad) => Err(bad)
    case Ok(t) =>
      if fails then Ok(Advance(t, i, DRAW_LOST).(running := false))
      else Ok(SetRecord(t, i, t.records[i].value.(hasDrawTask := true, progress := DRAW_QUEUED)))
  }

  /** Publishes the update of a reserved frame, once; a stale or published key is refused. */
  function Publish(e: Engine, key: Handle, fails: bool): Result<Engine, FrameError> {
    if !Resolves(e, key) || e.records[key.slot].value.hasUpdateTask then Ok(e)
    else
      match OnFrame(e, key.slot, ARM)
      case Err(bad) => Err(bad)
      case Ok(t) =>
        if fails then
          match OnFrame(t, key.slot, ABORT)
          case Err(bad) => Err(bad)
          case Ok(u) =>
            Ok(u.(records := u.records[key.slot := None], running := false, abandoned := u.abandoned + {key.frame}))
        else
          Ok(SetRecord(t, key.slot, t.records[key.slot].value.(hasUpdateTask := true, progress := UPDATE_QUEUED)).(
             published := t.published + [key]))
  }

  function Abort(e: Engine, key: Handle): Result<Engine, FrameError> {
    if !Resolves(e, key) || e.records[key.slot].value.hasUpdateTask then Ok(e)
    else
      match OnFrame(e, key.slot, ABORT)
      case Err(bad) => Err(bad)
      case Ok(t) =>
        Ok(t.(records := t.records[key.slot := None], nextDraw := key.frame + 1, admissionOpen := true,
              abandoned := t.abandoned + {key.frame}))
  }

  /** Asks for the draw of the next frame; out of turn the request is refused and changes nothing. */
  function RequestDraw(e: Engine, fails: bool): Result<Engine, FrameError>
    requires |e.records| > 0
  {
    var i := e.nextDraw % |e.records|;
    if !HasRecord(e, i) then Ok(e)
    else
      var r := e.records[i].value;
      if !r.hasUpdateTask || r.frame.frame != e.nextDraw || r.drawRequested then Ok(e)
      else
        var asked := SetRecord(e, i, r.(drawRequested := true));
        if !r.updateSucceeded then Ok(asked.(nextDraw := e.nextDraw + 1))
        else
          match ScheduleDraw(asked, i, fails)
          case Err(bad) => Err(bad)
          case Ok(t) => Ok(if fails then t else t.(nextDraw := t.nextDraw + 1))
  }

  function FinishUpdate(e: Engine, i: nat, ok: bool, fails: bool): Result<Engine, FrameError>
    requires HasRecord(e, i)
  {
    if !ok then Ok(Advance(e, i, UPDATE_FAILED).(running := false))
    else
      match OnFrame(e, i, END_UPDATE)
      case Err(bad) => Err(bad)
      case Ok(t) =>
        var r := t.records[i].value.(updateSucceeded := true, progress := UPDATED);
        if r.drawRequested then ScheduleDraw(SetRecord(t, i, r), i, fails) else Ok(SetRecord(t, i, r))
  }

  /** A call on the scheduler followed by progress of the frame's tasks. */
  function CallThen(e: Engine, i: nat, op: Op, p: Progress): Result<Engine, FrameError>
    requires HasRecord(e, i)
  {
    match OnFrame(e, i, op)
    case Err(bad) => Err(bad)
    case Ok(t) => Ok(Advance(t, i, p))
  }

  /** Takes back a frame whose draw task has ended, unless the GPU still has it. */
  function Reap(e: Engine, i: nat, gpuFails: bool): Result<Engine, FrameError>
    requires HasRecord(e, i) && e.records[i].value.progress.DRAWN? && i < |e.scheduler.slots|
  {
    var failed := !e.records[i].value.progress.ok;
    var stopped := if failed then e.(running := false) else e;
    var gpu := e.scheduler.slots[i].completion;
    if gpu.None? then Retire(stopped, i, failed)
    else
      match if e.scheduler.slots[i].state == SUBMITTED then OnFrame(stopped, i, BEGIN_GPU) else Ok(stopped)
      case Err(bad) => Err(bad)
      case Ok(t) =>
        if gpu.value !in e.ready then Ok(t)
        else
          var u := if gpuFails then t.(running := false) else t;
          match OnFrame(u, i, FINISH_GPU)
          case Err(bad) => Err(bad)
          case Ok(v) => Retire(v, i, failed || gpuFails)
  }

  function Retire(e: Engine, i: nat, failed: bool): Result<Engine, FrameError>
    requires HasRecord(e, i)
  {
    match OnFrame(e, i, if failed then ABORT else RECYCLE)
    case Err(bad) => Err(bad)
    case Ok(t) => Ok(t.(records := t.records[i := None]))
  }

  /** One step; an error is a scheduler call that was rejected. */
  function Step(e: Engine, a: Action): Result<Engine, FrameError>
    requires Enabled(e, a) && |e.records| == |e.scheduler.slots| > 0
  {
    match a
    case BEGIN_FRAME => Begin(e)
    case PUBLISH(key, fails) => Publish(e, key, fails)
    case ABORT_FRAME(key) => Abort(e, key)
    case REQUEST_DRAW(fails) => RequestDraw(e, fails)
    case START_UPDATE(i) => CallThen(e, i, BEGIN_UPDATE, SIMULATING)
    case FINISH_UPDATE(i, ok, fails) => FinishUpdate(e, i, ok, fails)
    case START_DRAW(i) => CallThen(e, i, BEGIN_FINALIZE, EXTRACTING)
    case FINISH_EXTRACTION(i) =>
      Ok(Advance(e, i, PREPARING).(admissionOpen := true, extracted := e.extracted + {e.records[i].value.frame.frame}))
    case REGISTER_GPU(i, gpu) => OnFrame(e, i, SUBMIT(gpu))
    case COMPLETE_DRAW(i) =>
      if e.scheduler.slots[i].completion.None? then CallThen(e, i, FINISH, DRAWN(true)) else Ok(Advance(e, i, DRAWN(true)))
    case FAIL_DRAW(i, latched) => Ok(Advance(e, i, DRAWN(false)).(running := e.running && !latched))
    case SIGNAL_GPU(gpu) => Ok(e.(ready := e.ready + {gpu}))
    case REAP(i, gpuFails) => Reap(e, i, gpuFails)
    case STOP => Ok(e.(running := false))
  }

  // -------------------------------------------------------------- invariant

  /** The state of the slot and the flags of the record say how far the frame's tasks have got. */
  predicate Matches(r: Record, slot: Slot, running: bool) {
    match r.progress
    case IDLE =>
      slot.state == ACQUIRED && !slot.drawSignal.isSet &&
      !r.hasUpdateTask && !r.hasDrawTask && !r.drawRequested && !r.updateSucceeded
    case UPDATE_QUEUED =>
      slot.state == WAITING_UPDATE && !slot.drawSignal.isSet && r.hasUpdateTask && !r.hasDrawTask && !r.updateSucceeded
    case SIMULATING =>
      slot.state == UPDATING && !slot.drawSignal.isSet && r.hasUpdateTask && !r.hasDrawTask && !r.updateSucceeded
    case UPDATE_FAILED =>
      slot.state in {WAITING_UPDATE, UPDATING} && r.hasUpdateTask && !r.hasDrawTask && !r.updateSucceeded && !running
    case UPDATED =>
      slot.state == WAITING_DRAW && !slot.drawSignal.isSet &&
      r.hasUpdateTask && !r.hasDrawTask && !r.drawRequested && r.updateSucceeded
    case DRAW_LOST =>
      slot.state == WAITING_DRAW && slot.drawSignal.isSet && r.hasUpdateTask && !r.hasDrawTask && r.drawRequested && !running
    case DRAW_QUEUED =>
      slot.state == WAITING_DRAW && slot.drawSignal.isSet && r.hasUpdateTask && r.hasDrawTask && r.drawRequested
    case EXTRACTING =>
      slot.state in {FINALIZE, SUBMITTED} && r.hasUpdateTask && r.hasDrawTask && r.drawRequested
    case PREPARING =>
      slot.state in {FINALIZE, SUBMITTED} && r.hasUpdateTask && r.hasDrawTask && r.drawRequested
    case DRAWN(ok) =>
      && r.hasUpdateTask && r.hasDrawTask && r.drawRequested
      && (slot.state in {SUBMITTED, GPU_IN_FLIGHT} ||
          (slot.completion.None? && if ok then slot.state == COMPLETE else slot.state in {WAITING_DRAW, FINALIZE}))
  }

  /** The extraction of the frame has not returned yet and still can. */
  predicate BeforeExtraction(p: Progress) {
    p in {IDLE, UPDATE_QUEUED, SIMULATING, UPDATED, DRAW_QUEUED, EXTRACTING}
  }

  predicate RecordInv(e: Engine, i: nat)
    requires i < |e.records| == |e.scheduler.slots|
  {
    match e.records[i]
    case None => !IsActive(e.scheduler.slots[i])
    case Some(r) =>
      && r.frame.slot == i
      && Check(e.scheduler, r.frame) == None
      && IsActive(e.scheduler.slots[i])
      && Matches(r, e.scheduler.slots[i], e.running)
      && (BeforeExtraction(r.progress) ==> r.frame.frame + 1 == e.scheduler.nextFrame && !e.admissionOpen)
  }

  /** Every frame but the last, and the last too once admission is open, was extracted or given up unpublished. */
  ghost predicate Settled(e: Engine) {
    && (forall k: nat :: k < e.scheduler.nextFrame ==>
          k in e.extracted || k in e.abandoned || (k + 1 == e.scheduler.nextFrame && !e.admissionOpen))
    && (e.admissionOpen ==> e.scheduler.checkpoint == UPDATE)
  }

  ghost predicate PublishedOnce(e: Engine) {
    && (forall i, j :: 0 <= i < j < |e.published| ==> e.published[i].frame != e.published[j].frame)
    && (forall h :: h in e.published ==> h.frame < e.scheduler.nextFrame)
    && (forall h, i: nat :: h in e.published && HasRecord(e, i) && !e.records[i].value.hasUpdateTask ==>
          e.records[i].value.frame.frame != h.frame)
  }

  ghost predicate EngineInv(e: Engine) {
    && SchedulerInv(e.scheduler, e.ready)
    && |e.records| == |e.scheduler.slots|
    && (forall i: nat :: i < |e.records| ==> RecordInv(e, i))
    && Settled(e)
    && PublishedOnce(e)
  }

  lemma InitialEngineInv(owner: nat, n: nat)
    requires owner != 0 && n > 0
    ensures EngineInv(InitialEngine(owner, n))
  {
    InitialSchedulerInv(owner, n);
  }

  // ------------------------------------------------------------ preservation

  /** A step that concerns one slot. */
  ghost predicate TouchesOnly(e: Engine, t: Engine, i: nat) {
    && i < |e.records| == |t.records| == |e.scheduler.slots| == |t.scheduler.slots|
    && t.scheduler.owner == e.scheduler.owner
    && t.scheduler.nextFrame == e.scheduler.nextFrame
    && (forall j: nat :: j < |e.records| && j != i ==>
          t.records[j] == e.records[j] && t.scheduler.slots[j] == e.scheduler.slots[j])
    && t.ready == e.ready
    && (t.running ==> e.running)
    && (e.scheduler.checkpoint == UPDATE ==> t.scheduler.checkpoint == UPDATE)
  }

  /** The frame in slot i is the last acquired and not yet extracted. */
  predicate InAdmission(e: Engine, i: nat) {
    HasRecord(e, i) && BeforeExtraction(e.records[i].value.progress)
  }

  lemma OthersKept(e: Engine, t: Engine, i: nat, j: nat)
    requires EngineInv(e) && TouchesOnly(e, t, i) && j < |e.records| && j != i
    requires t.admissionOpen ==> e.admissionOpen || InAdmission(e, i)
    ensures RecordInv(t, j)
  {
    assert RecordInv(e, i) && RecordInv(e, j);
    if InAdmission(e, i) && InAdmission(e, j) {
      OneFramePerSlot(e.scheduler, e.ready, i, j);
    }
    hide SchedulerInv, SlotInv, Settled, PublishedOnce;
  }

  /** A step on one slot that leaves admission and the logs alone. */
  lemma PlainStep(e: Engine, t: Engine, i: nat)
    requires EngineInv(e) && TouchesOnly(e, t, i) && HasRecord(e, i)
    requires SchedulerInv(t.scheduler, t.ready) && RecordInv(t, i)
    requires t.admissionOpen == e.admissionOpen && t.extracted == e.extracted && t.abandoned == e.abandoned
    requires t.published == e.published
    requires t.records[i].Some? ==> t.records[i].value.frame == e.records[i].value.frame
    requires t.records[i].Some? && !t.records[i].value.hasUpdateTask ==> !e.records[i].value.hasUpdateTask
    ensures EngineInv(t)
  {
    hide RecordInv, SchedulerInv;
    forall j: nat | j < |t.records|
      ensures RecordInv(t, j)
    {
      if j != i {
        OthersKept(e, t, i, j);
      }
    }
    PlainLogs(e, t, i);
  }

  lemma PlainLogs(e: Engine, t: Engine, i: nat)
    requires Settled(e) && PublishedOnce(e) && TouchesOnly(e, t, i) && HasRecord(e, i)
    requires t.admissionOpen == e.admissionOpen && t.extracted == e.extracted && t.abandoned == e.abandoned
    requires t.published == e.published
    requires t.records[i].Some? ==> t.records[i].value.frame == e.records[i].value.frame
    requires t.records[i].Some? && !t.records[i].value.hasUpdateTask ==> !e.records[i].value.hasUpdateTask
    ensures Settled(t) && PublishedOnce(t)
  {
    forall h, j: nat | h in t.published && HasRecord(t, j) && !t.records[j].value.hasUpdateTask
      ensures t.records[j].value.frame.frame != h.frame
    {
      assert HasRecord(e, j) && !e.records[j].value.hasUpdateTask;
      assert t.records[j].value.frame == e.records[j].value.frame;
    }
  }

  lemma RecordFacts(e: Engine, i: nat)
    requires EngineInv(e) && HasRecord(e, i)
    ensures i < |e.scheduler.slots| && RecordInv(e, i) && SlotInv(e.scheduler, i, e.ready)
    ensures Check(e.scheduler, e.records[i].value.frame) == None && e.records[i].value.frame.slot == i
    ensures !e.scheduler.slots[i].drawSignal.isSet ==> e.scheduler.checkpoint == DRAW
  {
    hide SlotInv;
    assert RecordInv(e, i);
    assert SlotInv(e.scheduler, i, e.ready);
    UnsignalledMeansPending(e.scheduler, e.ready, i);
  }

  lemma UnsignalledMeansPending(s: Scheduler, ready: set<nat>, i: nat)
    requires SchedulerInv(s, ready) && i < |s.slots| && IsActive(s.slots[i])
    ensures !s.slots[i].drawSignal.isSet ==> s.checkpoint == DRAW
  {
    assert SlotInv(s, i, ready);
  }

  lemma StartUpdateSteps(e: Engine, i: nat)
    requires EngineInv(e) && Enabled(e, START_UPDATE(i))
    ensures Step(e, START_UPDATE(i)).Ok? && EngineInv(Step(e, START_UPDATE(i)).value)
  {
    RecordFacts(e, i);
    hide SchedulerInv, Settled, PublishedOnce, EngineInv, SlotInv;
    CallStep(e, i, BEGIN_UPDATE);
    FinishPlain(e, i, Step(e, START_UPDATE(i)).value);
  }

  lemma CallStep(e: Engine, i: nat, op: Op)
    requires EngineInv(e) && HasRecord(e, i) && OnFrame(e, i, op).Ok?
    ensures var t := OnFrame(e, i, op).value;
            TouchesOnly(e, t, i) && SchedulerInv(t.scheduler, t.ready) && t.records == e.records
  {
    RecordFacts(e, i);
    CallKeepsInv(e.scheduler, e.records[i].value.frame, op, e.ready);
  }

  lemma FinishPlain(e: Engine, i: nat, t: Engine)
    requires EngineInv(e) && TouchesOnly(e, t, i) && HasRecord(e, i)
    requires SchedulerInv(t.scheduler, t.ready) && RecordInv(t, i)
    requires t.admissionOpen == e.admissionOpen && t.extracted == e.extracted && t.abandoned == e.abandoned
    requires t.published == e.published
    requires t.records[i].Some? ==> t.records[i].value.frame == e.records[i].value.frame
    requires t.records[i].Some? && !t.records[i].value.hasUpdateTask ==> !e.records[i].value.hasUpdateTask
    ensures EngineInv(t)
  {
    PlainStep(e, t, i);
  }

  lemma StartDrawSteps(e: Engine, i: nat)
    requires EngineInv(e) && Enabled(e, START_DRAW(i))
    ensures Step(e, START_DRAW(i)).Ok? && EngineInv(Step(e, START_DRAW(i)).value)
  {
    hide SchedulerInv, Settled, PublishedOnce, EngineInv, Reap;
    RecordFacts(e, i);
    CallStep(e, i, BEGIN_FINALIZE);
    PlainStep(e, Step(e, START_DRAW(i)).value, i);
  }

  lemma RegisterSteps(e: Engine, i: nat, gpu: nat)
    requires EngineInv(e) && Enabled(e, REGISTER_GPU(i, gpu))
    ensures Step(e, REGISTER_GPU(i, gpu)).Ok? && EngineInv(Step(e, REGISTER_GPU(i, gpu)).value)
  {
    RecordFacts(e, i);
    hide SchedulerInv, Settled, PublishedOnce, EngineInv;
    CallStep(e, i, SUBMIT(gpu));
    PlainStep(e, Step(e, REGISTER_GPU(i, gpu)).value, i);
  }

  lemma CompleteDrawSteps(e: Engine, i: nat)
    requires EngineInv(e) && Enabled(e, COMPLETE_DRAW(i))
    ensures Step(e, COMPLETE_DRAW(i)).Ok? && EngineInv(Step(e, COMPLETE_DRAW(i)).value)
  {
    RecordFacts(e, i);
    if e.scheduler.slots[i].completion.None? {
      FinishSteps(e, i);
    } else {
      hide SchedulerInv, Settled, PublishedOnce, EngineInv;
      InvOf(e);
      PlainStep(e, Step(e, COMPLETE_DRAW(i)).value, i);
    }
  }

  lemma FinishSteps(e: Engine, i: nat)
    requires EngineInv(e) && IsDoing(e, i, {PREPARING}) && i < |e.scheduler.slots|
    requires e.scheduler.slots[i].completion.None?
    ensures CallThen(e, i, FINISH, DRAWN(true)).Ok? && EngineInv(CallThen(e, i, FINISH, DRAWN(true)).value)
  {
    hide SchedulerInv, Settled, PublishedOnce, EngineInv;
    RecordFacts(e, i);
    CallStep(e, i, FINISH);
    PlainStep(e, CallThen(e, i, FINISH, DRAWN(true)).value, i);
  }

  lemma InvOf(e: Engine)
    requires EngineInv(e)
    ensures SchedulerInv(e.scheduler, e.ready) && |e.records| == |e.scheduler.slots| > 0
  {
  }

  lemma FailDrawSteps(e: Engine, i: nat, latched: bool)
    requires EngineInv(e) && Enabled(e, FAIL_DRAW(i, latched))
    ensures Step(e, FAIL_DRAW(i, latched)).Ok? && EngineInv(Step(e, FAIL_DRAW(i, latched)).value)
  {
    hide SchedulerInv, Settled, PublishedOnce, EngineInv;
    RecordFacts(e, i);
    InvOf(e);
    PlainStep(e, Step(e, FAIL_DRAW(i, latched)).value, i);
  }

  /** Signalling the draw of an updated frame is never out of order. */
  lemma ScheduleDrawSteps(e: Engine, t: Engine, i: nat, fails: bool)
    requires EngineInv(e) && HasRecord(e, i) && TouchesOnly(e, t, i) && HasRecord(t, i)
    requires SchedulerInv(t.scheduler, t.ready)
    requires t.admissionOpen == e.admissionOpen && t.extracted == e.extracted && t.abandoned == e.abandoned
    requires t.published == e.published
    requires var r := t.records[i].value;
             && r.frame == e.records[i].value.frame && r.frame.slot == i && Check(t.scheduler, r.frame) == None
             && t.scheduler.slots[i].state == WAITING_DRAW && !t.scheduler.slots[i].drawSignal.isSet
             && r.hasUpdateTask && !r.hasDrawTask && r.drawRequested && r.updateSucceeded
             && r.frame.frame + 1 == t.scheduler.nextFrame && !t.admissionOpen
    ensures ScheduleDraw(t, i, fails).Ok? && EngineInv(ScheduleDraw(t, i, fails).value)
  {
    hide Settled, EngineInv, DrawPending;
    assert SlotInv(t.scheduler, i, t.ready);
    UnsignalledMeansPending(t.scheduler, t.ready, i);
    assert OnFrame(t, i, SIGNAL_DRAW).Ok?;
    CallKeepsInv(t.scheduler, t.records[i].value.frame, SIGNAL_DRAW, t.ready);
    PlainStep(e, ScheduleDraw(t, i, fails).value, i);
  }

  lemma FinishUpdateSteps(e: Engine, i: nat, ok: bool, fails: bool)
    requires EngineInv(e) && Enabled(e, FINISH_UPDATE(i, ok, fails))
    ensures Step(e, FINISH_UPDATE(i, ok, fails)).Ok? && EngineInv(Step(e, FINISH_UPDATE(i, ok, fails)).value)
  {
    hide SchedulerInv, Settled, PublishedOnce, EngineInv, SlotInv, ScheduleDraw;
    RecordFacts(e, i);
    InvOf(e);
    if ok {
      CallStep(e, i, END_UPDATE);
      var t := OnFrame(e, i, END_UPDATE).value;
      var r := t.records[i].value.(updateSucceeded := true, progress := UPDATED);
      if r.drawRequested {
        ScheduleDrawSteps(e, SetRecord(t, i, r), i, fails);
      } else {
        PlainStep(e, SetRecord(t, i, r), i);
      }
    } else {
      PlainStep(e, Step(e, FINISH_UPDATE(i, ok, fails)).value, i);
    }
  }

  lemma RequestDrawSteps(e: Engine, fails: bool)
    requires EngineInv(e) && |e.records| > 0
    ensures RequestDraw(e, fails).Ok? && EngineInv(RequestDraw(e, fails).value)
  {
    hide SchedulerInv, Settled, PublishedOnce, EngineInv, SlotInv, ScheduleDraw;
    var i := e.nextDraw % |e.records|;
    if HasRecord(e, i) {
      var r := e.records[i].value;
      RecordFacts(e, i);
      InvOf(e);
      if r.hasUpdateTask && r.frame.frame == e.nextDraw && !r.drawRequested {
        var asked := SetRecord(e, i, r.(drawRequested := true));
        if r.updateSucceeded {
          ScheduleDrawSteps(e, asked, i, fails);
          NextDrawIsFree(ScheduleDraw(asked, i, fails).value, e.nextDraw + 1);
          ScheduleKeepsNextDraw(asked, i, fails);
        } else {
          PlainStep(e, asked.(nextDraw := e.nextDraw + 1), i);
        }
      }
    }
  }

  lemma ScheduleKeepsNextDraw(e: Engine, i: nat, fails: bool)
    requires HasRecord(e, i) && ScheduleDraw(e, i, fails).Ok?
    ensures ScheduleDraw(e, i, fails).value.nextDraw == e.nextDraw
  {
  }

  lemma NextDrawIsFree(e: Engine, n: nat)
    requires EngineInv(e)
    ensures EngineInv(e.(nextDraw := n))
  {
    var t := e.(nextDraw := n);
    hide SchedulerInv;
    assert forall i: nat :: i < |e.records| ==> RecordInv(e, i) ==> RecordInv(t, i);
    assert forall i: nat :: HasRecord(t, i) <==> HasRecord(e, i);
  }

  // ----------------------------------------------- steps that open admission

  /** When the last frame is extracted or given up, admission opens and every frame is settled. */
  lemma OpeningStep(e: Engine, t: Engine, i: nat)
    requires EngineInv(e) && TouchesOnly(e, t, i) && InAdmission(e, i)
    requires SchedulerInv(t.scheduler, t.ready) && RecordInv(t, i)
    requires t.scheduler.checkpoint == UPDATE && t.published == e.published
    requires var k := e.records[i].value.frame.frame;
             && e.extracted <= t.extracted && e.abandoned <= t.abandoned
             && (k in t.extracted || k in t.abandoned)
    requires t.records[i].Some? ==> t.records[i].value.frame == e.records[i].value.frame
    requires t.records[i].Some? && !t.records[i].value.hasUpdateTask ==> !e.records[i].value.hasUpdateTask
    ensures EngineInv(t)
  {
    hide SchedulerInv;
    RecordFacts(e, i);
    forall j: nat | j < |t.records|
      ensures RecordInv(t, j)
    {
      if j != i {
        OthersKept(e, t, i, j);
      }
    }
    hide RecordInv;
    assert PublishedOnce(t) by { OpeningLogs(e, t, i); }
    assert Settled(t);
  }

  lemma OpeningLogs(e: Engine, t: Engine, i: nat)
    requires PublishedOnce(e) && TouchesOnly(e, t, i) && HasRecord(e, i)
    requires t.published == e.published
    requires t.records[i].Some? ==> t.records[i].value.frame == e.records[i].value.frame
    requires t.records[i].Some? && !t.records[i].value.hasUpdateTask ==> !e.records[i].value.hasUpdateTask
    ensures PublishedOnce(t)
  {
    forall h, j: nat | h in t.published && HasRecord(t, j) && !t.records[j].value.hasUpdateTask
      ensures t.records[j].value.frame.frame != h.frame
    {
      assert HasRecord(e, j) && !e.records[j].value.hasUpdateTask;
      assert t.records[j].value.frame == e.records[j].value.frame;
    }
  }

  /** While the last frame is signalled, no draw is pending. */
  lemma SignalledLastFrame(s: Scheduler, ready: set<nat>, i: nat)
    requires SchedulerInv(s, ready) && i < |s.slots| && IsActive(s.slots[i])
    requires s.slots[i].frame + 1 == s.nextFrame && s.slots[i].drawSignal.isSet
    ensures s.checkpoint == UPDATE
  {
    assert SlotInv(s, i, ready);
  }

  lemma FinishExtractionSteps(e: Engine, i: nat)
    requires EngineInv(e) && Enabled(e, FINISH_EXTRACTION(i))
    ensures Step(e, FINISH_EXTRACTION(i)).Ok? && EngineInv(Step(e, FINISH_EXTRACTION(i)).value)
  {
    RecordFacts(e, i);
    InvOf(e);
    SignalledLastFrame(e.scheduler, e.ready, i);
    hide SchedulerInv, Settled, PublishedOnce, EngineInv, SlotInv;
    OpeningStep(e, Step(e, FINISH_EXTRACTION(i)).value, i);
  }

  lemma AbortSteps(e: Engine, key: Handle)
    requires EngineInv(e)
    ensures Abort(e, key).Ok? && EngineInv(Abort(e, key).value)
  {
    if Resolves(e, key) && !e.records[key.slot].value.hasUpdateTask {
      RecordFacts(e, key.slot);
      hide SchedulerInv, Settled, PublishedOnce, EngineInv;
      CallStep(e, key.slot, ABORT);
      var t := Abort(e, key).value;
      OpeningStep(e, t, key.slot);
    }
  }

  // ------------------------------------------------- reserving and publishing

  lemma PublishSteps(e: Engine, key: Handle, fails: bool)
    requires EngineInv(e)
    ensures Publish(e, key, fails).Ok? && EngineInv(Publish(e, key, fails).value)
  {
    if Resolves(e, key) && !e.records[key.slot].value.hasUpdateTask {
      var i := key.slot;
      RecordFacts(e, i);
      hide SchedulerInv, EngineInv;
      CallStep(e, i, ARM);
      var t := OnFrame(e, i, ARM).value;
      if fails {
        CallKeepsInv(t.scheduler, key, ABORT, t.ready);
        PublishFailed(e, Publish(e, key, true).value, key);
      } else {
        hide SlotInv;
        Published(e, Publish(e, key, false).value, key);
      }
    }
  }

  lemma PublishFailed(e: Engine, t: Engine, key: Handle)
    requires EngineInv(e) && HasRecord(e, key.slot) && TouchesOnly(e, t, key.slot)
    requires SchedulerInv(t.scheduler, t.ready) && RecordInv(t, key.slot) && t.records[key.slot].None?
    requires t.admissionOpen == e.admissionOpen && t.extracted == e.extracted && e.abandoned <= t.abandoned
    requires t.published == e.published
    ensures EngineInv(t)
  {
    hide SchedulerInv, RecordInv;
    forall j: nat | j < |t.records|
      ensures RecordInv(t, j)
    {
      if j != key.slot {
        OthersKept(e, t, key.slot, j);
      }
    }
    OpeningLogs(e, t, key.slot);
  }

  lemma Published(e: Engine, t: Engine, key: Handle)
    requires EngineInv(e) && Resolves(e, key) && !e.records[key.slot].value.hasUpdateTask
    requires TouchesOnly(e, t, key.slot) && SchedulerInv(t.scheduler, t.ready) && RecordInv(t, key.slot)
    requires t.admissionOpen == e.admissionOpen && t.extracted == e.extracted && t.abandoned == e.abandoned
    requires t.published == e.published + [key]
    requires t.records[key.slot].Some? && t.records[key.slot].value.hasUpdateTask
    ensures EngineInv(t)
  {
    RecordFacts(e, key.slot);
    OnlyOneReserved(e, key);
    hide SchedulerInv, SlotInv;
    forall j: nat | j < |t.records|
      ensures RecordInv(t, j)
    {
      if j != key.slot {
        OthersKept(e, t, key.slot, j);
      }
    }
    hide RecordInv;
    assert forall h :: h in t.published ==> h in e.published || h == key;
    forall h, j: nat | h in t.published && HasRecord(t, j) && !t.records[j].value.hasUpdateTask
      ensures t.records[j].value.frame.frame != h.frame
    {
      assert j != key.slot && HasRecord(e, j);
    }
    assert forall i :: 0 <= i < |e.published| ==> e.published[i] in e.published;
  }

  lemma OnlyOneReserved(e: Engine, key: Handle)
    requires EngineInv(e) && Resolves(e, key)
    ensures key.frame < e.scheduler.nextFrame
    ensures forall j: nat :: HasRecord(e, j) && j != key.slot ==> e.records[j].value.frame.frame != key.frame
  {
    RecordFacts(e, key.slot);
    forall j: nat | HasRecord(e, j) && j != key.slot
      ensures e.records[j].value.frame.frame != key.frame
    {
      RecordFacts(e, j);
      hide SlotInv;
      if e.records[j].value.frame.frame == key.frame {
        OneFramePerSlot(e.scheduler, e.ready, j, key.slot);
      }
    }
  }

  /** Beginning a frame is never refused as out of order; the new frame is the last and closes admission. */
  lemma BeginSteps(e: Engine)
    requires EngineInv(e) && Enabled(e, BEGIN_FRAME)
    ensures |e.scheduler.slots| > 0
    ensures Begin(e).Err? ==> Begin(e).error == EXHAUSTED
    ensures Begin(e).Ok? ==> EngineInv(Begin(e).value)
  {
    InvOf(e);
    AcquireKeepsInv(e.scheduler, e.ready);
    if TryAcquire(e.scheduler).Ok? && TryAcquire(e.scheduler).value.1.Some? {
      BeganFrame(e);
    }
  }

  lemma BeganFrame(e: Engine)
    requires EngineInv(e) && e.admissionOpen && |e.scheduler.slots| > 0
    requires TryAcquire(e.scheduler).Ok? && TryAcquire(e.scheduler).value.1.Some?
    ensures Begin(e).Ok? && EngineInv(Begin(e).value)
  {
    AcquireKeepsInv(e.scheduler, e.ready);
    var h := TryAcquire(e.scheduler).value.1.value;
    var t := Begin(e).value;
    assert RecordInv(e, h.slot);
    forall j: nat | j < |t.records|
      ensures RecordInv(t, j)
    {
      if j != h.slot {
        assert RecordInv(e, j) && SlotInv(e.scheduler, j, e.ready);
      }
    }
    BeganLogs(e, t, h);
  }

  lemma BeganLogs(e: Engine, t: Engine, h: Handle)
    requires Settled(e) && PublishedOnce(e) && e.admissionOpen
    requires h.slot < |e.records| == |t.records| && h.frame == e.scheduler.nextFrame
    requires t.records == e.records[h.slot := Some(Record(h, false, false, false, false, IDLE))]
    requires t.scheduler.nextFrame == e.scheduler.nextFrame + 1 && !t.admissionOpen
    requires t.extracted == e.extracted && t.abandoned == e.abandoned && t.published == e.published
    ensures Settled(t) && PublishedOnce(t)
  {
    forall x, j: nat | x in t.published && HasRecord(t, j) && !t.records[j].value.hasUpdateTask
      ensures t.records[j].value.frame.frame != x.frame
    {
      if j != h.slot {
        assert HasRecord(e, j);
      }
    }
  }

  // ----------------------------------------------------------------- reaping

  lemma RetireSteps(e: Engine, u: Engine, i: nat, failed: bool)
    requires EngineInv(e) && HasRecord(e, i) && TouchesOnly(e, u, i) && SchedulerInv(u.scheduler, u.ready)
    requires u.records == e.records && u.admissionOpen == e.admissionOpen && u.published == e.published
    requires u.extracted == e.extracted && u.abandoned == e.abandoned
    requires Check(u.scheduler, u.records[i].value.frame) == None && u.records[i].value.frame.slot == i
    requires if failed then u.scheduler.slots[i].state in {WAITING_DRAW, FINALIZE, COMPLETE}
             else u.scheduler.slots[i].state == COMPLETE
    ensures Retire(u, i, failed).Ok? && EngineInv(Retire(u, i, failed).value)
  {
    var op := if failed then ABORT else RECYCLE;
    assert OnFrame(u, i, op).Ok?;
    CallKeepsInv(u.scheduler, u.records[i].value.frame, op, u.ready);
    hide SchedulerInv, Settled, PublishedOnce, EngineInv, SlotInv;
    PlainStep(e, Retire(u, i, failed).value, i);
  }

  lemma ReapSteps(e: Engine, i: nat, gpuFails: bool)
    requires EngineInv(e) && Enabled(e, REAP(i, gpuFails))
    ensures i < |e.scheduler.slots| && Reap(e, i, gpuFails).Ok? && EngineInv(Reap(e, i, gpuFails).value)
  {
    hide PublishedOnce, Retire, OnFrame;
    RecordFacts(e, i);
    InvOf(e);
    var failed := !e.records[i].value.progress.ok;
    var stopped := if failed then e.(running := false) else e;
    var gpu := e.scheduler.slots[i].completion;
    if gpu.None? {
      RetireSteps(e, stopped, i, failed);
    } else {
      var t := if e.scheduler.slots[i].state == SUBMITTED then OnFrame(stopped, i, BEGIN_GPU) else Ok(stopped);
      GpuTakesOver(e, stopped, i);
      ReapGpu(e, t.value, i, failed, gpuFails);
    }
  }

  lemma GpuTakesOver(e: Engine, stopped: Engine, i: nat)
    requires EngineInv(e) && HasRecord(e, i) && e.records[i].value.progress.DRAWN? && i < |e.scheduler.slots|
    requires e.scheduler.slots[i].completion.Some?
    requires stopped == e || stopped == e.(running := false)
    ensures var t := if e.scheduler.slots[i].state == SUBMITTED then OnFrame(stopped, i, BEGIN_GPU) else Ok(stopped);
            && t.Ok? && t.value.scheduler.slots[i] == e.scheduler.slots[i].(state := GPU_IN_FLIGHT)
            && TouchesOnly(e, t.value, i) && SchedulerInv(t.value.scheduler, t.value.ready) && RecordInv(t.value, i)
            && t.value == stopped.(scheduler := t.value.scheduler)
  {
    RecordFacts(e, i);
    InvOf(e);
    if e.scheduler.slots[i].state == SUBMITTED {
      CallKeepsInv(e.scheduler, e.records[i].value.frame, BEGIN_GPU, e.ready);
    }
    hide SchedulerInv, Settled, PublishedOnce, EngineInv;
  }

  lemma ReapGpu(e: Engine, t: Engine, i: nat, failed: bool, gpuFails: bool)
    requires EngineInv(e) && HasRecord(e, i) && TouchesOnly(e, t, i) && SchedulerInv(t.scheduler, t.ready)
    requires t.records == e.records && t.admissionOpen == e.admissionOpen && t.published == e.published
    requires t.extracted == e.extracted && t.abandoned == e.abandoned && RecordInv(t, i)
    requires var slot := t.scheduler.slots[i]; slot.state == GPU_IN_FLIGHT && slot.completion.Some?
    ensures t.scheduler.slots[i].completion.value !in t.ready ==> EngineInv(t)
    ensures t.scheduler.slots[i].completion.value in t.ready ==>
              var u := if gpuFails then t.(running := false) else t;
              && OnFrame(u, i, FINISH_GPU).Ok?
              && Retire(OnFrame(u, i, FINISH_GPU).value, i, failed || gpuFails).Ok?
              && EngineInv(Retire(OnFrame(u, i, FINISH_GPU).value, i, failed || gpuFails).value)
  {
    if t.scheduler.slots[i].completion.value !in t.ready {
      hide SchedulerInv, Settled, PublishedOnce, EngineInv;
      PlainStep(e, t, i);
    } else {
      var u := if gpuFails then t.(running := false) else t;
      CallKeepsInv(u.scheduler, u.records[i].value.frame, FINISH_GPU, u.ready);
      hide SchedulerInv, Settled, PublishedOnce, EngineInv, Retire;
      RetireSteps(e, OnFrame(u, i, FINISH_GPU).value, i, failed || gpuFails);
    }
  }

  lemma GpuReadySteps(e: Engine, gpu: nat)
    requires EngineInv(e)
    ensures EngineInv(e.(ready := e.ready + {gpu}))
  {
    var t := e.(ready := e.ready + {gpu});
    ReadyKeepsInv(e.scheduler, e.ready, t.ready);
    hide SchedulerInv;
    assert forall i: nat :: i < |e.records| ==> RecordInv(e, i) ==> RecordInv(t, i);
    assert forall i: nat :: HasRecord(t, i) <==> HasRecord(e, i);
  }

  lemma StopSteps(e: Engine)
    requires EngineInv(e)
    ensures EngineInv(e.(running := false))
  {
    var t := e.(running := false);
    hide SchedulerInv;
    assert forall i: nat :: i < |e.records| ==> RecordInv(e, i) ==> RecordInv(t, i);
    assert forall i: nat :: HasRecord(t, i) <==> HasRecord(e, i);
  }

  // --------------------------------------------------------------- theorems

  /**
   * In every interleaving no scheduler call the engine makes is rejected, except for running out of
   * frame indices; in particular no checkpoint is ever out of order. The invariant is kept.
   */
  lemma SchedulerNeverRejects(e: Engine, a: Action)
    requires EngineInv(e) && Enabled(e, a)
    ensures |e.records| == |e.scheduler.slots| > 0
    ensures Step(e, a).Err? ==> a == BEGIN_FRAME && Step(e, a).error == EXHAUSTED
    ensures Step(e, a).Ok? ==> EngineInv(Step(e, a).value)
  {
    InvOf(e);
    hide EngineInv, SchedulerInv, Call, TryAcquire, Begin, Publish, Abort, RequestDraw, FinishUpdate, CallThen, OnFrame,
      Reap, Advance;
    match a
    case BEGIN_FRAME => BeginSteps(e);
    case PUBLISH(key, fails) => PublishSteps(e, key, fails);
    case ABORT_FRAME(key) => AbortSteps(e, key);
    case REQUEST_DRAW(fails) => RequestDrawSteps(e, fails);
    case START_UPDATE(i) => StartUpdateSteps(e, i);
    case FINISH_UPDATE(i, ok, fails) => FinishUpdateSteps(e, i, ok, fails);
    case START_DRAW(i) => StartDrawSteps(e, i);
    case FINISH_EXTRACTION(i) => FinishExtractionSteps(e, i);
    case REGISTER_GPU(i, gpu) => RegisterSteps(e, i, gpu);
    case COMPLETE_DRAW(i) => CompleteDrawSteps(e, i);
    case FAIL_DRAW(i, latched) => FailDrawSteps(e, i, latched);
    case SIGNAL_GPU(gpu) => GpuReadySteps(e, gpu);
    case REAP(i, gpuFails) => ReapSteps(e, i, gpuFails);
    case STOP => StopSteps(e);
  }

  ghost predicate Reaches(e: Engine, actions: seq<Action>, t: Engine)
    decreases |actions|
  {
    if actions == [] then t == e
    else
      && Enabled(e, actions[0]) && |e.records| == |e.scheduler.slots| > 0
      && Step(e, actions[0]).Ok? && Reaches(Step(e, actions[0]).value, actions[1..], t)
  }

  lemma {:induction false} ReachableInv(e: Engine, actions: seq<Action>, t: Engine)
    requires EngineInv(e) && Reaches(e, actions, t)
    ensures EngineInv(t)
    decreases |actions|
  {
    hide EngineInv, Step;
    if actions != [] {
      SchedulerNeverRejects(e, actions[0]);
      ReachableInv(Step(e, actions[0]).value, actions[1..], t);
    }
  }

  /**
   * In every interleaving, when the update of a frame may run or is published, every earlier frame has had its
   * extraction return or was given up without an update.
   */
  lemma SimulationFollowsExtraction(owner: nat, n: nat, actions: seq<Action>, t: Engine, i: nat, k: nat)
    requires owner != 0 && n > 0 && Reaches(InitialEngine(owner, n), actions, t)
    requires IsDoing(t, i, {IDLE, UPDATE_QUEUED, SIMULATING}) && k < t.records[i].value.frame.frame
    ensures k in t.extracted || k in t.abandoned
  {
    InitialEngineInv(owner, n);
    ReachableInv(InitialEngine(owner, n), actions, t);
    RecordFacts(t, i);
  }

  /** No frame's update is published twice, and a key that is stale or already published is refused. */
  lemma PublishedAtMostOnce(owner: nat, n: nat, actions: seq<Action>, t: Engine, key: Handle, fails: bool)
    requires owner != 0 && n > 0 && Reaches(InitialEngine(owner, n), actions, t)
    ensures Distinct(t.published)
    ensures key in t.published || !Resolves(t, key) ==> Publish(t, key, fails) == Ok(t)
  {
    InitialEngineInv(owner, n);
    ReachableInv(InitialEngine(owner, n), actions, t);
  }
}

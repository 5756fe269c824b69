// The tasks behind one frame's draw (engine/engine.cpp, RunDraw and FinishDraw) and the handle by which the engine
// asks whether they have ended. Extraction and preparation may each be done in place or by a task of their own, behind
// which the draw goes on in a further task; the handle is set to that task after it has been spawned.
//
// The runtime promises that work it schedules depends on the task that schedules it (engine/runtime/frame_runtime.h:64).
// Under that promise the handle has the last word; without it a handle can be overwritten by an older one.
module DrawTasks {
  import opened Wrappers

  datatype Task = DRAW | EXTRACTION | FINISH | PREPARATION | LAST

  datatype Status = ABSENT | WAITING | RUNNING | COMPLETED | FAILED

  predicate IsTerminal(s: Status) { s == COMPLETED || s == FAILED }

  /** How far the body of a task that draws has got. */
  datatype Stage = AT_EXTRACTION | EXTRACTION_OUT | AT_PREPARATION | PREPARATION_OUT | STORES(next: Task) | RETURNS

  /** drawStage and finishStage are those of the draw task's and of the finishing task's body; completed says that the
      frame has been completed. */
  datatype Frame = Frame(draw: Status, extraction: Status, finish: Status, preparation: Status, last: Status,
                         drawStage: Stage, finishStage: Stage, handle: Task, completed: bool)

  const SUBMITTED := Frame(WAITING, ABSENT, ABSENT, ABSENT, ABSENT, AT_EXTRACTION, AT_PREPARATION, DRAW, false)

  datatype Action =
    | START(task: Task)
    | EXTRACT(ok: bool)
    | SCHEDULE_EXTRACTION
    | PREPARE(task: Task, ok: bool)
    | SCHEDULE_PREPARATION(task: Task)
    | SPAWN(task: Task, ok: bool)
    | STORE(task: Task)
    | RETURN(task: Task)
    | END(task: Task, ok: bool)
    | SKIP(task: Task)

  function StatusOf(f: Frame, t: Task): Status {
    match t
    case DRAW => f.draw
    case EXTRACTION => f.extraction
    case FINISH => f.finish
    case PREPARATION => f.preparation
    case LAST => f.last
  }

  function SetStatus(f: Frame, t: Task, s: Status): Frame {
    match t
    case DRAW => f.(draw := s)
    case EXTRACTION => f.(extraction := s)
    case FINISH => f.(finish := s)
    case PREPARATION => f.(preparation := s)
    case LAST => f.(last := s)
  }

  /** The task that has scheduled the preparation: extraction in place leaves it to the draw task. */
  function Preparer(f: Frame): Task { if f.extraction == ABSENT then DRAW else FINISH }

  /** The task that has to complete before this one may start. */
  function DependencyOf(f: Frame, t: Task): Task {
    match t
    case DRAW => DRAW
    case EXTRACTION => DRAW
    case FINISH => EXTRACTION
    case PREPARATION => Preparer(f)
    case LAST => PREPARATION
  }

  /** The runtime's own tasks wait for the one that scheduled them only if it keeps its promise. */
  predicate Waits(t: Task, kept: bool) { t in {FINISH, LAST} || (kept && t in {EXTRACTION, PREPARATION}) }

  predicate IsAt(f: Frame, t: Task, stage: Stage) {
    || (t == DRAW && f.draw == RUNNING && f.drawStage == stage)
    || (t == FINISH && f.finish == RUNNING && f.finishStage == stage)
  }

  function SetStage(f: Frame, t: Task, stage: Stage): Frame {
    if t == DRAW then f.(drawStage := stage) else f.(finishStage := stage)
  }

  predicate IsStoring(f: Frame, t: Task) {
    (t == DRAW && f.draw == RUNNING && f.drawStage.STORES?) || (t == FINISH && f.finish == RUNNING && f.finishStage.STORES?)
  }

  function NextHandle(f: Frame, t: Task): Task
    requires IsStoring(f, t)
  {
    if t == DRAW then f.drawStage.next else f.finishStage.next
  }

  predicate Enabled(f: Frame, a: Action, kept: bool) {
    match a
    case START(t) => StatusOf(f, t) == WAITING && (Waits(t, kept) ==> StatusOf(f, DependencyOf(f, t)) == COMPLETED)
    case EXTRACT(_) => IsAt(f, DRAW, AT_EXTRACTION)
    case SCHEDULE_EXTRACTION => IsAt(f, DRAW, AT_EXTRACTION)
    case PREPARE(t, _) => IsAt(f, t, AT_PREPARATION)
    case SCHEDULE_PREPARATION(t) => IsAt(f, t, AT_PREPARATION)
    case SPAWN(t, _) => IsAt(f, t, EXTRACTION_OUT) || IsAt(f, t, PREPARATION_OUT)
    case STORE(t) => IsStoring(f, t)
    case RETURN(t) => IsAt(f, t, RETURNS)
    case END(t, _) => t in {EXTRACTION, PREPARATION, LAST} && StatusOf(f, t) == RUNNING
    case SKIP(t) => t != DRAW && StatusOf(f, t) == WAITING && StatusOf(f, DependencyOf(f, t)) == FAILED
  }

  function Step(f: Frame, a: Action): Frame {
    match a
    case START(t) => SetStatus(f, t, RUNNING)
    case EXTRACT(ok) => if ok then f.(drawStage := AT_PREPARATION) else f.(draw := FAILED)
    case SCHEDULE_EXTRACTION => f.(extraction := WAITING, drawStage := EXTRACTION_OUT)
    case PREPARE(t, ok) => if ok then SetStage(f, t, RETURNS).(completed := true) else SetStatus(f, t, FAILED)
    case SCHEDULE_PREPARATION(t) => SetStage(f, t, PREPARATION_OUT).(preparation := WAITING)
    case SPAWN(t, ok) =>
      if !ok then SetStatus(f, t, FAILED)
      else if IsAt(f, t, EXTRACTION_OUT) then SetStage(f, t, STORES(FINISH)).(finish := WAITING)
      else SetStage(f, t, STORES(LAST)).(last := WAITING)
    case STORE(t) => if IsStoring(f, t) then SetStage(f, t, RETURNS).(handle := NextHandle(f, t)) else f
    case RETURN(t) => SetStatus(f, t, COMPLETED)
    case END(t, ok) =>
      var g := SetStatus(f, t, if ok then COMPLETED else FAILED);
      if t == LAST && ok then g.(completed := true) else g
    case SKIP(t) => SetStatus(f, t, FAILED)
  }

  ghost predicate Runs(f: Frame, actions: seq<Action>, kept: bool, g: Frame)
    decreases |actions|
  {
    if actions == [] then g == f
    else Enabled(f, actions[0], kept) && Runs(Step(f, actions[0]), actions[1..], kept, g)
  }

  // ------------------------------------------------------------------ invariant

  predicate Started(s: Status) { s == RUNNING || s == COMPLETED }

  /** A task runs only behind a completed one, and ends only behind one that has ended. */
  predicate RunsBehind(s: Status, dependency: Status) {
    (Started(s) ==> dependency == COMPLETED) && (s == FAILED ==> IsTerminal(dependency))
  }

  predicate InTurn(f: Frame) {
    && RunsBehind(f.extraction, f.draw) && RunsBehind(f.finish, f.extraction)
    && RunsBehind(f.preparation, StatusOf(f, Preparer(f))) && RunsBehind(f.last, f.preparation)
  }

  predicate Only(f: Frame, extraction: bool, finish: bool, preparation: bool, last: bool) {
    && (f.extraction != ABSENT) == extraction && (f.finish != ABSENT) == finish
    && (f.preparation != ABSENT) == preparation && (f.last != ABSENT) == last
  }

  /** What has been scheduled, and where the handle is, when the finishing task's body is at its stage. */
  predicate FinishAt(f: Frame) {
    match f.finishStage
    case AT_PREPARATION => Only(f, true, true, false, false) && f.handle == FINISH && !f.completed && f.finish != COMPLETED
    case PREPARATION_OUT =>
      Only(f, true, true, true, false) && f.handle == FINISH && !f.completed && f.finish in {RUNNING, FAILED}
    case STORES(next) =>
      Only(f, true, true, true, true) && f.handle == FINISH && !f.completed && f.finish == RUNNING && next == LAST
    case RETURNS =>
      && Started(f.finish)
      && (if f.handle == LAST then Only(f, true, true, true, true) && (f.completed <==> f.last == COMPLETED)
          else Only(f, true, true, false, false) && f.handle == FINISH && f.completed)
    case _ => false
  }

  /** The same for the draw task's body. */
  predicate DrawAt(f: Frame) {
    match f.drawStage
    case AT_EXTRACTION => Only(f, false, false, false, false) && f.handle == DRAW && !f.completed && f.draw !in {ABSENT, COMPLETED}
    case EXTRACTION_OUT =>
      Only(f, true, false, false, false) && f.handle == DRAW && !f.completed && f.draw in {RUNNING, FAILED}
    case AT_PREPARATION =>
      Only(f, false, false, false, false) && f.handle == DRAW && !f.completed && f.draw in {RUNNING, FAILED}
    case PREPARATION_OUT =>
      Only(f, false, false, true, false) && f.handle == DRAW && !f.completed && f.draw in {RUNNING, FAILED}
    case STORES(next) =>
      && f.handle == DRAW && !f.completed && f.draw == RUNNING
      && (if next == FINISH then Only(f, true, true, false, false) else next == LAST && Only(f, false, false, true, true))
    case RETURNS =>
      && Started(f.draw)
      && (if f.extraction != ABSENT then FinishAt(f)
          else if f.handle == LAST then Only(f, false, false, true, true) && (f.completed <==> f.last == COMPLETED)
          else Only(f, false, false, false, false) && f.handle == DRAW && f.completed)
  }

  predicate TasksInv(f: Frame) {
    DrawAt(f) && InTurn(f) && (f.drawStage != RETURNS || f.extraction == ABSENT ==> f.finishStage == AT_PREPARATION)
  }

  lemma StartKeepsTasksInv(f: Frame, t: Task)
    requires TasksInv(f) && Enabled(f, START(t), true)
    ensures TasksInv(SetStatus(f, t, RUNNING))
  {
  }

  lemma SkipKeepsTasksInv(f: Frame, t: Task)
    requires TasksInv(f) && Enabled(f, SKIP(t), true)
    ensures TasksInv(SetStatus(f, t, FAILED))
  {
  }

  lemma EndKeepsTasksInv(f: Frame, t: Task, ok: bool)
    requires TasksInv(f) && Enabled(f, END(t, ok), true)
    ensures TasksInv(Step(f, END(t, ok)))
  {
  }

  lemma SpawnKeepsTasksInv(f: Frame, t: Task, ok: bool)
    requires TasksInv(f) && Enabled(f, SPAWN(t, ok), true)
    ensures TasksInv(Step(f, SPAWN(t, ok)))
  {
  }

  lemma StoreKeepsTasksInv(f: Frame, t: Task)
    requires TasksInv(f) && Enabled(f, STORE(t), true)
    ensures TasksInv(Step(f, STORE(t)))
  {
  }

  lemma ReturnKeepsTasksInv(f: Frame, t: Task)
    requires TasksInv(f) && Enabled(f, RETURN(t), true)
    ensures TasksInv(Step(f, RETURN(t)))
  {
  }

  lemma DrawKeepsTasksInv(f: Frame, a: Action)
    requires TasksInv(f) && Enabled(f, a, true)
    requires a.EXTRACT? || a.SCHEDULE_EXTRACTION? || a.PREPARE? || a.SCHEDULE_PREPARATION?
    ensures TasksInv(Step(f, a))
  {
  }

  lemma StepKeepsTasksInv(f: Frame, a: Action)
    requires TasksInv(f) && Enabled(f, a, true)
    ensures TasksInv(Step(f, a))
  {
    hide TasksInv;
    match a
    case START(t) => StartKeepsTasksInv(f, t);
    case SKIP(t) => SkipKeepsTasksInv(f, t);
    case END(t, ok) => EndKeepsTasksInv(f, t, ok);
    case SPAWN(t, ok) => SpawnKeepsTasksInv(f, t, ok);
    case STORE(t) => StoreKeepsTasksInv(f, t);
    case RETURN(t) => ReturnKeepsTasksInv(f, t);
    case _ => DrawKeepsTasksInv(f, a);
  }

  lemma {:induction false} RunKeepsTasksInv(f: Frame, actions: seq<Action>, g: Frame)
    requires TasksInv(f) && Runs(f, actions, true, g)
    ensures TasksInv(g)
    decreases |actions|
  {
    hide TasksInv, Enabled, Step;
    if actions != [] {
      StepKeepsTasksInv(f, actions[0]);
      RunKeepsTasksInv(Step(f, actions[0]), actions[1..], g);
    }
  }

  // ------------------------------------------------------------------- theorems

  /** No task of the frame runs or can start; those left waiting are behind a failure. */
  ghost predicate IsOver(f: Frame, kept: bool) { forall a :: Enabled(f, a, kept) ==> a.SKIP? }

  lemma TerminalMeansOver(f: Frame)
    requires TasksInv(f) && IsTerminal(StatusOf(f, f.handle))
    ensures IsOver(f, true) && (StatusOf(f, f.handle) == COMPLETED <==> f.completed)
  {
  }

  /**
   * If the runtime keeps its promise, the task that the handle names has ended only when the frame's draw is over,
   * and it has completed if and only if the frame has been completed.
   */
  lemma HandleHasTheLastWord(actions: seq<Action>, f: Frame)
    requires Runs(SUBMITTED, actions, true, f) && IsTerminal(StatusOf(f, f.handle))
    ensures IsOver(f, true) && (StatusOf(f, f.handle) == COMPLETED <==> f.completed)
  {
    RunKeepsTasksInv(SUBMITTED, actions, f);
    TerminalMeansOver(f);
  }

  /** Extraction, preparation, a submission or a scheduled task that throws. */
  predicate Throws(a: Action) {
    a == EXTRACT(false) || (a.PREPARE? && !a.ok) || (a.SPAWN? && !a.ok) || (a.END? && !a.ok)
  }

  predicate SomeFailed(f: Frame) {
    f.draw == FAILED || f.extraction == FAILED || f.finish == FAILED || f.preparation == FAILED || f.last == FAILED
  }

  /** What is scheduled was not there before. */
  lemma SchedulesAbsent(f: Frame, t: Task)
    requires TasksInv(f)
    ensures Enabled(f, SCHEDULE_EXTRACTION, true) ==> f.extraction == ABSENT
    ensures Enabled(f, SCHEDULE_PREPARATION(t), true) ==> f.preparation == ABSENT
    ensures Enabled(f, SPAWN(t, true), true) ==>
      (IsAt(f, t, EXTRACTION_OUT) ==> f.finish == ABSENT) && (IsAt(f, t, PREPARATION_OUT) ==> f.last == ABSENT)
  {
    hide InTurn;
  }

  lemma SchedulesNothingFailed(f: Frame, a: Action)
    requires TasksInv(f) && Enabled(f, a, true) && (a.SCHEDULE_EXTRACTION? || a.SCHEDULE_PREPARATION? || a.SPAWN?)
    ensures SomeFailed(Step(f, a)) <==> SomeFailed(f) || Throws(a)
  {
    hide TasksInv;
    match a
    case SCHEDULE_EXTRACTION =>
      SchedulesAbsent(f, DRAW);
    case SCHEDULE_PREPARATION(t) =>
      SchedulesAbsent(f, t);
    case SPAWN(t, ok) => SpawnsNothingFailed(f, t, ok);
  }

  lemma SpawnsNothingFailed(f: Frame, t: Task, ok: bool)
    requires TasksInv(f) && Enabled(f, SPAWN(t, ok), true)
    ensures SomeFailed(Step(f, SPAWN(t, ok))) <==> SomeFailed(f) || !ok
  {
    hide TasksInv;
    SchedulesAbsent(f, t);
    BodiesRun(f, t, EXTRACTION_OUT);
    BodiesRun(f, t, PREPARATION_OUT);
    StatusSet(f, t, FAILED);
  }

  lemma StatusSet(f: Frame, t: Task, status: Status)
    requires StatusOf(f, t) != FAILED
    ensures SomeFailed(SetStatus(f, t, status)) <==> SomeFailed(f) || status == FAILED
  {
  }

  lemma FailedOf(f: Frame, t: Task)
    requires StatusOf(f, t) == FAILED
    ensures SomeFailed(f)
  {
  }

  lemma BodiesRun(f: Frame, t: Task, stage: Stage)
    ensures IsAt(f, t, stage) || IsStoring(f, t) ==> StatusOf(f, t) == RUNNING
    ensures SomeFailed(SetStage(f, t, stage)) == SomeFailed(f)
  {
  }

  lemma EndsFailed(f: Frame, a: Action)
    requires Enabled(f, a, true) && !(a.SCHEDULE_EXTRACTION? || a.SCHEDULE_PREPARATION? || a.SPAWN?)
    ensures SomeFailed(Step(f, a)) <==> SomeFailed(f) || Throws(a)
  {
    match a
    case START(t) =>
      StatusSet(f, t, RUNNING);
    case SKIP(t) =>
      StatusSet(f, t, FAILED);
      FailedOf(f, DependencyOf(f, t));
    case END(t, ok) =>
      StatusSet(f, t, if ok then COMPLETED else FAILED);
    case RETURN(t) =>
      BodiesRun(f, t, RETURNS);
      StatusSet(f, t, COMPLETED);
    case STORE(t) =>
      BodiesRun(f, t, RETURNS);
    case EXTRACT(ok) =>
    case PREPARE(t, ok) =>
      BodiesRun(f, t, AT_PREPARATION);
      BodiesRun(f, t, RETURNS);
      StatusSet(f, t, FAILED);
  }

  /** A task fails by a throw, or behind one that has failed. */
  lemma FailsByThrow(f: Frame, a: Action)
    requires TasksInv(f) && Enabled(f, a, true)
    ensures SomeFailed(Step(f, a)) <==> SomeFailed(f) || Throws(a)
  {
    hide TasksInv, Enabled, Step, SomeFailed, Throws;
    if a.SCHEDULE_EXTRACTION? || a.SCHEDULE_PREPARATION? || a.SPAWN? {
      SchedulesNothingFailed(f, a);
    } else {
      EndsFailed(f, a);
    }
  }

  lemma {:induction false} FailuresFollow(f: Frame, actions: seq<Action>, g: Frame)
    requires TasksInv(f) && Runs(f, actions, true, g)
    ensures SomeFailed(g) <==> SomeFailed(f) || exists k :: 0 <= k < |actions| && Throws(actions[k])
    decreases |actions|
  {
    hide TasksInv, Enabled, Step, Throws, SomeFailed;
    if actions != [] {
      StepKeepsTasksInv(f, actions[0]);
      FailsByThrow(f, actions[0]);
      FailuresFollow(Step(f, actions[0]), actions[1..], g);
      assert forall k :: 1 <= k < |actions| ==> actions[k] == actions[1..][k - 1];
    }
  }

  /** What is not over. */
  lemma NothingToDo(f: Frame)
    requires IsOver(f, true)
    ensures forall t :: !Enabled(f, START(t), true) && !Enabled(f, END(t, true), true)
    ensures !Enabled(f, EXTRACT(true), true)
    ensures forall t :: !Enabled(f, PREPARE(t, true), true) && !Enabled(f, SPAWN(t, true), true)
    ensures forall t :: !Enabled(f, STORE(t), true) && !Enabled(f, RETURN(t), true)
  {
    hide Enabled;
  }

  /** Neither body is at work. */
  lemma BodiesAtRest(f: Frame)
    requires TasksInv(f) && IsOver(f, true)
    ensures f.draw != RUNNING && f.finish != RUNNING
  {
    NothingToDo(f);
    hide IsOver, InTurn;
    assert !Enabled(f, SPAWN(DRAW, true), true) && !Enabled(f, SPAWN(FINISH, true), true);
    assert !Enabled(f, PREPARE(DRAW, true), true) && !Enabled(f, PREPARE(FINISH, true), true);
    assert !Enabled(f, STORE(DRAW), true) && !Enabled(f, STORE(FINISH), true);
    assert !Enabled(f, RETURN(DRAW), true) && !Enabled(f, RETURN(FINISH), true);
  }

  /** Every task that is left waits for one that has not completed. */
  lemma OthersAtRest(f: Frame)
    requires IsOver(f, true)
    ensures f.extraction != RUNNING && f.preparation != RUNNING && f.last != RUNNING && f.draw != WAITING
    ensures f.extraction == WAITING ==> f.draw != COMPLETED
    ensures f.finish == WAITING ==> f.extraction != COMPLETED
    ensures f.preparation == WAITING ==> StatusOf(f, Preparer(f)) != COMPLETED
    ensures f.last == WAITING ==> f.preparation != COMPLETED
  {
    NothingToDo(f);
    hide IsOver;
    assert !Enabled(f, END(EXTRACTION, true), true) && !Enabled(f, START(EXTRACTION), true);
    assert !Enabled(f, END(PREPARATION, true), true) && !Enabled(f, START(PREPARATION), true);
    assert !Enabled(f, END(LAST, true), true) && !Enabled(f, START(LAST), true);
    assert !Enabled(f, START(DRAW), true) && !Enabled(f, START(FINISH), true);
  }

  lemma OverMeansComplete(f: Frame)
    requires TasksInv(f) && IsOver(f, true)
    ensures f.completed <==> !SomeFailed(f)
  {
    BodiesAtRest(f);
    OthersAtRest(f);
    hide IsOver, Enabled;
  }

  lemma SkippedMeansEnded(f: Frame)
    requires TasksInv(f) && IsOver(f, true) && forall t :: !Enabled(f, SKIP(t), true)
    ensures IsTerminal(StatusOf(f, f.handle))
  {
    BodiesAtRest(f);
    OthersAtRest(f);
    hide IsOver;
    assert !Enabled(f, SKIP(EXTRACTION), true) && !Enabled(f, SKIP(FINISH), true);
    assert !Enabled(f, SKIP(PREPARATION), true) && !Enabled(f, SKIP(LAST), true);
  }

  lemma SubmittedIsSound()
    ensures TasksInv(SUBMITTED) && !SomeFailed(SUBMITTED)
  {
  }

  /**
   * When the draw of a frame is over, the frame has been completed if and only if nothing has thrown on the way; and once
   * all that is left waiting behind a failure has been skipped, the task that the handle names has ended.
   */
  lemma CompletesUnlessThrown(actions: seq<Action>, f: Frame)
    requires Runs(SUBMITTED, actions, true, f) && IsOver(f, true)
    ensures f.completed <==> forall k :: 0 <= k < |actions| ==> !Throws(actions[k])
    ensures (forall t :: !Enabled(f, SKIP(t), true)) ==> IsTerminal(StatusOf(f, f.handle))
  {
    hide TasksInv, Enabled, Throws, IsOver, SomeFailed;
    SubmittedIsSound();
    RunKeepsTasksInv(SUBMITTED, actions, f);
    FailuresFollow(SUBMITTED, actions, f);
    OverMeansComplete(f);
    if forall t :: !Enabled(f, SKIP(t), true) { SkippedMeansEnded(f); }
  }

  // ---------------------------------------------------------- a broken promise

  /** The extraction ends before the task that scheduled it has stored the handle of the finishing task. */
  function EarlyAction(k: nat): Action {
    match k
    case 0 => START(DRAW)
    case 1 => SCHEDULE_EXTRACTION
    case 2 => SPAWN(DRAW, true)
    case 3 => START(EXTRACTION)
    case 4 => END(EXTRACTION, true)
    case 5 => START(FINISH)
    case 6 => SCHEDULE_PREPARATION(FINISH)
    case 7 => SPAWN(FINISH, true)
    case 8 => STORE(FINISH)
    case 9 => RETURN(FINISH)
    case _ => STORE(DRAW)
  }

  const EARLY := Frame(RUNNING, COMPLETED, WAITING, ABSENT, ABSENT, STORES(FINISH), AT_PREPARATION, DRAW, false)
  const FINISHING := EARLY.(finish := RUNNING)
  const HANDED_ON := FINISHING.(preparation := WAITING, last := WAITING, finishStage := RETURNS, handle := LAST)

  /** The states of that run. */
  function EarlyState(k: nat): Frame {
    match k
    case 0 => SUBMITTED
    case 1 => SUBMITTED.(draw := RUNNING)
    case 2 => SUBMITTED.(draw := RUNNING, extraction := WAITING, drawStage := EXTRACTION_OUT)
    case 3 => EARLY.(extraction := WAITING)
    case 4 => EARLY.(extraction := RUNNING)
    case 5 => EARLY
    case 6 => FINISHING
    case 7 => FINISHING.(preparation := WAITING, finishStage := PREPARATION_OUT)
    case 8 => HANDED_ON.(finishStage := STORES(LAST), handle := DRAW)
    case 9 => HANDED_ON
    case 10 => HANDED_ON.(finish := COMPLETED)
    case _ => HANDED_ON.(finish := COMPLETED, drawStage := RETURNS, handle := FINISH)
  }

  lemma EarlyStep(k: nat)
    requires k < 11
    ensures Enabled(EarlyState(k), EarlyAction(k), false) && Step(EarlyState(k), EarlyAction(k)) == EarlyState(k + 1)
  {
  }

  function EarlyActions(k: nat): seq<Action>
    requires k <= 11
    decreases 11 - k
  {
    if k == 11 then [] else [EarlyAction(k)] + EarlyActions(k + 1)
  }

  lemma {:induction false} EarlyRun(k: nat)
    requires k <= 11
    ensures Runs(EarlyState(k), EarlyActions(k), false, EarlyState(11))
    decreases 11 - k
  {
    hide Enabled, Step, EarlyAction, EarlyState;
    if k < 11 {
      EarlyStep(k);
      EarlyRun(k + 1);
      assert ([EarlyAction(k)] + EarlyActions(k + 1))[1..] == EarlyActions(k + 1);
    }
  }

  /** Without the promise an older handle can overwrite the last one: the task it names has completed, but the frame
      has not been completed and its preparation is still to run. */
  lemma BrokenPromiseMisleads()
    ensures Runs(SUBMITTED, EarlyActions(0), false, EarlyState(11))
    ensures var f := EarlyState(11);
      StatusOf(f, f.handle) == COMPLETED && !f.completed && Enabled(f, START(PREPARATION), true)
  {
    EarlyRun(0);
    hide EarlyActions, Runs;
  }
}

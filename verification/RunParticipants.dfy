// The participants of an asynchronous ECS run (ecs/world.cpp, SystemRunState): the publisher, the published
// system tasks and the open producer buffers each hold one count; whoever takes the count to zero finalizes.
// The publisher looks whether to go on, counts a system and submits it in three steps, between which others move.
module RunParticipants {
  import opened Wrappers

  datatype Outcome = COMPLETED | FAILED | CANCELLED

  /** Where the publisher stands in a round of its loop. */
  datatype Round = AT_HEAD | CHECKED | COUNTED

  datatype RunState = RunState(
    total: nat,
    started: bool,
    publishing: bool,
    round: Round,
    published: nat,
    tasks: set<nat>,
    buffers: set<nat>,
    nextBuffer: nat,
    outstanding: nat,
    cancelled: bool,
    failed: bool,
    finalizations: nat,
    outcome: Option<Outcome>)

  function InitialRun(total: nat): RunState {
    RunState(total, false, false, AT_HEAD, 0, {}, {}, 0, 1, false, false, 0, None)
  }

  datatype Action =
    | START
    | ABANDON
    | CHECK
    | COUNT
    | SUBMIT(submitFails: bool)
    | END_PUBLICATION
    | END_TASK(task: nat, throws: bool)
    | OPEN_BUFFER(producer: nat)
    | CLOSE_BUFFER(buffer: nat, cleanupFails: bool)
    | CANCEL

  predicate Enabled(s: RunState, a: Action) {
    match a
    case START => !s.started
    case ABANDON => !s.started
    case CHECK => s.publishing && s.round == AT_HEAD && s.published < s.total && !s.cancelled && !s.failed
    case COUNT => s.round == CHECKED
    case SUBMIT(_) => s.round == COUNTED
    case END_PUBLICATION =>
      s.publishing && s.round == AT_HEAD && (s.published == s.total || s.cancelled || s.failed)
    case END_TASK(i, _) => i in s.tasks
    case OPEN_BUFFER(i) => i in s.tasks && !s.cancelled && !s.failed
    case CLOSE_BUFFER(b, _) => b in s.buffers
    case CANCEL => true
  }

  /** Gives up one count; the last to do so finalizes the run. */
  function Retired(s: RunState): RunState
    requires s.outstanding > 0
  {
    var t := s.(outstanding := s.outstanding - 1);
    if t.outstanding > 0 then t
    else t.(finalizations := t.finalizations + 1,
            outcome := Some(if t.failed then FAILED else if t.cancelled then CANCELLED else COMPLETED))
  }

  function Step(s: RunState, a: Action): RunState
    requires Enabled(s, a) && (s.outstanding > 0 || a == CANCEL)
  {
    match a
    case START => s.(started := true, publishing := true)
    case ABANDON => Retired(s.(started := true, cancelled := true))
    case CHECK => s.(round := CHECKED)
    case COUNT => s.(round := COUNTED, outstanding := s.outstanding + 1)
    case SUBMIT(fails) =>
      if fails then Retired(s.(round := AT_HEAD, failed := true))
      else s.(round := AT_HEAD, tasks := s.tasks + {s.published}, published := s.published + 1)
    case END_PUBLICATION => Retired(s.(publishing := false))
    case END_TASK(i, throws) => Retired(s.(tasks := s.tasks - {i}, failed := s.failed || throws))
    case OPEN_BUFFER(_) =>
      s.(buffers := s.buffers + {s.nextBuffer}, nextBuffer := s.nextBuffer + 1, outstanding := s.outstanding + 1)
    case CLOSE_BUFFER(b, fails) => Retired(s.(buffers := s.buffers - {b}, failed := s.failed || fails))
    case CANCEL => s.(cancelled := true)
  }

  function Holders(s: RunState): nat {
    (if !s.started || s.publishing then 1 else 0) + (if s.round == COUNTED then 1 else 0) + |s.tasks| + |s.buffers|
  }

  ghost predicate RunInv(s: RunState) {
    && s.outstanding == Holders(s)
    && s.finalizations == (if s.outstanding == 0 then 1 else 0)
    && (s.outcome.Some? <==> s.outstanding == 0)
    && (forall i :: i in s.tasks ==> i < s.published)
    && (forall b :: b in s.buffers ==> b < s.nextBuffer)
    && (s.publishing ==> s.started)
    && (s.round != AT_HEAD ==> s.publishing && s.published < s.total)
    && s.published <= s.total
    && (!s.started ==> s.published == 0 && s.tasks == {} && s.buffers == {})
    && (s.started && !s.publishing && !s.cancelled && !s.failed ==> s.published == s.total)
  }

  lemma InitialRunInv(total: nat)
    ensures RunInv(InitialRun(total))
  {
  }

  /** Whoever can act still holds a count: after the last one is gone nothing joins and nothing retires. */
  lemma ActorsHoldCounts(s: RunState, a: Action)
    requires RunInv(s) && Enabled(s, a) && a != CANCEL
    ensures s.outstanding > 0
  {
    match a
    case END_TASK(i, _) => assert s.tasks != {};
    case OPEN_BUFFER(i) => assert s.tasks != {};
    case CLOSE_BUFFER(b, _) => assert s.buffers != {};
    case _ =>
  }

  lemma EndKeepsRunInv(s: RunState, a: Action)
    requires RunInv(s) && Enabled(s, a) && (a.END_TASK? || a.CLOSE_BUFFER?) && s.outstanding > 0
    ensures RunInv(Step(s, a)) && s.outcome.None?
  {
    match a
    case END_TASK(i, _) => assert |s.tasks - {i}| == |s.tasks| - 1;
    case CLOSE_BUFFER(b, _) => assert |s.buffers - {b}| == |s.buffers| - 1;
  }

  lemma StepKeepsRunInv(s: RunState, a: Action)
    requires RunInv(s) && Enabled(s, a)
    ensures a == CANCEL || s.outstanding > 0
    ensures RunInv(Step(s, a))
    ensures s.outcome.Some? ==> a == CANCEL
  {
    if a != CANCEL {
      ActorsHoldCounts(s, a);
    }
    match a
    case SUBMIT(fails) =>
      if !fails {
        assert s.published !in s.tasks;
      }
    case END_TASK(_, _) => EndKeepsRunInv(s, a);
    case CLOSE_BUFFER(_, _) => EndKeepsRunInv(s, a);
    case OPEN_BUFFER(_) => assert s.nextBuffer !in s.buffers;
    case _ =>
  }

  ghost predicate Runs(s: RunState, actions: seq<Action>, t: RunState)
    decreases |actions|
  {
    if actions == [] then t == s
    else
      && Enabled(s, actions[0]) && (s.outstanding > 0 || actions[0] == CANCEL)
      && Runs(Step(s, actions[0]), actions[1..], t)
  }

  lemma {:induction false} ReachableRun(s: RunState, actions: seq<Action>, t: RunState)
    requires RunInv(s) && Runs(s, actions, t)
    ensures RunInv(t)
    decreases |actions|
  {
    if actions != [] {
      StepKeepsRunInv(s, actions[0]);
      ReachableRun(Step(s, actions[0]), actions[1..], t);
    }
  }

  /**
   * A run is finalized at most once, and only when publication has ended and every system task and every
   * producer buffer has retired. It completes only if every system was published and nothing failed or cancelled it.
   */
  lemma FinalizesOnceAfterEverything(total: nat, actions: seq<Action>, t: RunState)
    requires Runs(InitialRun(total), actions, t)
    ensures t.finalizations <= 1
    ensures t.finalizations == 1 <==> t.started && !t.publishing && t.tasks == {} && t.buffers == {}
    ensures t.outcome.Some? <==> t.finalizations == 1
  {
    InitialRunInv(total);
    ReachableRun(InitialRun(total), actions, t);
  }

  /** The step that finalizes a run: nobody is left, and completion means that every system was published. */
  lemma FinalStep(s: RunState, a: Action)
    requires RunInv(s) && Enabled(s, a) && a != CANCEL && s.outstanding > 0 && Step(s, a).outstanding == 0
    ensures s.outcome.None? && Step(s, a).outcome.Some?
    ensures Step(s, a).outcome == Some(COMPLETED) ==>
      Step(s, a).published == s.total && !Step(s, a).failed && !Step(s, a).cancelled
  {
    StepKeepsRunInv(s, a);
  }

  // ------------------------------------------------------ what decides the outcome

  /** A submission, a system or the clean-up of a buffer that throws. */
  predicate Throws(a: Action) {
    a == SUBMIT(true) || (a.END_TASK? && a.throws) || (a.CLOSE_BUFFER? && a.cleanupFails)
  }

  predicate Cancels(a: Action) { a.CANCEL? || a.ABANDON? }

  lemma FlagsMove(s: RunState, a: Action)
    requires Enabled(s, a) && (s.outstanding > 0 || a == CANCEL)
    ensures Step(s, a).failed <==> s.failed || Throws(a)
    ensures Step(s, a).cancelled <==> s.cancelled || Cancels(a)
  {
  }

  lemma {:induction false} FlagsFollow(s: RunState, actions: seq<Action>, t: RunState)
    requires Runs(s, actions, t)
    ensures t.failed <==> s.failed || exists k :: 0 <= k < |actions| && Throws(actions[k])
    ensures t.cancelled <==> s.cancelled || exists k :: 0 <= k < |actions| && Cancels(actions[k])
    decreases |actions|
  {
    hide Enabled, Step, Throws, Cancels;
    if actions != [] {
      FlagsMove(s, actions[0]);
      FlagsFollow(Step(s, actions[0]), actions[1..], t);
      assert forall k :: 1 <= k < |actions| ==> actions[k] == actions[1..][k - 1];
    }
  }

  lemma {:induction false} OutcomeStays(s: RunState, actions: seq<Action>, t: RunState)
    requires RunInv(s) && s.outcome.Some? && Runs(s, actions, t)
    ensures t.outcome == s.outcome
    decreases |actions|
  {
    if actions != [] {
      StepKeepsRunInv(s, actions[0]);
      OutcomeStays(Step(s, actions[0]), actions[1..], t);
    }
  }

  lemma DecidedByFlags(s: RunState, a: Action)
    requires RunInv(s) && s.outcome.None? && Enabled(s, a) && (s.outstanding > 0 || a == CANCEL)
    requires Step(s, a).outcome.Some?
    ensures var t := Step(s, a);
      && RunInv(t)
      && t.outcome == Some(if t.failed then FAILED else if t.cancelled then CANCELLED else COMPLETED)
  {
    StepKeepsRunInv(s, a);
  }

  /**
   * The outcome of a run is decided by what has happened when its last participant leaves, and stays: failed if a
   * submission, a system or a clean-up threw, otherwise cancelled if it was cancelled or abandoned, otherwise completed.
   */
  lemma OutcomeIsDecided(total: nat, before: seq<Action>, s: RunState, a: Action, later: seq<Action>, t: RunState)
    requires Runs(InitialRun(total), before, s) && s.outcome.None?
    requires Enabled(s, a) && (s.outstanding > 0 || a == CANCEL) && Step(s, a).outcome.Some?
    requires Runs(Step(s, a), later, t)
    ensures var happened := before + [a];
            t.outcome == Some(if exists k | 0 <= k < |happened| :: Throws(happened[k]) then FAILED
                              else if exists k | 0 <= k < |happened| :: Cancels(happened[k]) then CANCELLED
                              else COMPLETED)
  {
    hide RunInv, Enabled, Step, Throws, Cancels;
    InitialRunInv(total);
    ReachableRun(InitialRun(total), before, s);
    FlagsFollow(InitialRun(total), before, s);
    FlagsMove(s, a);
    DecidedByFlags(s, a);
    OutcomeStays(Step(s, a), later, t);
    var happened := before + [a];
    assert happened[|before|] == a;
    assert forall k :: 0 <= k < |before| ==> happened[k] == before[k];
    assert (exists k | 0 <= k < |happened| :: Throws(happened[k])) <==> s.failed || Throws(a);
    assert (exists k | 0 <= k < |happened| :: Cancels(happened[k])) <==> s.cancelled || Cancels(a);
  }

  /**
   * At every point of a run, the publisher goes on and producers may open buffers exactly as long as nothing has thrown and
   * nobody has cancelled.
   */
  lemma GoesOnExactly(total: nat, actions: seq<Action>, t: RunState, task: nat)
    requires Runs(InitialRun(total), actions, t)
    ensures Enabled(t, OPEN_BUFFER(task)) <==>
      task in t.tasks && forall k :: 0 <= k < |actions| ==> !Throws(actions[k]) && !Cancels(actions[k])
    ensures Enabled(t, CHECK) <==>
      && t.publishing && t.round == AT_HEAD && t.published < total
      && forall k :: 0 <= k < |actions| ==> !Throws(actions[k]) && !Cancels(actions[k])
  {
    hide Throws, Cancels;
    FlagsFollow(InitialRun(total), actions, t);
    KeepsTotal(InitialRun(total), actions, t);
  }

  lemma {:induction false} KeepsTotal(s: RunState, actions: seq<Action>, t: RunState)
    requires Runs(s, actions, t)
    ensures t.total == s.total
    decreases |actions|
  {
    hide Enabled;
    if actions != [] {
      SameTotal(s, actions[0]);
      KeepsTotal(Step(s, actions[0]), actions[1..], t);
    }
  }

  lemma SameTotal(s: RunState, a: Action)
    requires Enabled(s, a) && (s.outstanding > 0 || a == CANCEL)
    ensures Step(s, a).total == s.total
  {
  }
}

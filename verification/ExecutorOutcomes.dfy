/** Which command a run of the main executor takes next, and what becomes of every command. */
module ExecutorOutcomes {
  import opened Wrappers
  import opened MainExecutorSpec

  // --------------------------------------------------------------- selection

  lemma ChoiceMeans(queue: seq<Entry>, burst: nat, k: nat)
    requires IsChoice(queue, burst, k)
    ensures k < |queue|
    ensures forall j :: 0 <= j < |queue| && queue[k].origin.Some? && queue[j].origin.Some? ==>
      var a, b := queue[k].origin.value, queue[j].origin.value;
      || a.runGeneration < b.runGeneration
      || (a.runGeneration == b.runGeneration && a.frameSequence < b.frameSequence)
      || (a.runGeneration == b.runGeneration && a.frameSequence == b.frameSequence && k <= j)
    ensures forall j :: 0 <= j < k && queue[k].origin.None? ==> queue[j].origin.Some?
    ensures forall j :: 0 <= j < |queue| && queue[k].origin.Some? && queue[j].origin.None? ==> burst < 8
    ensures forall j :: 0 <= j < |queue| && queue[k].origin.None? && queue[j].origin.Some? ==> burst >= 8
  {
    forall j | 0 <= j < |queue| && queue[k].origin.Some? && queue[j].origin.Some?
      ensures var a, b := queue[k].origin.value, queue[j].origin.value;
        || a.runGeneration < b.runGeneration
        || (a.runGeneration == b.runGeneration && a.frameSequence < b.frameSequence)
        || (a.runGeneration == b.runGeneration && a.frameSequence == b.frameSequence && k <= j)
    {
      var a, b := queue[k].origin.value, queue[j].origin.value;
      assert !Earlier(b, a);
      if j < k { assert a != b; }
    }
  }

  /**
   * Every command that a run takes: a framed one has the least run generation, then the least frame, then the oldest place
   * among the framed ones, and has overtaken the unframed ones less than eight times in a row; an unframed one is the oldest
   * of them, and is taken when no other is framed or eight have overtaken it.
   */
  lemma TakesLeast(trace: seq<Executor>, actions: seq<Action>, i: nat) returns (k: nat)
    requires IsRunFromStart(trace, actions) && i < |actions| && actions[i] == TAKE
    ensures k < |trace[i].queue| && trace[i + 1].taken == Some(trace[i].queue[k])
    ensures trace[i + 1].queue == trace[i].queue[..k] + trace[i].queue[k + 1..]
    ensures trace[i + 1].dispatched == trace[i].dispatched + [trace[i].queue[k]]
    ensures forall j :: 0 <= j < |trace[i].queue| && trace[i].queue[k].origin.Some? && trace[i].queue[j].origin.Some? ==>
      var a, b := trace[i].queue[k].origin.value, trace[i].queue[j].origin.value;
      || a.runGeneration < b.runGeneration
      || (a.runGeneration == b.runGeneration && a.frameSequence < b.frameSequence)
      || (a.runGeneration == b.runGeneration && a.frameSequence == b.frameSequence && k <= j)
    ensures forall j :: 0 <= j < k && trace[i].queue[k].origin.None? ==> trace[i].queue[j].origin.Some?
    ensures forall j :: 0 <= j < |trace[i].queue| && trace[i].queue[k].origin.Some? && trace[i].queue[j].origin.None? ==>
      trace[i].burst < 8
    ensures forall j :: 0 <= j < |trace[i].queue| && trace[i].queue[k].origin.None? && trace[i].queue[j].origin.Some? ==>
      trace[i].burst >= 8
  {
    k := TakenAt(trace[i], trace[i + 1]);
    ChoiceMeans(trace[i].queue, trace[i].burst, k);
  }

  lemma TakenAt(s: Executor, t: Executor) returns (k: nat)
    requires Step(s, TAKE, t)
    ensures IsChoice(s.queue, s.burst, k) && t == Taken(s, k)
  {
    k :| IsChoice(s.queue, s.burst, k) && t == Taken(s, k);
  }

  // ---------------------------------------------------------------- outcomes

  /** What a step marks a command as. */
  ghost function Marks(s: Executor, a: Action): Option<(nat, CommandState)> {
    match a
    case FINISH(ok) =>
      if s.taken.Some? then Some((s.taken.value.command, if ok then COMPLETED else FAILED)) else None
    case SKIP(_, c) => Some((c, SKIPPED))
    case SKIP_REFUSED(c) => Some((c, SKIPPED))
    case _ => None
  }

  lemma MarkedNow(s: Executor, a: Action, t: Executor)
    requires Inv(s) && Step(s, a, t) && Marks(s, a).Some?
    ensures var (c, mark) := Marks(s, a).value; c in s.posted && c in t.states && t.states[c] == mark && c in t.posted
  {
    hide OnePlace, InOrder, Generations, Ascending, Commands;
    match a
    case FINISH(_) =>
    case SKIP(i, c) => assert Pending(s, c);
    case SKIP_REFUSED(c) => assert Pending(s, c);
  }

  /**
   * A command whose callback returned is completed from then on, one whose callback threw has failed, and one that a stop
   * or a late post has marked is skipped.
   */
  lemma EndsAsItRan(trace: seq<Executor>, actions: seq<Action>, i: nat, j: nat)
    requires IsRunFromStart(trace, actions) && i < j < |trace|
    ensures forall ok :: actions[i] == FINISH(ok) ==>
      && trace[i].taken.Some? && trace[i].taken.value.command in trace[j].states
      && trace[j].states[trace[i].taken.value.command] == if ok then COMPLETED else FAILED
    ensures forall stop, c :: actions[i] == SKIP(stop, c) || actions[i] == SKIP_REFUSED(c) ==>
      c in trace[j].states && trace[j].states[c] == SKIPPED
  {
    hide Inv, Step;
    RunKeepsInv(trace, actions, i);
    StepOfRun(trace, actions, i);
    if Marks(trace[i], actions[i]).Some? {
      MarkedNow(trace[i], actions[i], trace[i + 1]);
      TerminalIsFinal(trace, actions, i + 1, j, Marks(trace[i], actions[i]).value.0);
    }
  }

  lemma StepOfRun(trace: seq<Executor>, actions: seq<Action>, i: nat)
    requires IsRunFromStart(trace, actions) && i < |actions|
    ensures Step(trace[i], actions[i], trace[i + 1])
    ensures actions[i].FINISH? ==> trace[i].taken.Some?
  {
  }

  /** What has been dispatched is running or has ended by running, and nothing is dispatched twice. */
  ghost predicate RunsOnce(s: Executor) {
    && (forall i, j :: 0 <= i < j < |s.dispatched| ==> s.dispatched[i].command != s.dispatched[j].command)
    && (forall e :: e in s.dispatched ==>
          e.command in s.states && s.states[e.command] in {RUNNING, COMPLETED, FAILED})
    && (forall c :: c in s.states && s.states[c] in {RUNNING, COMPLETED, FAILED} ==>
          exists e :: e in s.dispatched && e.command == c)
  }

  lemma TakenWasQueued(s: Executor, k: nat)
    requires Inv(s) && k < |s.queue|
    ensures s.queue[k].command in s.states && s.states[s.queue[k].command] == QUEUED
  {
    hide OnePlace, InOrder, Generations, Ascending;
    assert s.queue[k] in s.queue;
    assert s.queue[k].command in Commands(s.queue);
    assert Pending(s, s.queue[k].command);
  }

  lemma TakeRunsOnce(s: Executor, t: Executor)
    requires Inv(s) && RunsOnce(s) && Step(s, TAKE, t)
    ensures RunsOnce(t)
  {
    hide Inv, IsChoice, WithoutEntry;
    var k := TakenAt(s, t);
    ChosenInQueue(s.queue, s.burst, k);
    TakenWasQueued(s, k);
    var e := s.queue[k];
    assert forall x :: x in t.dispatched <==> x in s.dispatched || x == e;
    forall c | c in t.states && t.states[c] in {RUNNING, COMPLETED, FAILED}
      ensures exists x :: x in t.dispatched && x.command == c
    {
      if c == e.command { assert e in t.dispatched; }
    }
  }

  lemma ChosenInQueue(queue: seq<Entry>, burst: nat, k: nat)
    requires IsChoice(queue, burst, k)
    ensures k < |queue|
  {
  }

  lemma OthersRunOnce(s: Executor, a: Action, t: Executor)
    requires Inv(s) && RunsOnce(s) && Step(s, a, t) && a != TAKE
    ensures RunsOnce(t)
  {
    hide RunsOnce, Inv, Posted;
    match a
    case POST(g, o) => PostRunsOnce(s, g, o);
    case FINISH(ok) => FinishRunsOnce(s, ok, t);
    case SKIP(i, c) => SkipRunsOnce(s, c, a, t);
    case SKIP_REFUSED(c) => SkipRunsOnce(s, c, a, t);
    case _ => SameRunsOnce(s, t);
  }

  lemma SameRunsOnce(s: Executor, t: Executor)
    requires RunsOnce(s) && t.dispatched == s.dispatched && t.states == s.states
    ensures RunsOnce(t)
  {
  }

  lemma PostRunsOnce(s: Executor, g: nat, o: Option<Origin>)
    requires Inv(s) && RunsOnce(s)
    ensures RunsOnce(Posted(s, g, o))
  {
    hide Placed, OnePlace, InOrder, Generations, Ascending;
    assert s.next !in s.states;
  }

  lemma FinishRunsOnce(s: Executor, ok: bool, t: Executor)
    requires Inv(s) && RunsOnce(s) && Step(s, FINISH(ok), t)
    ensures RunsOnce(t)
  {
    hide Numbered, OnePlace, InOrder, Generations, Pending;
    var c := s.taken.value.command;
    assert c in s.states && s.states[c] == RUNNING;
  }

  lemma SkipRunsOnce(s: Executor, c: nat, a: Action, t: Executor)
    requires Inv(s) && RunsOnce(s) && Step(s, a, t) && (a == SKIP_REFUSED(c) || (a.SKIP? && a.skipped == c))
    ensures RunsOnce(t)
  {
    hide OnePlace, InOrder, Generations, Ascending, Commands;
    assert Pending(s, c);
    assert c in s.states && s.states[c] == QUEUED;
  }

  lemma {:induction false} RunRunsOnce(trace: seq<Executor>, actions: seq<Action>, i: nat)
    requires IsRunFromStart(trace, actions) && i < |trace|
    ensures RunsOnce(trace[i])
    decreases i
  {
    hide Inv, Step, RunsOnce;
    if i == 0 {
      NothingRan();
    } else {
      RunRunsOnce(trace, actions, i - 1);
      RunKeepsInv(trace, actions, i - 1);
      StepOfRun(trace, actions, i - 1);
      if actions[i - 1] == TAKE {
        TakeRunsOnce(trace[i - 1], trace[i]);
      } else {
        OthersRunOnce(trace[i - 1], actions[i - 1], trace[i]);
      }
    }
  }

  lemma NothingRan()
    ensures RunsOnce(INITIAL)
  {
  }

  /** No command is dispatched twice, and a command is skipped exactly when it has ended without being dispatched. */
  lemma DispatchedAtMostOnce(trace: seq<Executor>, actions: seq<Action>, i: nat)
    requires IsRunFromStart(trace, actions) && i < |trace|
    ensures var s := trace[i];
      && (forall j, k :: 0 <= j < k < |s.dispatched| ==> s.dispatched[j].command != s.dispatched[k].command)
      && forall c :: c in s.states ==>
           (s.states[c] in {QUEUED, SKIPPED} <==> forall j :: 0 <= j < |s.dispatched| ==> s.dispatched[j].command != c)
  {
    RunRunsOnce(trace, actions, i);
    var s := trace[i];
    forall c | c in s.states
      ensures s.states[c] in {QUEUED, SKIPPED} <==> forall j :: 0 <= j < |s.dispatched| ==> s.dispatched[j].command != c
    {
      if s.states[c] in {QUEUED, SKIPPED} {
        forall j | 0 <= j < |s.dispatched|
          ensures s.dispatched[j].command != c
        {
          assert s.dispatched[j] in s.dispatched;
        }
      } else {
        var state := s.states[c];
        assert state.RUNNING? || state.COMPLETED? || state.FAILED?;
        var e :| e in s.dispatched && e.command == c;
        var j :| 0 <= j < |s.dispatched| && s.dispatched[j] == e;
        assert s.dispatched[j].command == c;
      }
    }
  }
}

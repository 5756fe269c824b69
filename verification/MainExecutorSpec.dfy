/** The main-thread command queue of application/runtime/main_executor.cpp as a state machine over its locked blocks. */
module MainExecutorSpec {
  import opened Wrappers
  import opened Reordering

  const FRAME_BURST := 8

  datatype Origin = Origin(runGeneration: nat, frameSequence: nat)

  /** A queued command; commands are numbered by `next` in posting order. */
  datatype Entry = Entry(origin: Option<Origin>, command: nat)

  datatype CommandState = QUEUED | RUNNING | COMPLETED | FAILED | SKIPPED

  predicate IsTerminal(s: CommandState) { s == COMPLETED || s == FAILED || s == SKIPPED }

  predicate Earlier(a: Origin, b: Origin) {
    a.runGeneration < b.runGeneration || (a.runGeneration == b.runGeneration && a.frameSequence < b.frameSequence)
  }

  /**
   * stops holds, for every stop still unwinding, the commands it has not yet marked; refused holds the
   * commands that came too late and are not marked yet; dispatched is the order in which commands ran.
   */
  datatype Executor = Executor(
    queue: seq<Entry>,
    burst: nat,
    running: bool,
    draining: bool,
    generation: nat,
    taken: Option<Entry>,
    stops: map<nat, set<nat>>,
    refused: set<nat>,
    states: map<nat, CommandState>,
    posted: map<nat, nat>,
    next: nat,
    dispatched: seq<Entry>)

  const INITIAL := Executor([], 0, false, false, 0, None, map[], {}, map[], map[], 0, [])

  // ------------------------------------------------------------- selection

  ghost predicate HasUnframed(queue: seq<Entry>) { exists i :: 0 <= i < |queue| && queue[i].origin.None? }

  ghost predicate HasFramed(queue: seq<Entry>) { exists i :: 0 <= i < |queue| && queue[i].origin.Some? }

  /**
   * The next command: the first of the framed ones of least origin, or the first unframed one
   * when there is no framed one or enough framed ones have overtaken it.
   */
  ghost predicate IsChoice(queue: seq<Entry>, burst: nat, k: nat) {
    && k < |queue|
    && match queue[k].origin
       case Some(o) =>
         && (burst < FRAME_BURST || !HasUnframed(queue))
         && (forall j :: 0 <= j < |queue| && queue[j].origin.Some? ==> !Earlier(queue[j].origin.value, o))
         && (forall j :: 0 <= j < k && queue[j].origin.Some? ==> queue[j].origin.value != o)
       case None =>
         && (burst >= FRAME_BURST || !HasFramed(queue))
         && (forall j :: 0 <= j < k ==> queue[j].origin.Some?)
  }

  lemma ChoiceUnique(queue: seq<Entry>, burst: nat, k: nat, l: nat)
    requires IsChoice(queue, burst, k) && IsChoice(queue, burst, l)
    ensures k == l
  {
    if queue[k].origin.Some? && queue[l].origin.Some? {
      var a, b := queue[k].origin.value, queue[l].origin.value;
      assert !Earlier(a, b) && !Earlier(b, a);
    }
  }

  function WithoutEntry(queue: seq<Entry>, k: nat): seq<Entry>
    requires k < |queue|
  {
    queue[..k] + queue[k + 1..]
  }

  // -------------------------------------------------------------- actions

  datatype Action =
    | START
    | POST(generation: nat, origin: Option<Origin>)
    | BEGIN_DRAIN
    | TAKE
    | FINISH(ok: bool)
    | END_DRAIN
    | BEGIN_STOP(stop: nat)
    | SKIP(stop: nat, skipped: nat)
    | SKIP_REFUSED(late: nat)
    | END_STOP(stop: nat)

  /** What calls the executor refuses, or what cannot happen yet. */
  predicate Enabled(s: Executor, a: Action) {
    match a
    case START => !s.running && !s.draining && s.stops == map[]
    case POST(_, _) => s.generation != 0
    case BEGIN_DRAIN => !s.draining
    case TAKE => s.draining && s.taken.None? && s.running && s.queue != []
    case FINISH(_) => s.taken.Some?
    case END_DRAIN => s.draining && s.taken.None?
    case BEGIN_STOP(i) => i !in s.stops
    case SKIP(i, c) => i in s.stops && c in s.stops[i]
    case SKIP_REFUSED(c) => c in s.refused
    case END_STOP(i) => i in s.stops && s.stops[i] == {}
  }

  ghost function Commands(queue: seq<Entry>): set<nat> { set e | e in queue :: e.command }

  function Posted(s: Executor, generation: nat, origin: Option<Origin>): Executor {
    var c := s.next;
    if s.running && generation == s.generation then
      s.(queue := s.queue + [Entry(origin, c)], states := s.states[c := QUEUED], posted := s.posted[c := generation],
        next := c + 1)
    else
      s.(refused := s.refused + {c}, states := s.states[c := QUEUED], posted := s.posted[c := generation],
        next := c + 1)
  }

  function Taken(s: Executor, k: nat): Executor
    requires k < |s.queue|
  {
    var e := s.queue[k];
    s.(queue := WithoutEntry(s.queue, k),
       burst := if e.origin.None? then 0 else if s.burst < FRAME_BURST then s.burst + 1 else FRAME_BURST,
       taken := Some(e),
       states := s.states[e.command := RUNNING],
       dispatched := s.dispatched + [e])
  }

  ghost predicate Step(s: Executor, a: Action, t: Executor) {
    && Enabled(s, a)
    && match a
       case START => t == s.(generation := s.generation + 1, running := true, burst := 0)
       case POST(g, o) => t == Posted(s, g, o)
       case BEGIN_DRAIN => t == s.(draining := true)
       case TAKE => exists k: nat :: IsChoice(s.queue, s.burst, k) && t == Taken(s, k)
       case FINISH(ok) =>
         t == s.(taken := None, states := s.states[s.taken.value.command := if ok then COMPLETED else FAILED])
       case END_DRAIN => t == s.(draining := false)
       case BEGIN_STOP(i) => t == s.(running := false, queue := [], stops := s.stops[i := Commands(s.queue)])
       case SKIP(i, c) => t == s.(stops := s.stops[i := s.stops[i] - {c}], states := s.states[c := SKIPPED])
       case SKIP_REFUSED(c) => t == s.(refused := s.refused - {c}, states := s.states[c := SKIPPED])
       case END_STOP(i) => t == s.(stops := s.stops - {i})
  }

  ghost predicate IsRun(trace: seq<Executor>, actions: seq<Action>) {
    && |trace| == |actions| + 1
    && forall i :: 0 <= i < |actions| ==> Step(trace[i], actions[i], trace[i + 1])
  }

  // ------------------------------------------------------------ invariant

  /** The queue is in posting order. */
  ghost predicate Ascending(queue: seq<Entry>) {
    forall i, j :: 0 <= i < j < |queue| ==> queue[i].command < queue[j].command
  }

  ghost predicate Numbered(s: Executor) {
    && s.states.Keys == s.posted.Keys
    && (forall c: nat :: c in s.posted <==> c < s.next)
    && (forall e :: e in s.queue ==> e.command in s.posted)
    && Ascending(s.queue)
  }

  /** Where an unfinished command is: queued, running, or waiting to be marked as skipped. */
  ghost predicate Pending(s: Executor, c: nat) {
    c in Commands(s.queue) || c in s.refused || exists i :: i in s.stops && c in s.stops[i]
  }

  ghost predicate Placed(s: Executor) {
    && s.states.Keys == s.posted.Keys
    && (forall c :: c in s.posted ==> (s.states[c] == QUEUED <==> Pending(s, c)))
    && (forall c :: c in s.posted ==> (s.states[c] == RUNNING <==> s.taken.Some? && s.taken.value.command == c))
    && (forall c :: Pending(s, c) ==> c in s.posted)
    && (s.taken.Some? ==> s.taken.value.command in s.posted)
  }

  /** No command is in two places. */
  ghost predicate OnePlace(s: Executor) {
    && (forall c :: c in Commands(s.queue) ==> c !in s.refused && forall i :: i in s.stops ==> c !in s.stops[i])
    && (forall c, i :: c in s.refused && i in s.stops ==> c !in s.stops[i])
    && (forall i, j, c :: i in s.stops && j in s.stops && c in s.stops[i] && c in s.stops[j] ==> i == j)
  }

  ghost predicate Generations(s: Executor) {
    && (!s.running ==> s.queue == [])
    && (forall e :: e in s.queue ==> e.command in s.posted && s.posted[e.command] == s.generation)
    && (s.taken.Some? ==> s.draining && s.taken.value.command in s.posted)
    && (s.taken.Some? ==> s.posted[s.taken.value.command] == s.generation)
    && s.burst <= FRAME_BURST
  }

  ghost predicate SameOrigin(a: Entry, b: Entry) { a.origin == b.origin }

  /** Among commands of one origin, the dispatched ones are in posting order and precede the queued ones. */
  ghost predicate InOrder(s: Executor) {
    && (forall i, j :: 0 <= i < j < |s.dispatched| && SameOrigin(s.dispatched[i], s.dispatched[j]) ==>
          s.dispatched[i].command < s.dispatched[j].command)
    && (forall i, e :: 0 <= i < |s.dispatched| && e in s.queue && SameOrigin(s.dispatched[i], e) ==>
          s.dispatched[i].command < e.command)
    && (forall e :: e in s.dispatched ==> e.command in s.posted)
  }

  ghost predicate Inv(s: Executor) {
    Numbered(s) && Placed(s) && OnePlace(s) && Generations(s) && InOrder(s)
  }

  lemma InitialInv()
    ensures Inv(INITIAL)
  {
  }

  // ---------------------------------------------------------- preservation

  lemma CommandsAppend(queue: seq<Entry>, e: Entry)
    ensures Commands(queue + [e]) == Commands(queue) + {e.command}
  {
    forall c
      ensures c in Commands(queue + [e]) <==> c in Commands(queue) || c == e.command
    {
      if c == e.command {
        assert e in queue + [e];
      } else if c in Commands(queue) {
        var x :| x in queue && x.command == c;
        assert x in queue + [e];
      }
    }
  }

  lemma AscendingWithout(queue: seq<Entry>, k: nat)
    requires k < |queue| && Ascending(queue)
    ensures Ascending(WithoutEntry(queue, k))
  {
    var rest := WithoutEntry(queue, k);
    forall i, j | 0 <= i < j < |rest|
      ensures rest[i].command < rest[j].command
    {
      assert rest[i] == queue[if i < k then i else i + 1] && rest[j] == queue[if j < k then j else j + 1];
    }
  }

  lemma CommandsWithout(queue: seq<Entry>, k: nat)
    requires k < |queue| && Ascending(queue)
    ensures Commands(WithoutEntry(queue, k)) == Commands(queue) - {queue[k].command}
    ensures queue[k].command in Commands(queue)
    ensures forall e :: e in WithoutEntry(queue, k) <==> e in queue && e != queue[k]
    ensures Ascending(WithoutEntry(queue, k))
  {
    AscendingWithout(queue, k);
    var rest := WithoutEntry(queue, k);
    assert queue[k] in queue;
    forall e
      ensures e in rest <==> e in queue && e != queue[k]
    {
      if e in queue && e != queue[k] {
        var i :| 0 <= i < |queue| && queue[i] == e;
        assert rest[if i < k then i else i - 1] == e;
      }
    }
    forall c
      ensures c in Commands(rest) <==> c in Commands(queue) && c != queue[k].command
    {
      if c in Commands(queue) && c != queue[k].command {
        var e :| e in queue && e.command == c;
        assert e in rest;
      }
      if c in Commands(rest) {
        var e :| e in rest && e.command == c;
        assert e in queue;
        var i :| 0 <= i < |queue| && queue[i] == e;
      }
    }
  }

  lemma AscendingAppend(queue: seq<Entry>, e: Entry)
    requires Ascending(queue) && forall x :: x in queue ==> x.command < e.command
    ensures Ascending(queue + [e])
  {
  }

  lemma PostKeepsNumbers(s: Executor, g: nat, o: Option<Origin>)
    requires Numbered(s)
    ensures Numbered(Posted(s, g, o))
  {
    hide Ascending;
    var t := Posted(s, g, o);
    forall e | e in s.queue + [Entry(o, s.next)]
      ensures e in s.queue || e.command == s.next
    {
    }
    AscendingAppend(s.queue, Entry(o, s.next));
  }

  lemma PostKeepsOrder(s: Executor, g: nat, o: Option<Origin>)
    requires Numbered(s) && InOrder(s)
    ensures InOrder(Posted(s, g, o))
  {
    var t := Posted(s, g, o);
    forall i, e | 0 <= i < |s.dispatched| && e in t.queue && SameOrigin(s.dispatched[i], e)
      ensures s.dispatched[i].command < e.command
    {
      assert s.dispatched[i] in s.dispatched;
      assert e in s.queue || e.command == s.next;
    }
  }

  lemma PostKeepsGenerations(s: Executor, g: nat, o: Option<Origin>)
    requires Numbered(s) && Generations(s)
    ensures Generations(Posted(s, g, o))
  {
    var t := Posted(s, g, o);
    forall e | e in t.queue
      ensures e.command in t.posted && t.posted[e.command] == t.generation
    {
      assert e in s.queue || e.command == s.next;
    }
    hide Numbered;
  }

  lemma PostKeepsInv(s: Executor, g: nat, o: Option<Origin>)
    requires Inv(s)
    ensures Inv(Posted(s, g, o))
  {
    hide Numbered, Placed, OnePlace, Generations, InOrder, Posted;
    PostKeepsNumbers(s, g, o);
    PostKeepsOrder(s, g, o);
    PostKeepsGenerations(s, g, o);
    PostPlaces(s, g, o);
  }

  lemma PostPlaces(s: Executor, g: nat, o: Option<Origin>)
    requires Numbered(s) && Placed(s) && OnePlace(s)
    ensures Placed(Posted(s, g, o)) && OnePlace(Posted(s, g, o))
  {
    hide Posted, OnePlace, Placed;
    PostFacts(s, g, o);
    PostOnePlace(s, Posted(s, g, o), s.next);
    PostPlaced(s, Posted(s, g, o), g);
  }

  lemma PostFacts(s: Executor, g: nat, o: Option<Origin>)
    requires Numbered(s) && Placed(s)
    ensures !Pending(s, s.next) && s.next !in s.posted
    ensures var t, c := Posted(s, g, o), s.next;
            && t.stops == s.stops && t.taken == s.taken
            && t.states == s.states[c := QUEUED] && t.posted == s.posted[c := g]
            && ((Commands(t.queue) == Commands(s.queue) + {c} && t.refused == s.refused) ||
                (Commands(t.queue) == Commands(s.queue) && t.refused == s.refused + {c}))
  {
    CommandsAppend(s.queue, Entry(o, s.next));
    hide Commands, Pending, Ascending;
  }

  lemma PostPlaced(s: Executor, t: Executor, g: nat)
    requires Placed(s) && !Pending(s, s.next) && s.next !in s.posted
    requires t.stops == s.stops && t.taken == s.taken
    requires t.states == s.states[s.next := QUEUED] && t.posted == s.posted[s.next := g]
    requires (Commands(t.queue) == Commands(s.queue) + {s.next} && t.refused == s.refused) ||
             (Commands(t.queue) == Commands(s.queue) && t.refused == s.refused + {s.next})
    ensures Placed(t)
  {
    PostPending(s, t, s.next);
    hide Pending, Commands;
  }

  lemma PostPending(s: Executor, t: Executor, c: nat)
    requires t.stops == s.stops
    requires (Commands(t.queue) == Commands(s.queue) + {c} && t.refused == s.refused) ||
             (Commands(t.queue) == Commands(s.queue) && t.refused == s.refused + {c})
    ensures forall x :: Pending(t, x) <==> Pending(s, x) || x == c
  {
    hide Commands;
  }

  lemma PostOnePlace(s: Executor, t: Executor, c: nat)
    requires OnePlace(s) && !Pending(s, c) && t.stops == s.stops
    requires (Commands(t.queue) == Commands(s.queue) + {c} && t.refused == s.refused) ||
             (Commands(t.queue) == Commands(s.queue) && t.refused == s.refused + {c})
    ensures OnePlace(t)
  {
    hide Commands;
    assert forall i :: i in s.stops ==> c !in s.stops[i];
  }

  lemma TakeKeepsNumbers(s: Executor, k: nat)
    requires Numbered(s) && k < |s.queue|
    ensures Numbered(Taken(s, k))
  {
    CommandsWithout(s.queue, k);
    assert s.queue[k] in s.queue;
    hide Commands, Ascending, WithoutEntry;
  }

  lemma TakeKeepsGenerations(s: Executor, k: nat)
    requires Numbered(s) && Generations(s) && k < |s.queue| && s.draining
    ensures Generations(Taken(s, k))
  {
    CommandsWithout(s.queue, k);
    assert s.queue[k] in s.queue;
    hide Commands, Numbered, WithoutEntry;
  }

  lemma TakeKeepsInv(s: Executor, k: nat)
    requires Inv(s) && IsChoice(s.queue, s.burst, k) && Enabled(s, TAKE)
    ensures k < |s.queue| && Inv(Taken(s, k))
  {
    hide Numbered, Placed, OnePlace, Generations, InOrder, Taken;
    TakePlaces(s, k);
    TakeKeepsNumbers(s, k);
    TakeKeepsGenerations(s, k);
    TakeKeepsOrder(s, k);
  }

  lemma TakePlaces(s: Executor, k: nat)
    requires Inv(s) && k < |s.queue| && s.taken.None?
    ensures Placed(Taken(s, k)) && OnePlace(Taken(s, k))
  {
    hide InOrder, Generations;
    var t := Taken(s, k);
    var e := s.queue[k];
    CommandsWithout(s.queue, k);
    assert e in s.queue;
    assert Pending(s, e.command);
    hide Commands, WithoutEntry, Numbered;
    forall x
      ensures Pending(t, x) <==> Pending(s, x) && x != e.command
    {
    }
    hide Pending;
  }

  lemma ChosenIsOldest(queue: seq<Entry>, burst: nat, k: nat)
    requires Ascending(queue) && IsChoice(queue, burst, k)
    ensures forall x :: x in WithoutEntry(queue, k) && SameOrigin(queue[k], x) ==> queue[k].command < x.command
  {
    var rest := WithoutEntry(queue, k);
    forall x | x in rest && SameOrigin(queue[k], x)
      ensures queue[k].command < x.command
    {
      var i :| 0 <= i < |rest| && rest[i] == x;
      assert x == queue[if i < k then i else i + 1];
    }
  }

  /** Appending a command to the dispatched ones keeps the order, if it is the oldest of its origin. */
  lemma DispatchedKeepsOrder(done: seq<Entry>, queue: seq<Entry>, e: Entry, rest: seq<Entry>)
    requires forall i, j :: 0 <= i < j < |done| && SameOrigin(done[i], done[j]) ==> done[i].command < done[j].command
    requires forall i, x :: 0 <= i < |done| && x in queue && SameOrigin(done[i], x) ==> done[i].command < x.command
    requires e in queue && forall x :: x in rest ==> x in queue
    requires forall x :: x in rest && SameOrigin(e, x) ==> e.command < x.command
    ensures var more := done + [e];
      && (forall i, j :: 0 <= i < j < |more| && SameOrigin(more[i], more[j]) ==> more[i].command < more[j].command)
      && (forall i, x :: 0 <= i < |more| && x in rest && SameOrigin(more[i], x) ==> more[i].command < x.command)
  {
    hide SameOrigin;
  }

  /** The choice has no older command of its origin behind it: origins are served first in, first out. */
  lemma TakeKeepsOrder(s: Executor, k: nat)
    requires Numbered(s) && InOrder(s) && IsChoice(s.queue, s.burst, k)
    ensures InOrder(Taken(s, k))
  {
    CommandsWithout(s.queue, k);
    ChosenIsOldest(s.queue, s.burst, k);
    TakeNumbered(s, k);
    hide IsChoice, Numbered, WithoutEntry, Commands, SameOrigin, Ascending;
    DispatchedKeepsOrder(s.dispatched, s.queue, s.queue[k], WithoutEntry(s.queue, k));
  }

  lemma TakeNumbered(s: Executor, k: nat)
    requires Numbered(s) && k < |s.queue|
    ensures s.queue[k].command in s.posted
  {
    assert s.queue[k] in s.queue;
  }

  lemma OrderStays(s: Executor, t: Executor)
    requires InOrder(s) && t.dispatched == s.dispatched && t.queue == s.queue && t.posted == s.posted
    ensures InOrder(t)
  {
  }

  lemma FinishKeepsInv(s: Executor, ok: bool, t: Executor)
    requires Inv(s) && Step(s, FINISH(ok), t)
    ensures Inv(t)
  {
    hide Commands, Ascending, Placed, OnePlace, InOrder, Pending;
    FinishPlaced(s, t, s.taken.value.command, if ok then COMPLETED else FAILED);
    OrderStays(s, t);
  }

  lemma FinishPlaced(s: Executor, t: Executor, c: nat, ended: CommandState)
    requires Placed(s) && OnePlace(s) && IsTerminal(ended) && s.taken.Some? && s.taken.value.command == c
    requires t.queue == s.queue && t.refused == s.refused && t.stops == s.stops
    requires t.posted == s.posted && t.states == s.states[c := ended] && t.taken == None
    ensures Placed(t) && OnePlace(t)
  {
    hide Commands;
    assert t.states.Keys == s.states.Keys;
    assert forall x :: Pending(t, x) <==> Pending(s, x);
  }

  lemma StopKeepsInv(s: Executor, i: nat, t: Executor)
    requires Inv(s) && Step(s, BEGIN_STOP(i), t)
    ensures Inv(t)
  {
    hide InOrder, Numbered, Placed, OnePlace, Pending, Commands;
    StopPlaces(s, i, t);
    StopKeepsOrder(s, i, t);
  }

  lemma StopPlaces(s: Executor, i: nat, t: Executor)
    requires Placed(s) && OnePlace(s) && i !in s.stops
    requires t.queue == [] && t.stops == s.stops[i := Commands(s.queue)] && t.refused == s.refused
    requires t.posted == s.posted && t.states == s.states && t.taken == s.taken
    ensures Placed(t) && OnePlace(t)
  {
    assert Commands(t.queue) == {};
    hide Commands;
    forall c
      ensures Pending(t, c) <==> Pending(s, c)
    {
      if c in Commands(s.queue) {
        assert c in t.stops[i];
      } else if j :| j in s.stops && c in s.stops[j] {
        assert c in t.stops[j];
      }
    }
  }

  lemma StopKeepsOrder(s: Executor, i: nat, t: Executor)
    requires Inv(s) && Step(s, BEGIN_STOP(i), t)
    ensures Numbered(t) && InOrder(t)
  {
    hide Commands, Placed, OnePlace;
  }

  lemma SkipKeepsInv(s: Executor, i: nat, c: nat, t: Executor)
    requires Inv(s) && Step(s, SKIP(i, c), t)
    ensures Inv(t)
  {
    hide Commands, Placed, OnePlace, Pending, InOrder, Ascending;
    SkipPending(s, i, c, t);
    MarkedPlaced(s, c, t);
    SkipOnePlace(s, i, c, t);
    OrderStays(s, t);
  }

  lemma SkipPending(s: Executor, i: nat, c: nat, t: Executor)
    requires OnePlace(s) && i in s.stops && c in s.stops[i]
    requires t.queue == s.queue && t.refused == s.refused && t.stops == s.stops[i := s.stops[i] - {c}]
    ensures Pending(s, c)
    ensures forall x :: Pending(t, x) <==> Pending(s, x) && x != c
  {
    hide Commands;
    forall x
      ensures Pending(t, x) <==> Pending(s, x) && x != c
    {
      if Pending(s, x) && x != c && x !in Commands(s.queue) && x !in s.refused {
        var j :| j in s.stops && x in s.stops[j];
        assert x in t.stops[j];
      }
      if j :| j in t.stops && x in t.stops[j] {
        assert x in s.stops[j];
      }
    }
  }

  lemma SkipOnePlace(s: Executor, i: nat, c: nat, t: Executor)
    requires OnePlace(s) && i in s.stops
    requires t.queue == s.queue && t.refused == s.refused && t.stops == s.stops[i := s.stops[i] - {c}]
    ensures OnePlace(t)
  {
    hide Commands;
  }

  /** A pending command that is marked as skipped is pending no more, and all others stay where they were. */
  lemma MarkedPlaced(s: Executor, c: nat, t: Executor)
    requires Placed(s) && Pending(s, c)
    requires t.posted == s.posted && t.taken == s.taken && t.states == s.states[c := SKIPPED]
    requires forall x :: Pending(t, x) <==> Pending(s, x) && x != c
    ensures Placed(t) && t.states.Keys == s.states.Keys
  {
    hide Pending;
    assert c in s.posted && s.states[c] == QUEUED;
    assert t.states.Keys == s.states.Keys;
  }

  lemma SkipRefusedKeepsInv(s: Executor, c: nat, t: Executor)
    requires Inv(s) && Step(s, SKIP_REFUSED(c), t)
    ensures Inv(t)
  {
    hide Commands, Placed, Pending, InOrder, Ascending;
    RefusedPending(s, c, t);
    MarkedPlaced(s, c, t);
    OrderStays(s, t);
  }

  lemma RefusedPending(s: Executor, c: nat, t: Executor)
    requires OnePlace(s) && c in s.refused
    requires t.queue == s.queue && t.stops == s.stops && t.refused == s.refused - {c}
    ensures Pending(s, c)
    ensures forall x :: Pending(t, x) <==> Pending(s, x) && x != c
  {
    hide Commands;
  }

  lemma EndStopKeepsInv(s: Executor, i: nat, t: Executor)
    requires Inv(s) && Step(s, END_STOP(i), t)
    ensures Inv(t)
  {
    hide Commands, Ascending, Placed, OnePlace, InOrder, Pending;
    EndStopPlaces(s, i, t);
    OrderStays(s, t);
  }

  lemma EndStopPlaces(s: Executor, i: nat, t: Executor)
    requires Placed(s) && OnePlace(s) && i in s.stops && s.stops[i] == {}
    requires t.queue == s.queue && t.stops == s.stops - {i} && t.refused == s.refused
    requires t.posted == s.posted && t.states == s.states && t.taken == s.taken
    ensures Placed(t) && OnePlace(t)
  {
    hide Commands;
    forall x
      ensures Pending(t, x) <==> Pending(s, x)
    {
      if j :| j in s.stops && x in s.stops[j] {
        assert j in t.stops && x in t.stops[j];
      }
    }
  }

  lemma StepKeepsInv(s: Executor, a: Action, t: Executor)
    requires Inv(s) && Step(s, a, t)
    ensures Inv(t)
  {
    hide Inv, Posted;
    match a
    case POST(g, o) => PostKeepsInv(s, g, o);
    case TAKE =>
      var k: nat :| IsChoice(s.queue, s.burst, k) && t == Taken(s, k);
      TakeKeepsInv(s, k);
    case FINISH(ok) => FinishKeepsInv(s, ok, t);
    case BEGIN_STOP(i) => StopKeepsInv(s, i, t);
    case SKIP(i, c) => SkipKeepsInv(s, i, c, t);
    case SKIP_REFUSED(c) => SkipRefusedKeepsInv(s, c, t);
    case END_STOP(i) => EndStopKeepsInv(s, i, t);
    case _ => FlagsKeepInv(s, a, t);
  }

  /** Starting, and the begin and end of a drain, move no command. */
  lemma FlagsKeepInv(s: Executor, a: Action, t: Executor)
    requires Inv(s) && Step(s, a, t) && (a.START? || a.BEGIN_DRAIN? || a.END_DRAIN?)
    ensures Inv(t)
  {
    hide Commands, Ascending, Placed, OnePlace, InOrder, Pending;
    StayPlaced(s, t);
    OrderStays(s, t);
  }

  lemma StayPlaced(s: Executor, t: Executor)
    requires Placed(s) && OnePlace(s)
    requires t.queue == s.queue && t.refused == s.refused && t.stops == s.stops
    requires t.posted == s.posted && t.states == s.states && t.taken == s.taken
    ensures Placed(t) && OnePlace(t)
  {
    hide Commands;
    assert forall c :: Pending(t, c) <==> Pending(s, c);
  }

  lemma RunSuffix(trace: seq<Executor>, actions: seq<Action>)
    requires IsRun(trace, actions) && actions != []
    ensures IsRun(trace[1..], actions[1..]) && Step(trace[0], actions[0], trace[1])
  {
    hide Step;
    var later := trace[1..];
    assert forall i :: 0 <= i < |actions[1..]| ==> Step(later[i], actions[1..][i], later[i + 1]);
  }

  lemma {:induction false} InvIsKept(trace: seq<Executor>, actions: seq<Action>, i: nat)
    requires IsRun(trace, actions) && Inv(trace[0]) && i < |trace|
    ensures Inv(trace[i])
    decreases i
  {
    hide Inv, Step;
    if i > 0 {
      InvIsKept(trace, actions, i - 1);
      StepKeepsInv(trace[i - 1], actions[i - 1], trace[i]);
    }
  }

  /** A run of a new executor. */
  ghost predicate IsRunFromStart(trace: seq<Executor>, actions: seq<Action>) {
    IsRun(trace, actions) && trace[0] == INITIAL
  }

  /** At every point of every run every command is in exactly one place. */
  lemma RunKeepsInv(trace: seq<Executor>, actions: seq<Action>, i: nat)
    requires IsRunFromStart(trace, actions) && i < |trace|
    ensures Inv(trace[i])
  {
    InitialInv();
    InvIsKept(trace, actions, i);
  }

  // -------------------------------------------------------------- theorems

  /** How many unframed commands wait ahead of position k. */
  ghost function UnframedAhead(queue: seq<Entry>, k: nat): nat
    requires k <= |queue|
  {
    if k == 0 then 0 else UnframedAhead(queue, k - 1) + if queue[k - 1].origin.None? then 1 else 0
  }

  lemma {:induction false} UnframedAheadPrefix(p: seq<Entry>, q: seq<Entry>, k: nat)
    requires k <= |p| && k <= |q| && p[..k] == q[..k]
    ensures UnframedAhead(p, k) == UnframedAhead(q, k)
  {
    if k > 0 {
      assert p[..k][k - 1] == q[..k][k - 1];
      assert p[..k - 1] == p[..k][..k - 1] && q[..k - 1] == q[..k][..k - 1];
      UnframedAheadPrefix(p, q, k - 1);
    }
  }

  lemma {:induction false} UnframedAheadWithout(queue: seq<Entry>, j: nat, k: nat)
    requires j < k <= |queue|
    ensures UnframedAhead(WithoutEntry(queue, j), k - 1) ==
            UnframedAhead(queue, k) - if queue[j].origin.None? then 1 else 0
    decreases k
  {
    var rest := WithoutEntry(queue, j);
    if k == j + 1 {
      assert rest[..j] == queue[..j];
      UnframedAheadPrefix(rest, queue, j);
    } else {
      UnframedAheadWithout(queue, j, k - 1);
      assert rest[k - 2] == queue[k - 1];
    }
  }

  /** The most dispatches that can still come before the unframed command at position k, itself included. */
  ghost function Patience(s: Executor, k: nat): int
    requires k <= |s.queue|
  {
    9 * UnframedAhead(s.queue, k) + 9 - s.burst
  }

  ghost predicate IsAt(s: Executor, c: nat, k: nat) {
    k < |s.queue| && s.queue[k].command == c && s.queue[k].origin.None?
  }

  /** One dispatch either serves the command or brings it closer; nothing posted later delays it. */
  lemma TakeBringsCloser(s: Executor, c: nat, k: nat, l: nat)
    requires Inv(s) && IsAt(s, c, k) && IsChoice(s.queue, s.burst, l)
    ensures Patience(s, k) >= 1
    ensures l != k ==>
              exists k' :: IsAt(Taken(s, l), c, k') && Patience(Taken(s, l), k') <= Patience(s, k) - 1
  {
    hide Placed, OnePlace, InOrder, Numbered;
    var t := Taken(s, l);
    if l < k {
      UnframedAheadWithout(s.queue, l, k);
      assert IsAt(t, c, k - 1);
    } else if l > k {
      assert t.queue[..k] == s.queue[..k];
      UnframedAheadPrefix(t.queue, s.queue, k);
      assert IsAt(t, c, k);
    }
  }

  ghost function Dispatches(actions: seq<Action>): nat {
    if actions == [] then 0 else Dispatches(actions[1..]) + if actions[0] == TAKE then 1 else 0
  }

  lemma {:induction false} LeavesTheQueue(trace: seq<Executor>, actions: seq<Action>, c: nat, k: nat)
    requires IsRun(trace, actions) && Inv(trace[0]) && IsAt(trace[0], c, k)
    requires Dispatches(actions) >= Patience(trace[0], k)
    ensures exists i :: 0 <= i < |trace| && c !in Commands(trace[i].queue)
    decreases |actions|
  {
    hide Step, Commands;
    var s := trace[0];
    assert s.burst <= FRAME_BURST;
    if actions == [] {
    } else {
      var t := trace[1];
      RunSuffix(trace, actions);
      StepKeepsInv(s, actions[0], t);
      var later := trace[1..];
      if c in Commands(t.queue) {
        var k' := StaysOrCloser(s, actions[0], t, c, k);
        LeavesTheQueue(later, actions[1..], c, k');
        var i :| 0 <= i < |later| && c !in Commands(later[i].queue);
        assert trace[i + 1] == later[i];
      }
    }
  }

  lemma RunFrom(trace: seq<Executor>, actions: seq<Action>, i: nat)
    requires IsRun(trace, actions) && i < |trace|
    ensures IsRun(trace[i..], actions[i..])
  {
    hide Step;
    var later := trace[i..];
    assert forall j :: 0 <= j < |actions[i..]| ==> Step(later[j], actions[i..][j], later[j + 1]);
  }

  /**
   * At any point of a run, an unframed command with n unframed commands ahead of it leaves the queue within
   * 9(n + 1) dispatches, whatever else is posted, finished, stopped or restarted meanwhile.
   */
  lemma UnframedIsNotStarved(trace: seq<Executor>, actions: seq<Action>, start: nat, c: nat, k: nat)
    requires IsRunFromStart(trace, actions) && start < |trace| && IsAt(trace[start], c, k)
    requires Dispatches(actions[start..]) >= 9 * (UnframedAhead(trace[start].queue, k) + 1)
    ensures exists i :: start <= i < |trace| && c !in Commands(trace[i].queue)
  {
    hide Inv, Step, Commands;
    RunKeepsInv(trace, actions, start);
    RunFrom(trace, actions, start);
    var later := trace[start..];
    assert later[0] == trace[start];
    LeavesTheQueue(later, actions[start..], c, k);
    var i :| 0 <= i < |later| && c !in Commands(later[i].queue);
    assert trace[start + i] == later[i];
  }

  /** A command that stays queued over a step has not lost ground, and a dispatch brought it closer. */
  lemma StaysOrCloser(s: Executor, a: Action, t: Executor, c: nat, k: nat) returns (k': nat)
    requires Inv(s) && Inv(t) && Step(s, a, t) && IsAt(s, c, k) && c in Commands(t.queue)
    ensures IsAt(t, c, k')
    ensures Patience(t, k') <= Patience(s, k) - if a == TAKE then 1 else 0
  {
    hide Placed, OnePlace, InOrder, Numbered;
    k' := k;
    match a
    case POST(_, _) =>
      assert t.queue[..k] == s.queue[..k];
      UnframedAheadPrefix(t.queue, s.queue, k);
    case TAKE =>
      var l: nat :| IsChoice(s.queue, s.burst, l) && t == Taken(s, l);
      k' := StaysOverTake(s, c, k, l);
    case _ =>
  }

  lemma StaysOverTake(s: Executor, c: nat, k: nat, l: nat) returns (k': nat)
    requires Inv(s) && IsAt(s, c, k) && IsChoice(s.queue, s.burst, l) && l < |s.queue|
    requires c in Commands(Taken(s, l).queue)
    ensures IsAt(Taken(s, l), c, k') && Patience(Taken(s, l), k') <= Patience(s, k) - 1
  {
    CommandsWithout(s.queue, l);
    TakeBringsCloser(s, c, k, l);
    hide Inv, IsChoice, Commands, Patience;
    assert l != k;
    k' :| IsAt(Taken(s, l), c, k') && Patience(Taken(s, l), k') <= Patience(s, k) - 1;
  }

  lemma ChosenIsPending(s: Executor, k: nat)
    requires Numbered(s) && IsChoice(s.queue, s.burst, k)
    ensures k < |s.queue| && Pending(s, s.queue[k].command) && s.queue[k].command in s.posted
  {
    hide Commands;
    assert s.queue[k] in s.queue;
    CommandsWithout(s.queue, k);
  }

  lemma MarkIsFinal(s: Executor, a: Action, t: Executor, c: nat)
    requires Inv(s) && Step(s, a, t) && c in s.states
    ensures c in t.states && t.posted[c] == s.posted[c]
    ensures IsTerminal(s.states[c]) ==> t.states[c] == s.states[c]
  {
    hide OnePlace, InOrder, Commands, Generations, Ascending, WithoutEntry;
    match a
    case TAKE =>
      var k: nat :| IsChoice(s.queue, s.burst, k) && t == Taken(s, k);
      ChosenIsPending(s, k);
    case SKIP(i, x) => assert Pending(s, x);
    case SKIP_REFUSED(x) => assert Pending(s, x);
    case POST(_, _) => assert c != s.next;
    case _ =>
  }

  lemma {:induction false} MarkedForGood(trace: seq<Executor>, actions: seq<Action>, i: nat, j: nat, c: nat)
    requires IsRunFromStart(trace, actions) && i <= j < |trace| && c in trace[i].states && c in trace[i].posted
    ensures c in trace[j].states && c in trace[j].posted && trace[j].posted[c] == trace[i].posted[c]
    ensures IsTerminal(trace[i].states[c]) ==> trace[j].states[c] == trace[i].states[c]
    decreases j
  {
    if i < j {
      MarkedForGood(trace, actions, i, j - 1, c);
      RunKeepsInv(trace, actions, j - 1);
      RunKeepsInv(trace, actions, j);
      assert Numbered(trace[j]) && Numbered(trace[j - 1]);
      hide Inv, Step;
      MarkIsFinal(trace[j - 1], actions[j - 1], trace[j], c);
    }
  }

  /**
   * Over the whole run a finished command is never marked again, and while a command runs the executor is in the
   * generation for which it was posted.
   */
  lemma TerminalIsFinal(trace: seq<Executor>, actions: seq<Action>, i: nat, j: nat, c: nat)
    requires IsRunFromStart(trace, actions) && i <= j < |trace| && c in trace[i].posted
    ensures c in trace[i].states && c in trace[j].states && c in trace[j].posted
    ensures IsTerminal(trace[i].states[c]) ==> trace[j].states[c] == trace[i].states[c]
    ensures trace[j].states[c] == RUNNING ==> trace[i].posted[c] == trace[j].generation
  {
    RunKeepsInv(trace, actions, i);
    RunKeepsInv(trace, actions, j);
    assert Numbered(trace[i]) && Placed(trace[j]) && Generations(trace[j]);
    hide Inv, Step;
    MarkedForGood(trace, actions, i, j, c);
  }

  /** Once a stop has unwound and no late command is left to mark, every command ever posted has finished. */
  lemma StoppedMeansFinished(trace: seq<Executor>, actions: seq<Action>, i: nat)
    requires IsRunFromStart(trace, actions) && i < |trace|
    requires !trace[i].running && trace[i].taken.None? && trace[i].stops == map[] && trace[i].refused == {}
    ensures forall c :: c in trace[i].posted ==> c in trace[i].states && IsTerminal(trace[i].states[c])
  {
    RunKeepsInv(trace, actions, i);
    var s := trace[i];
    forall c | c in s.posted
      ensures c in s.states && IsTerminal(s.states[c])
    {
      assert !Pending(s, c) by { assert Commands(s.queue) == {}; }
    }
  }
}

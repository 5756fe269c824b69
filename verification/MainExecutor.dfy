/** The locked blocks of application/runtime/main_executor.cpp; each is one step of the state machine. */
module MainExecutorClass {
  import opened Wrappers
  import opened MainExecutorSpec
  import opened ExecutorOutcomes

  datatype ExecutorError = CANNOT_START | NEVER_STARTED | REENTRANT

  class MainExecutor {
    var queue: seq<Entry>
    var frameBurst: nat
    var running: bool
    var draining: bool
    var generation: nat
    var taken: Option<Entry>
    var stops: map<nat, set<nat>>
    var refused: set<nat>
    var states: map<nat, CommandState>
    ghost var posted: map<nat, nat>
    var next: nat
    ghost var dispatched: seq<Entry>

    ghost function View(): Executor
      reads this
    {
      Executor(queue, frameBurst, running, draining, generation, taken, stops, refused, states, posted, next, dispatched)
    }

    constructor ()
      ensures View() == INITIAL && Inv(View())
    {
      queue, frameBurst, running, draining, generation, taken := [], 0, false, false, 0, None;
      stops, refused, states, posted, next, dispatched := map[], {}, map[], map[], 0, [];
    }

    method Start() returns (result: Result<nat, ExecutorError>)
      modifies this
      ensures result.Ok? <==> Enabled(old(View()), START)
      ensures result.Ok? ==> Step(old(View()), START, View()) && result.value == generation
      ensures result.Err? <==> old(running) || old(draining) || old(stops) != map[]
      ensures result.Ok? ==> running && generation == old(generation) + 1 && frameBurst == 0 && queue == old(queue)
      ensures result.Err? ==> View() == old(View())
    {
      if running || draining || stops != map[] {
        return Err(CANNOT_START);
      }
      generation := generation + 1;
      running := true;
      frameBurst := 0;
      return Ok(generation);
    }

    /** Queues a command, or hands it back to be skipped when the executor is stopped or restarted. */
    method Post(wanted: nat, origin: Option<Origin>) returns (result: Result<nat, ExecutorError>)
      modifies this
      ensures result.Ok? <==> Enabled(old(View()), POST(wanted, origin))
      ensures result.Ok? ==> Step(old(View()), POST(wanted, origin), View()) && result.value == old(next)
      ensures result.Err? <==> old(generation) == 0
      ensures result.Ok? && old(running) && wanted == old(generation) ==>
        queue == old(queue) + [Entry(origin, result.value)] && refused == old(refused)
      ensures result.Ok? && !(old(running) && wanted == old(generation)) ==>
        queue == old(queue) && refused == old(refused) + {result.value}
      ensures result.Err? ==> View() == old(View())
    {
      hide IsChoice, Taken;
      if generation == 0 {
        return Err(NEVER_STARTED);
      }
      var command := next;
      next := next + 1;
      states := states[command := QUEUED];
      posted := posted[command := wanted];
      if running && wanted == generation {
        queue := queue + [Entry(origin, command)];
      } else {
        refused := refused + {command};
      }
      return Ok(command);
    }

    /** Scans the queue for the first framed command of least origin and the first unframed one. */
    method Select() returns (selected: nat)
      requires queue != []
      ensures IsChoice(queue, frameBurst, selected)
      ensures forall j :: 0 <= j < |queue| && queue[selected].origin.Some? && queue[j].origin.Some? ==>
        var a, b := queue[selected].origin.value, queue[j].origin.value;
        || a.runGeneration < b.runGeneration
        || (a.runGeneration == b.runGeneration && a.frameSequence < b.frameSequence)
        || (a.runGeneration == b.runGeneration && a.frameSequence == b.frameSequence && selected <= j)
      ensures forall j :: 0 <= j < selected && queue[selected].origin.None? ==> queue[j].origin.Some?
      ensures forall j :: 0 <= j < |queue| && queue[selected].origin.Some? && queue[j].origin.None? ==> frameBurst < 8
      ensures forall j :: 0 <= j < |queue| && queue[selected].origin.None? && queue[j].origin.Some? ==> frameBurst >= 8
    {
      selected := Scan();
      ChoiceMeans(queue, frameBurst, selected);
    }

    /** The scan itself. */
    method Scan() returns (selected: nat)
      requires queue != []
      ensures IsChoice(queue, frameBurst, selected)
    {
      var framed: nat := |queue|;
      var unframed: nat := |queue|;
      for i := 0 to |queue|
        invariant unframed < i || (unframed == |queue| && forall j :: 0 <= j < i ==> queue[j].origin.Some?)
        invariant unframed < i ==> queue[unframed].origin.None? && forall j :: 0 <= j < unframed ==> queue[j].origin.Some?
        invariant framed < i || (framed == |queue| && forall j :: 0 <= j < i ==> queue[j].origin.None?)
        invariant framed < i ==> queue[framed].origin.Some?
        invariant framed < i ==> LeastUpTo(queue, framed, i)
      {
        var origin := queue[i].origin;
        if origin.None? {
          if unframed == |queue| {
            unframed := i;
          }
        } else if framed == |queue| || Earlier(origin.value, queue[framed].origin.value) {
          framed := i;
        }
      }
      assert if queue[0].origin.Some? then framed < |queue| else unframed < |queue|;
      if framed == |queue| || (unframed != |queue| && frameBurst >= FRAME_BURST) {
        return unframed;
      }
      return framed;
    }

    method BeginDrain() returns (result: Result<(), ExecutorError>)
      modifies this`draining
      ensures result.Ok? <==> Enabled(old(View()), BEGIN_DRAIN)
      ensures result.Ok? ==> Step(old(View()), BEGIN_DRAIN, View())
      ensures result.Err? ==> View() == old(View())
    {
      if draining {
        return Err(REENTRANT);
      }
      draining := true;
      return Ok(());
    }

    /** Takes the next command off the queue, unless there is none or the executor was stopped. */
    method TakeNext() returns (entry: Option<Entry>)
      requires draining && taken.None? && frameBurst <= FRAME_BURST
      modifies this
      ensures entry.None? ==> View() == old(View()) && !Enabled(View(), TAKE)
      ensures entry.Some? ==> Step(old(View()), TAKE, View()) && taken == entry
      ensures entry.None? <==> !old(running) || old(queue) == []
      ensures entry.Some? ==>
        && states == old(states)[entry.value.command := RUNNING]
        && frameBurst == (if entry.value.origin.None? then 0 else if old(frameBurst) < 8 then old(frameBurst) + 1 else 8)
        && exists k :: 0 <= k < |old(queue)| && old(queue)[k] == entry.value && queue == old(queue)[..k] + old(queue)[k + 1..]
    {
      hide IsChoice;
      if !running || queue == [] {
        return None;
      }
      var selected := Select();
      ghost var s := View();
      var e := queue[selected];
      frameBurst :=
        if e.origin.Some? then (if FRAME_BURST < frameBurst + 1 then FRAME_BURST else frameBurst + 1) else 0;
      queue := WithoutEntry(queue, selected);
      taken := Some(e);
      states := states[e.command := RUNNING];
      dispatched := dispatched + [e];
      assert View() == Taken(s, selected);
      return Some(e);
    }

    method Finish(ok: bool)
      requires taken.Some?
      modifies this
      ensures Step(old(View()), FINISH(ok), View())
      ensures taken == None && queue == old(queue)
      ensures states == old(states)[old(taken).value.command := if ok then COMPLETED else FAILED]
    {
      states := states[taken.value.command := if ok then COMPLETED else FAILED];
      taken := None;
    }

    method EndDrain()
      requires draining && taken.None?
      modifies this`draining
      ensures Step(old(View()), END_DRAIN, View())
    {
      draining := false;
    }

    /** Stops accepting and dispatching at once; the queued commands are now this stop's to mark. */
    method BeginStop(stop: nat)
      requires stop !in stops
      modifies this
      ensures Step(old(View()), BEGIN_STOP(stop), View())
      ensures !running && queue == [] && stop in stops && states == old(states)
      ensures forall c :: c in stops[stop] <==> exists e :: e in old(queue) && e.command == c
    {
      running := false;
      stops := stops[stop := set e | e in queue :: e.command];
      queue := [];
    }

    method Skip(stop: nat, command: nat)
      requires stop in stops && command in stops[stop]
      modifies this
      ensures Step(old(View()), SKIP(stop, command), View())
      ensures states == old(states)[command := SKIPPED] && stops == old(stops)[stop := old(stops)[stop] - {command}]
    {
      states := states[command := SKIPPED];
      stops := stops[stop := stops[stop] - {command}];
    }

    method SkipRefused(command: nat)
      requires command in refused
      modifies this
      ensures Step(old(View()), SKIP_REFUSED(command), View())
      ensures states == old(states)[command := SKIPPED] && refused == old(refused) - {command}
    {
      states := states[command := SKIPPED];
      refused := refused - {command};
    }

    method EndStop(stop: nat)
      requires stop in stops && stops[stop] == {}
      modifies this`stops
      ensures Step(old(View()), END_STOP(stop), View())
    {
      stops := stops - {stop};
    }
  }

  /** Among the first n commands, the framed one at k has the least origin, and is the first to have it. */
  ghost predicate LeastUpTo(queue: seq<Entry>, k: nat, n: nat)
    requires k < n <= |queue| && queue[k].origin.Some?
  {
    && (forall j :: 0 <= j < n && queue[j].origin.Some? ==> !Earlier(queue[j].origin.value, queue[k].origin.value))
    && (forall j :: 0 <= j < k && queue[j].origin.Some? ==> queue[j].origin.value != queue[k].origin.value)
  }
}

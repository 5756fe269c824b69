/** What the coordinator promises, for every interleaving of its calls and of the running operations. */
module CoordinatorTheorems {
  import opened Wrappers
  import opened Reordering
  import opened AccessScopes
  import opened CoordinatorSpec
  import opened CoordinatorInvariant
  import opened CoordinatorSteps

  // -------------------------------------------------------- serializability

  /** A cell of the stored data, or the private memory of a running operation. */
  datatype Location = Stored(domain: DomainKey, cell: Cell) | Scratch(op: nat)

  ghost predicate Sees(ops: seq<Operation>, e: Event, l: Location) {
    && e.op < |ops|
    && if l.Stored? then MayTouch(ops[e.op].footprints, l.domain, l.cell) else l.op == e.op
  }

  ghost predicate Changes(ops: seq<Operation>, e: Event, l: Location) {
    && e.op < |ops|
    && if l.Stored? then MayChange(ops[e.op].footprints, l.domain, l.cell) else l.op == e.op
  }

  /** An access stays inside the declared footprints of its operation. */
  ghost function AccessFootprintOf(ops: seq<Operation>): Event -> Footprint<Location> {
    (e: Event) => Footprint(iset l: Location | Sees(ops, e, l), iset l: Location | Changes(ops, e, l))
  }

  ghost predicate AccessesConflict(ops: seq<Operation>, e: Event, f: Event) {
    && e.op < |ops| && f.op < |ops|
    && (e.op == f.op || OperationsClash(ops[e.op].footprints, ops[f.op].footprints)
                     || OperationsClash(ops[f.op].footprints, ops[e.op].footprints))
  }

  lemma SharedLocationConflicts(ops: seq<Operation>, e: Event, f: Event, l: Location)
    requires FootprintsNormalized(ops)
    requires Changes(ops, e, l) && (Sees(ops, f, l) || Changes(ops, f, l))
    ensures AccessesConflict(ops, e, f)
  {
    if l.Stored? {
      SharedCellClashes(ops[e.op].footprints, ops[f.op].footprints, l.domain, l.cell);
    }
  }

  lemma ClashingAccessesConflict(ops: seq<Operation>)
    requires FootprintsNormalized(ops)
    ensures ClashesConflict(AccessFootprintOf(ops), (e, f) => AccessesConflict(ops, e, f))
  {
    var foot := AccessFootprintOf(ops);
    forall e: Event, f: Event | e != f && Clash(foot(e), foot(f))
      ensures AccessesConflict(ops, e, f)
    {
      if foot(e).outputs * foot(f).All() != iset{} {
        var l :| l in foot(e).outputs * foot(f).All();
        SharedLocationConflicts(ops, e, f, l);
      } else {
        var l :| l in foot(f).outputs * foot(e).All();
        SharedLocationConflicts(ops, f, e, l);
      }
    }
  }

  /** The accesses of one operation, in the order they were made. */
  ghost function AccessesOf(history: seq<Event>, op: nat): seq<Event> {
    if history == [] then []
    else
      var last := history[|history| - 1];
      AccessesOf(history[..|history| - 1], op) + if last.op == op then [last] else []
  }

  /** The same accesses, one operation after the other in admission order. */
  ghost function Serial(history: seq<Event>, count: nat): seq<Event> {
    if count == 0 then [] else Serial(history, count - 1) + AccessesOf(history, count - 1)
  }

  lemma {:induction false} AccessesOfElements(history: seq<Event>, op: nat)
    ensures forall e :: e in AccessesOf(history, op) <==> e in history && e.op == op
  {
    if history != [] {
      var init, last := history[..|history| - 1], history[|history| - 1];
      AccessesOfElements(init, op);
      assert history == init + [last];
    }
  }

  lemma {:induction false} AccessesOfDistinct(history: seq<Event>, op: nat)
    requires Distinct(history)
    ensures Distinct(AccessesOf(history, op))
  {
    if history != [] {
      var init, last := history[..|history| - 1], history[|history| - 1];
      AccessesOfDistinct(init, op);
      AccessesOfElements(init, op);
      var some := AccessesOf(init, op);
      assert last !in init;
      assert forall i :: 0 <= i < |some| ==> some[i] in some;
    }
  }

  lemma {:induction false} AccessesOfKeepsOrder(history: seq<Event>, op: nat, x: nat, y: nat)
    requires x < y < |history| && history[x].op == op && history[y].op == op
    ensures Precedes(AccessesOf(history, op), history[x], history[y])
  {
    var init, last := history[..|history| - 1], history[|history| - 1];
    var some, all := AccessesOf(init, op), AccessesOf(history, op);
    if y < |init| {
      AccessesOfKeepsOrder(init, op, x, y);
      var i, j :| 0 <= i < j < |some| && some[i] == history[x] && some[j] == history[y];
      assert all[i] == history[x] && all[j] == history[y];
    } else {
      AccessesOfElements(init, op);
      assert init[x] == history[x] && history[x] in some;
      var i :| 0 <= i < |some| && some[i] == history[x];
      assert all[i] == history[x] && all[|some|] == history[y];
    }
  }

  lemma {:induction false} SerialElements(history: seq<Event>, count: nat)
    ensures forall e :: e in Serial(history, count) <==> e in history && e.op < count
  {
    hide AccessesOf;
    if count > 0 {
      var last: nat := count - 1;
      SerialElements(history, last);
      AccessesOfElements(history, last);
      var front, back := Serial(history, last), AccessesOf(history, last);
      assert Serial(history, count) == front + back;
      assert forall e :: e in front + back <==> e in front || e in back;
    }
  }

  lemma {:induction false} SerialDistinct(history: seq<Event>, count: nat)
    requires Distinct(history)
    ensures Distinct(Serial(history, count))
  {
    hide Distinct, AccessesOf;
    NothingIsDistinct();
    if count > 0 {
      SerialDistinct(history, count - 1);
      AccessesOfDistinct(history, count - 1);
      SerialElements(history, count - 1);
      AccessesOfElements(history, count - 1);
      DistinctJoined(Serial(history, count - 1), AccessesOf(history, count - 1));
    }
  }

  lemma NothingIsDistinct()
    ensures Distinct<Event>([])
  {
  }

  lemma DistinctJoined<T>(front: seq<T>, back: seq<T>)
    requires Distinct(front) && Distinct(back) && forall x :: x in front ==> x !in back
    ensures Distinct(front + back)
  {
    forall i, j | 0 <= i < |front| && 0 <= j < |back|
      ensures front[i] != back[j]
    {
      assert front[i] in front && back[j] in back;
    }
  }

  lemma {:induction false} SerialKeepsOrder(history: seq<Event>, count: nat, x: nat, y: nat)
    requires x < y < |history| && history[x].op <= history[y].op < count
    ensures Precedes(Serial(history, count), history[x], history[y])
    decreases count
  {
    hide AccessesOf;
    var front, back, all := Serial(history, count - 1), AccessesOf(history, count - 1), Serial(history, count);
    if history[y].op < count - 1 {
      SerialKeepsOrder(history, count - 1, x, y);
      var i, j :| 0 <= i < j < |front| && front[i] == history[x] && front[j] == history[y];
      assert all[i] == history[x] && all[j] == history[y];
    } else if history[x].op == count - 1 {
      AccessesOfKeepsOrder(history, count - 1, x, y);
      var i, j :| 0 <= i < j < |back| && back[i] == history[x] && back[j] == history[y];
      assert all[|front| + i] == history[x] && all[|front| + j] == history[y];
    } else {
      SerialElements(history, count - 1);
      AccessesOfElements(history, count - 1);
      assert history[x] in front && history[y] in back;
      var i :| 0 <= i < |front| && front[i] == history[x];
      var j :| 0 <= j < |back| && back[j] == history[y];
      assert all[i] == history[x] && all[|front| + j] == history[y];
    }
  }

  lemma SerialReordersHistory(s: State)
    requires HistorySound(s) && FootprintsNormalized(s.operations)
    ensures Reorders((e, f) => AccessesConflict(s.operations, e, f), s.history, Serial(s.history, |s.operations|))
  {
    var serial := Serial(s.history, |s.operations|);
    assert Distinct(s.history) by {
      forall i, j | 0 <= i < j < |s.history|
        ensures s.history[i] != s.history[j]
      {
        assert s.history[i].at != s.history[j].at;
      }
    }
    SerialDistinct(s.history, |s.operations|);
    SerialElements(s.history, |s.operations|);
    forall i, j | 0 <= i < j < |s.history| && AccessesConflict(s.operations, s.history[i], s.history[j])
      ensures Precedes(serial, s.history[i], s.history[j])
    {
      ConflictsGoForward(s, i, j);
      SerialKeepsOrder(s.history, |s.operations|, i, j);
    }
  }

  lemma ConflictsGoForward(s: State, i: nat, j: nat)
    requires HistorySound(s) && FootprintsNormalized(s.operations)
    requires i < j < |s.history| && AccessesConflict(s.operations, s.history[i], s.history[j])
    ensures s.history[i].op <= s.history[j].op
  {
    var e, f := s.history[i], s.history[j];
    if f.op < e.op && OperationsClash(s.operations[e.op].footprints, s.operations[f.op].footprints) {
      OperationsClashSymmetric(s.operations[e.op].footprints, s.operations[f.op].footprints);
    }
  }

  /** Serializability.  Whatever the accesses do inside the declared footprints, every
      interleaving leaves the store that running the same accesses one operation after the
      other in admission order leaves, and every access sees the same cells. */
  lemma InterleavingsAreSerializable<Val(!new)>(
      s: State, act: (Event, map<Location, Val>) -> map<Location, Val>, store: map<Location, Val>)
    requires Reachable(s) && AllConfined(act, AccessFootprintOf(s.operations))
    ensures var serial := Serial(s.history, |s.operations|);
      && Run(act, s.history, store) == Run(act, serial, store)
      && forall i, j :: 0 <= i < |s.history| && 0 <= j < |serial| && s.history[i] == serial[j] ==>
           Seen(AccessFootprintOf(s.operations))(s.history[i], Run(act, s.history[..i], store))
             == Seen(AccessFootprintOf(s.operations))(serial[j], Run(act, serial[..j], store))
  {
    ReachableSound(s);
    ClashingAccessesConflict(s.operations);
    SerialReordersHistory(s);
    FootprintReordering(act, AccessFootprintOf(s.operations), (e, f) => AccessesConflict(s.operations, e, f),
                        s.history, Serial(s.history, |s.operations|), store);
  }

  // ---------------------------------------------- dependencies and failures

  /** An operation has run at least in part. */
  ghost predicate HasRun(s: State, i: nat) {
    exists x :: 0 <= x < |s.history| && s.history[x].op == i
  }

  /** Whatever runs, or has made an access, runs behind completed work only: all its dependencies
      have completed and every earlier operation it clashes with has ended. */
  lemma OnlyCompletedWorkIsConsumed(s: State, j: nat)
    requires Reachable(s) && j < |s.operations|
    requires s.operations[j].status == RUNNING || HasRun(s, j)
    ensures forall d :: d in s.operations[j].dependencies ==> d < j && s.operations[d].status == COMPLETED
    ensures forall i :: 0 <= i < j ==>
      OperationsClash(s.operations[i].footprints, s.operations[j].footprints) ==> IsTerminal(s.operations[i].status)
  {
    ReachableSound(s);
    if HasRun(s, j) {
      var x :| 0 <= x < |s.history| && s.history[x].op == j;
      assert s.operations[s.history[x].op].status in {RUNNING, COMPLETED, FAILED};
    }
    forall d | d in s.operations[j].dependencies
      ensures d < j && s.operations[d].status == COMPLETED
    {
    }
  }

  /** Behind failed or cancelled work nothing ever runs. */
  lemma FailureIsNeverConsumed(s: State, j: nat, d: nat)
    requires Reachable(s) && j < |s.operations| && d in s.operations[j].dependencies
    requires d < |s.operations| && s.operations[d].status in {FAILED, CANCELLED}
    ensures s.operations[j].status in {WAITING, CANCELLED} && !HasRun(s, j)
  {
    ReachableSound(s);
  }

  /** The owners of everything a running operation may touch are alive. */
  lemma RunningKeepsOwnersAlive(s: State, i: nat, f: AccessFootprint)
    requires Reachable(s) && i < |s.operations| && s.operations[i].HoldsAccess() && f in s.operations[i].footprints
    ensures TokenHeld(s.domains, f.domain)
  {
    ReachableSound(s);
  }

  // ------------------------------------------------------------ no deadlock

  lemma {:induction false} FirstWaitingIsActionable(ops: seq<Operation>, i: nat)
    requires OperationsSound(ops) && i < |ops| && ops[i].status == WAITING
    requires forall k :: 0 <= k < |ops| ==> ops[k].status !in {QUEUED, RUNNING}
    ensures exists k: nat :: Actionable(ops, k)
    decreases i
  {
    if d :| d in ops[i].dependencies && ops[d].status == WAITING {
      FirstWaitingIsActionable(ops, d);
    } else {
      assert Actionable(ops, i) by {
        if !HasFailedDependency(ops, ops[i]) {
          forall d | d in ops[i].dependencies
            ensures d < |ops| && ops[d].status == COMPLETED
          {
            assert d < i;
          }
        }
      }
    }
  }

  ghost predicate NothingActive(ops: seq<Operation>) {
    forall i :: 0 <= i < |ops| ==> ops[i].status !in {QUEUED, RUNNING}
  }

  /** The coordinator never deadlocks: when no call is inside Progress and nothing is queued
      or running, every operation has ended; when no call is releasing payloads either, all
      payloads are gone. */
  lemma NoDeadlock(s: State)
    requires Reachable(s) && !SomeThread(s, Advances) && NothingActive(s.operations)
    ensures forall i :: 0 <= i < |s.operations| ==> IsTerminal(s.operations[i].status)
    ensures !SomeThread(s, Releases) ==> !SomeHoldsAccess(s.operations)
  {
    ReachableSound(s);
    AllEnded(s);
  }

  lemma AllEnded(s: State)
    requires Inv(s) && !SomeThread(s, Advances) && NothingActive(s.operations)
    ensures forall i :: 0 <= i < |s.operations| ==> IsTerminal(s.operations[i].status)
    ensures !SomeThread(s, Releases) ==> !SomeHoldsAccess(s.operations)
  {
    forall i | 0 <= i < |s.operations|
      ensures IsTerminal(s.operations[i].status)
    {
      if s.operations[i].status == WAITING {
        FirstWaitingIsActionable(s.operations, i);
      }
    }
    if !SomeThread(s, Releases) {
      forall i | 0 <= i < |s.operations|
        ensures !s.operations[i].HoldsAccess()
      {
        assert !Releasable(s.operations[i]);
        if s.operations[i].retiring {
          RetiringIsReleasing(s, i);
        }
      }
    }
  }

  lemma RetiringIsReleasing(s: State, i: nat)
    requires RetirersMatch(s) && i < |s.operations| && s.operations[i].retiring
    ensures SomeThread(s, Releases)
  {
    var t :| t in s.threads && s.threads[t].Retiring? && s.threads[t].index == i;
    assert Releases(s.threads[t]);
  }

  // ------------------------------------------------------------- the drain

  /** The drain callback is called at most once, and from the moment it is about to be called
      nothing runs, every operation has ended, every payload is retired and every token the
      coordinator held is gone. */
  lemma DrainIsOnceAndLast(s: State)
    requires Reachable(s)
    ensures s.drainCalls <= 1
    ensures s.drainCalls == 1 || (exists t :: t in s.threads && s.threads[t].CallingBack?) ==>
      && s.closed && s.sealed && s.running == 0 && s.retiring == 0 && s.domains == [] && s.released == []
      && forall i :: 0 <= i < |s.operations| ==>
           IsTerminal(s.operations[i].status) && !s.operations[i].hasFunction && !s.operations[i].retiring
  {
    ReachableSound(s);
    CountersZero(s);
    if s.sealCompleted {
      forall i | 0 <= i < |s.operations|
        ensures !s.operations[i].HoldsAccess()
      {
      }
    }
    if t :| t in s.threads && s.threads[t].CallingBack? { assert Draining(s.threads[t]); }
  }
}

// Deferred structural changes of a World (ecs/world.cpp): planning, producer buffers, publication, rollback and
// commit. Every reservation of the entity table is held in exactly one place until it is committed or given back.
module DeferredStructure {
  import opened Wrappers
  import opened Sorting
  import H = HierarchySpec
  import M = Hierarchy
  import L = HierarchyLinks
  import opened EntityTableSpec
  import E = EntityTable
  import opened StructuralCommands
  import opened ProducerBuffers
  import opened HierarchyShapes
  import opened StructuralEffects

  datatype PhaseError =
    | DUPLICATE_PRODUCER
    | RUNNING
    | OUTSIDE_SYSTEM
    | PHASE_ACTIVE
    | NO_RESERVATION_LEFT
    | BUFFERS_OUTSTANDING
    | COMMAND_FAILED

  /** What a system has recorded itself, under its structural order. */
  datatype SystemCommands = SystemCommands(order: nat, commands: seq<Command>)

  // ------------------------------------------------------------- holdings

  function CreatesOf(commands: seq<Command>): seq<Reservation> {
    if commands == [] then []
    else (if commands[0].CREATE? then [commands[0].reservation] else []) + CreatesOf(commands[1..])
  }

  lemma CreatesStep(a: seq<Command>)
    requires a != []
    ensures CreatesOf(a) == (if a[0].CREATE? then [a[0].reservation] else []) + CreatesOf(a[1..])
  {
  }

  lemma {:induction false} CreatesConcat(a: seq<Command>, b: seq<Command>)
    ensures CreatesOf(a + b) == CreatesOf(a) + CreatesOf(b)
    decreases |a|
  {
    if a == [] {
      assert a + b == b;
    } else {
      assert (a + b)[1..] == a[1..] + b;
      CreatesConcat(a[1..], b);
      CreatesStep(a);
      CreatesStep(a + b);
      hide CreatesOf;
    }
  }

  ghost function Total<T>(part: T -> multiset<Reservation>, xs: seq<T>): multiset<Reservation> {
    if xs == [] then multiset{} else part(xs[0]) + Total(part, xs[1..])
  }

  lemma {:induction false} TotalConcat<T>(part: T -> multiset<Reservation>, xs: seq<T>, ys: seq<T>)
    ensures Total(part, xs + ys) == Total(part, xs) + Total(part, ys)
  {
    if xs == [] {
      assert xs + ys == ys;
    } else {
      assert (xs + ys)[1..] == xs[1..] + ys;
      TotalConcat(part, xs[1..], ys);
    }
  }

  lemma TotalOne<T>(part: T -> multiset<Reservation>, x: T)
    ensures Total(part, [x]) == part(x)
  {
  }

  lemma TotalWithout<T>(part: T -> multiset<Reservation>, xs: seq<T>, k: nat)
    requires k < |xs|
    ensures Total(part, xs) == part(xs[k]) + Total(part, xs[..k] + xs[k + 1..])
  {
    assert xs == xs[..k] + ([xs[k]] + xs[k + 1..]);
    TotalConcat(part, xs[..k], [xs[k]] + xs[k + 1..]);
    TotalConcat(part, [xs[k]], xs[k + 1..]);
    TotalOne(part, xs[k]);
    TotalConcat(part, xs[..k], xs[k + 1..]);
    hide Total;
  }

  lemma TotalUpdate<T>(part: T -> multiset<Reservation>, xs: seq<T>, k: nat, x: T)
    requires k < |xs|
    ensures Total(part, xs[k := x]) + part(xs[k]) == Total(part, xs) + part(x)
  {
    TotalWithout(part, xs, k);
    TotalWithout(part, xs[k := x], k);
    assert xs[k := x][..k] + xs[k := x][k + 1..] == xs[..k] + xs[k + 1..];
  }

  lemma {:induction false} TotalRearranged<T>(part: T -> multiset<Reservation>, xs: seq<T>, ys: seq<T>)
    requires multiset(xs) == multiset(ys)
    ensures Total(part, xs) == Total(part, ys)
  {
    SameMembers(xs, ys);
    if xs != [] {
      var k := RemoveSame(xs, ys);
      TotalRearranged(part, xs[1..], ys[..k] + ys[k + 1..]);
      TotalWithout(part, ys, k);
    }
  }

  ghost function OfPlan(p: Plan): multiset<Reservation> { multiset(p.reservations) }

  ghost function OfBatch(b: Batch): multiset<Reservation> { multiset(CreatesOf(b.commands)) }

  ghost function OfBuffer(b: Buffer): multiset<Reservation> { multiset(CreatesOf(b.commands)) + multiset(b.unused) }

  lemma FlattenLast(batches: seq<Batch>)
    requires batches != []
    ensures var n := |batches| - 1; Flatten(batches) == Flatten(batches[..n]) + batches[n].commands
  {
  }

  lemma SplitLast<T>(xs: seq<T>)
    requires xs != []
    ensures xs == xs[..|xs| - 1] + [xs[|xs| - 1]]
  {
  }

  lemma OfBatchIsCreates(b: Batch)
    ensures OfBatch(b) == multiset(CreatesOf(b.commands))
  {
  }

  lemma NothingInNoBatch()
    ensures Flatten([]) == [] && CreatesOf([]) == [] && Total(OfBatch, []) == multiset{}
  {
  }

  lemma {:induction false} FlattenTotal(batches: seq<Batch>)
    ensures multiset(CreatesOf(Flatten(batches))) == Total(OfBatch, batches)
  {
    hide *;
    if batches == [] {
      NothingInNoBatch();
    } else {
      var n := |batches| - 1;
      var earlier, last := batches[..n], batches[n];
      FlattenLast(batches);
      SplitLast(batches);
      FlattenTotal(earlier);
      CreatesConcat(Flatten(earlier), last.commands);
      OfBatchIsCreates(last);
      TotalConcat(OfBatch, earlier, [last]);
      TotalOne(OfBatch, last);
    }
  }

  lemma LiveAdded(live: set<Reservation>, r: Reservation)
    requires r !in live
    ensures multiset(live + {r}) == multiset(live) + multiset{r}
  {
  }

  lemma LiveRemoved(live: set<Reservation>, r: Reservation, rest: multiset<Reservation>)
    requires multiset(live) == multiset{r} + rest
    ensures r in live && multiset(live - {r}) == rest
  {
    assert r in multiset(live);
    forall x
      ensures multiset(live - {r})[x] == rest[x]
    {
      assert multiset(live)[x] == (multiset{r} + rest)[x];
    }
  }

  /** The places where reservations are held. */
  datatype Holdings = Holdings(
    commands: seq<Command>,
    planned: seq<Plan>,
    batches: seq<Batch>,
    runBatches: seq<Batch>,
    buffers: seq<Buffer>)

  ghost function HeldBy(h: Holdings): multiset<Reservation> {
    multiset(CreatesOf(h.commands)) + Total(OfPlan, h.planned) + Total(OfBatch, h.batches) +
    Total(OfBatch, h.runBatches) + Total(OfBuffer, h.buffers)
  }

  predicate AnyClaimed(buffers: seq<Buffer>) { exists k :: 0 <= k < |buffers| && buffers[k].claimed }

  /** Unclaimed buffers hold nothing. */
  ghost predicate ClaimsMarked(buffers: seq<Buffer>) {
    forall k :: 0 <= k < |buffers| ==> buffers[k].claimed || OfBuffer(buffers[k]) == multiset{}
  }

  lemma CreatesOne(c: Command)
    ensures CreatesOf([c]) == if c.CREATE? then [c.reservation] else []
  {
    assert [c][1..] == [];
  }

  lemma AddPlan(h: Holdings, plan: Plan)
    ensures HeldBy(h.(planned := h.planned + [plan])) == HeldBy(h) + multiset(plan.reservations)
  {
    TotalConcat(OfPlan, h.planned, [plan]);
    TotalOne(OfPlan, plan);
    hide Total;
  }

  lemma AddCommand(h: Holdings, c: Command)
    ensures HeldBy(h.(commands := h.commands + [c])) ==
            HeldBy(h) + if c.CREATE? then multiset{c.reservation} else multiset{}
  {
    CreatesConcat(h.commands, [c]);
    CreatesOne(c);
    hide Total, CreatesOf;
  }

  /** One create command more, which promises the entity. */
  ghost predicate Creating(was: seq<Command>, now: seq<Command>, e: H.Entity) {
    |now| == |was| + 1 && now[..|was|] == was && now[|was|].CREATE? && now[|was|].reservation.identity == e
  }

  lemma CreateHeld(h: Holdings, live: set<Reservation>, r: Reservation)
    requires HeldBy(h) == multiset(live) && r !in live
    ensures HeldBy(h.(commands := h.commands + [CREATE(r)])) == multiset(live + {r})
  {
    hide HeldBy;
    AddCommand(h, CREATE(r));
    LiveAdded(live, r);
  }

  lemma OpenPlanned(h: Holdings, k: nat, key: ProducerKey)
    requires k < |h.planned|
    ensures var rs := h.planned[k].reservations;
            HeldBy(h.(planned := h.planned[..k] + h.planned[k + 1..],
                      buffers := h.buffers + [Buffer(key, rs != [], [], rs)])) == HeldBy(h)
  {
    var rs := h.planned[k].reservations;
    var b := Buffer(key, rs != [], [], rs);
    TotalWithout(OfPlan, h.planned, k);
    TotalConcat(OfBuffer, h.buffers, [b]);
    TotalOne(OfBuffer, b);
    assert OfBuffer(b) == OfPlan(h.planned[k]);
    hide Total, OfPlan, OfBuffer, CreatesOf;
    var rest := Total(OfPlan, h.planned[..k] + h.planned[k + 1..]);
    assert OfPlan(h.planned[k]) + rest == Total(OfPlan, h.planned);
  }

  lemma OpenUnplanned(h: Holdings, key: ProducerKey)
    ensures HeldBy(h.(buffers := h.buffers + [Buffer(key, false, [], [])])) == HeldBy(h)
  {
    var b := Buffer(key, false, [], []);
    TotalConcat(OfBuffer, h.buffers, [b]);
    TotalOne(OfBuffer, b);
    assert OfBuffer(b) == multiset{};
    hide Total, OfBuffer, CreatesOf;
  }

  lemma SumMoves(a: multiset<Reservation>, b: multiset<Reservation>, c: multiset<Reservation>, d: multiset<Reservation>,
                 x: multiset<Reservation>, y: multiset<Reservation>, given: multiset<Reservation>)
    requires y == given + x
    ensures a + b + c + d + y == given + (a + b + c + d + x)
  {
  }

  lemma DifferenceMoves(x: multiset<Reservation>, y: multiset<Reservation>, was: multiset<Reservation>,
                        now: multiset<Reservation>, given: multiset<Reservation>)
    requires x + was == y + now && was == given + now
    ensures y == given + x
  {
    forall r
      ensures y[r] == (given + x)[r]
    {
      assert (x + was)[r] == (y + now)[r];
    }
  }

  /** Replacing a buffer by one that holds the same, or by one and what it gave away. */
  lemma ReplaceBuffer(h: Holdings, id: nat, b: Buffer, given: multiset<Reservation>)
    requires id < |h.buffers| && OfBuffer(h.buffers[id]) == given + OfBuffer(b)
    ensures HeldBy(h) == given + HeldBy(h.(buffers := h.buffers[id := b]))
  {
    TotalUpdate(OfBuffer, h.buffers, id, b);
    hide Total, OfBuffer, CreatesOf;
    var x, y := Total(OfBuffer, h.buffers[id := b]), Total(OfBuffer, h.buffers);
    DifferenceMoves(x, y, OfBuffer(h.buffers[id]), OfBuffer(b), given);
    SumMoves(multiset(CreatesOf(h.commands)), Total(OfPlan, h.planned), Total(OfBatch, h.batches),
             Total(OfBatch, h.runBatches), x, y, given);
  }

  lemma TakeOne(b: Buffer)
    requires b.unused != []
    ensures var now := b.(commands := b.commands + [CREATE(b.unused[0])], unused := b.unused[1..]);
            OfBuffer(now) == OfBuffer(b)
  {
    CreatesConcat(b.commands, [CREATE(b.unused[0])]);
    CreatesOne(CREATE(b.unused[0]));
    assert b.unused == [b.unused[0]] + b.unused[1..];
    hide CreatesOf;
  }

  lemma PushOne(b: Buffer, c: Command)
    requires !c.CREATE?
    ensures OfBuffer(b.(commands := b.commands + [c])) == OfBuffer(b)
  {
    CreatesConcat(b.commands, [c]);
    CreatesOne(c);
    assert CreatesOf(b.commands) + [] == CreatesOf(b.commands);
  }

  /** Handing a buffer in: its commands move to a batch, what it did not use is given back. */
  lemma SubmitBuffer(h: Holdings, id: nat, batch: Batch, inRun: bool)
    requires id < |h.buffers| && batch.commands == h.buffers[id].commands
    ensures var done := h.buffers[id := Buffer(h.buffers[id].key, false, [], [])];
            HeldBy(h) == multiset(h.buffers[id].unused) +
              HeldBy(if inRun then h.(buffers := done, runBatches := h.runBatches + [batch])
                     else h.(buffers := done, batches := h.batches + [batch]))
  {
    hide Total;
    var b := h.buffers[id];
    var done := Buffer(b.key, false, [], []);
    assert OfBuffer(done) == multiset{};
    ReplaceBuffer(h, id, done, OfBuffer(b));
    TotalConcat(OfBatch, h.batches, [batch]);
    TotalConcat(OfBatch, h.runBatches, [batch]);
    TotalOne(OfBatch, batch);
    assert OfBuffer(b) == OfBatch(batch) + multiset(b.unused);
  }

  lemma DropBuffer(h: Holdings, id: nat)
    requires id < |h.buffers|
    ensures var b := h.buffers[id];
            HeldBy(h) == multiset(CreatesOf(b.commands) + b.unused) +
                         HeldBy(h.(buffers := h.buffers[id := Buffer(b.key, false, [], [])]))
  {
    var b := h.buffers[id];
    var done := Buffer(b.key, false, [], []);
    assert OfBuffer(done) == multiset{};
    assert OfBuffer(b) == multiset(CreatesOf(b.commands) + b.unused);
    hide OfBuffer;
    ReplaceBuffer(h, id, done, OfBuffer(b));
  }

  lemma PublishBatches(h: Holdings, own: seq<SystemCommands>, from: nat)
    requires forall s :: s in own ==> CreatesOf(s.commands) == []
    ensures HeldBy(h.(batches := h.batches + Numbered(OwnBatches(own) + h.runBatches, from), runBatches := [])) == HeldBy(h)
  {
    OwnHoldNothing(own);
    hide CreatesOf, OwnBatches, Numbered;
    NumberedHoldSame(OwnBatches(own) + h.runBatches, from);
    TotalConcat(OfBatch, OwnBatches(own), h.runBatches);
    TotalConcat(OfBatch, h.batches, Numbered(OwnBatches(own) + h.runBatches, from));
    assert Total(OfBatch, []) == multiset{};
    hide Total;
  }

  lemma DiscardHoldings(h: Holdings)
    ensures HeldBy(h) == multiset(CreatesOf(Flatten(h.runBatches)) + AllReservations(SystemPlans(h.planned))) +
                         HeldBy(h.(runBatches := [], planned := OtherPlans(h.planned)))
    ensures HeldBy(h) == Total(OfBatch, h.runBatches) + Total(OfPlan, SystemPlans(h.planned)) +
                         HeldBy(h.(runBatches := [], planned := OtherPlans(h.planned)))
  {
    FlattenTotal(h.runBatches);
    SplitPlans(h.planned);
    AllReservationsTotal(SystemPlans(h.planned));
    assert Total(OfBatch, []) == multiset{};
    hide Total, CreatesOf, Flatten, AllReservations, SystemPlans, OtherPlans;
  }

  lemma ReleasePlans(h: Holdings)
    ensures HeldBy(h) == multiset(AllReservations(h.planned)) + HeldBy(h.(planned := []))
  {
    AllReservationsTotal(h.planned);
    assert Total(OfPlan, []) == multiset{};
    hide Total, CreatesOf, AllReservations;
  }

  /** With no plan and no claim left, what is held is what the commands will create. */
  lemma AllInCommands(h: Holdings, sorted: seq<Batch>)
    requires h.planned == [] && h.runBatches == [] && multiset(sorted) == multiset(h.batches)
    requires forall k :: 0 <= k < |h.buffers| ==> OfBuffer(h.buffers[k]) == multiset{}
    ensures HeldBy(h) == multiset(CreatesOf(h.commands + Flatten(sorted)))
  {
    UnclaimedHoldNothing(h.buffers);
    TotalRearranged(OfBatch, sorted, h.batches);
    FlattenTotal(sorted);
    CreatesConcat(h.commands, Flatten(sorted));
    assert Total(OfPlan, []) == multiset{} && Total(OfBatch, []) == multiset{};
    hide Total, CreatesOf, Flatten;
  }

  lemma CommandsTaken(h: Holdings, sorted: seq<Batch>)
    requires h.planned == [] && h.runBatches == [] && multiset(sorted) == multiset(h.batches)
    requires ClaimsMarked(h.buffers) && !AnyClaimed(h.buffers)
    ensures HeldBy(h) == multiset(CreatesOf(h.commands + Flatten(sorted)))
    ensures |h.commands + Flatten(sorted)| == |h.commands| + CommandCount(h.batches)
  {
    hide HeldBy, OfBuffer, Flatten, CreatesOf, CommandCount;
    Unclaimed(h.buffers);
    AllInCommands(h, sorted);
    CountRearranged(sorted, h.batches);
    FlattenCount(sorted);
  }

  /** Only the remaining commands hold anything. */
  lemma OnlyCommands(h: Holdings)
    requires h.planned == [] && h.runBatches == [] && h.batches == []
    requires forall k :: 0 <= k < |h.buffers| ==> OfBuffer(h.buffers[k]) == multiset{}
    ensures HeldBy(h) == multiset(CreatesOf(h.commands))
  {
    UnclaimedHoldNothing(h.buffers);
    assert Total(OfPlan, []) == multiset{} && Total(OfBatch, []) == multiset{};
    hide Total, CreatesOf;
  }

  // ------------------------------------------------------- keys of the batches

  /** The systems' own lists, as batches; empty ones are left out. */
  function OwnBatches(own: seq<SystemCommands>): seq<Batch> {
    if own == [] then [] else OwnBatch(own[0]) + OwnBatches(own[1..])
  }

  function OwnBatch(s: SystemCommands): seq<Batch> {
    if s.commands == [] then [] else [Batch(SYSTEM, s.order, false, s.order, 0, s.commands)]
  }

  function Numbered(batches: seq<Batch>, from: nat): (numbered: seq<Batch>)
    ensures |numbered| == |batches|
    ensures forall i :: 0 <= i < |batches| ==> numbered[i] == batches[i].(submissionOrder := from + i)
  {
    seq(|batches|, i requires 0 <= i < |batches| => batches[i].(submissionOrder := from + i))
  }

  ghost predicate DifferentOrders(own: seq<SystemCommands>) {
    forall i, j :: 0 <= i < j < |own| ==> own[i].order != own[j].order
  }

  /** Every producer's batch has a key of its own, and only producers' buffers create entities in a run. */
  ghost predicate KeysSound(batches: seq<Batch>, runBatches: seq<Batch>, own: seq<SystemCommands>) {
    && UniqueKeys(batches + runBatches)
    && (forall b :: b in runBatches ==> b.source == SYSTEM && b.isWorker)
    && DifferentOrders(own)
    && (forall s :: s in own ==> CreatesOf(s.commands) == [])
  }

  ghost predicate AllExternal(batches: seq<Batch>) { forall b :: b in batches ==> b.source == EXTERNAL }

  ghost function OrdersOf(own: seq<SystemCommands>): set<nat> { set s | s in own :: s.order }

  lemma {:induction false} OwnKeys(own: seq<SystemCommands>)
    ensures forall b :: b in OwnBatches(own) ==> b.source == SYSTEM && !b.isWorker && b.systemOrder in OrdersOf(own)
  {
    if own != [] {
      OwnKeys(own[1..]);
      assert own[0] in own && OrdersOf(own[1..]) <= OrdersOf(own);
    }
  }

  lemma {:induction false} OwnKeysDiffer(own: seq<SystemCommands>)
    requires DifferentOrders(own)
    ensures UniqueKeys(OwnBatches(own))
  {
    if own != [] {
      OwnKeysDiffer(own[1..]);
      OwnKeys(own[1..]);
      assert own[0].order !in OrdersOf(own[1..]);
      UniqueConcat(OwnBatch(own[0]), OwnBatches(own[1..]));
    }
  }

  /** The batch holds the commands of a system, under its order. */
  ghost predicate HoldsList(b: Batch, s: SystemCommands) {
    b == Batch(SYSTEM, s.order, false, s.order, b.submissionOrder, s.commands)
  }

  ghost predicate IsOfSystem(own: seq<SystemCommands>, b: Batch) {
    exists s :: s in own && s.commands != [] && HoldsList(b, s)
  }

  ghost predicate HasList(batches: seq<Batch>, s: SystemCommands) { exists b :: b in batches && HoldsList(b, s) }

  /**
   * The batches from n on: those of the systems that have recorded anything, then those that the producers of the run
   * have submitted, numbered from the given number on.
   */
  ghost predicate PublishedAll(own: seq<SystemCommands>, runBatches: seq<Batch>, from: nat, batches: seq<Batch>, n: nat) {
    exists m: nat ::
      && n <= m && |batches| == m + |runBatches|
      && (forall b :: b in batches[n..m] ==> IsOfSystem(own, b))
      && (forall s :: s in own && s.commands != [] ==> HasList(batches[n..m], s))
      && (forall i :: 0 <= i < |runBatches| ==> batches[m + i] == runBatches[i].(submissionOrder := from + m - n + i))
      && forall i :: n <= i < |batches| ==> batches[i].submissionOrder == from + i - n
  }

  lemma {:induction false} OwnBatchesExactly(own: seq<SystemCommands>)
    ensures forall b :: b in OwnBatches(own) ==> IsOfSystem(own, b)
    ensures forall s :: s in own && s.commands != [] ==> HasList(OwnBatches(own), s)
  {
    if own != [] {
      OwnBatchesExactly(own[1..]);
      var first, rest := OwnBatch(own[0]), OwnBatches(own[1..]);
      FirstOwn(own[0]);
      forall b | b in OwnBatches(own)
        ensures IsOfSystem(own, b)
      {
        if b in first {
          assert own[0] in own;
        } else {
          var s :| s in own[1..] && s.commands != [] && HoldsList(b, s);
          assert s in own;
        }
      }
      forall s | s in own && s.commands != []
        ensures HasList(OwnBatches(own), s)
      {
        if s in own[1..] {
          var b :| b in rest && HoldsList(b, s);
          assert b in first + rest;
        } else {
          assert s == own[0] && first[0] in first + rest;
        }
      }
    }
  }

  lemma FirstOwn(s: SystemCommands)
    ensures s.commands == [] ==> OwnBatch(s) == []
    ensures s.commands != [] ==> |OwnBatch(s)| == 1 && HoldsList(OwnBatch(s)[0], s)
  {
  }

  lemma NumberedLists(own: seq<SystemCommands>, batches: seq<Batch>, from: nat)
    requires forall b :: b in batches ==> IsOfSystem(own, b)
    requires forall s :: s in own && s.commands != [] ==> HasList(batches, s)
    ensures forall b :: b in Numbered(batches, from) ==> IsOfSystem(own, b)
    ensures forall s :: s in own && s.commands != [] ==> HasList(Numbered(batches, from), s)
  {
    var numbered := Numbered(batches, from);
    forall b | b in numbered
      ensures IsOfSystem(own, b)
    {
      var i :| 0 <= i < |numbered| && numbered[i] == b;
      assert IsOfSystem(own, batches[i]);
      var s :| s in own && s.commands != [] && HoldsList(batches[i], s);
      assert HoldsList(b, s);
    }
    forall s | s in own && s.commands != []
      ensures HasList(numbered, s)
    {
      var b :| b in batches && HoldsList(b, s);
      var i :| 0 <= i < |batches| && batches[i] == b;
      assert HoldsList(numbered[i], s);
    }
  }

  lemma PublishesAll(own: seq<SystemCommands>, runBatches: seq<Batch>, from: nat, batches: seq<Batch>)
    ensures PublishedAll(own, runBatches, from, batches + Numbered(OwnBatches(own) + runBatches, from), |batches|)
  {
    hide OwnBatches, IsOfSystem, HasList;
    OwnBatchesExactly(own);
    NumberedLists(own, OwnBatches(own), from);
    var n, m := |batches|, |batches| + |OwnBatches(own)|;
    var all := batches + Numbered(OwnBatches(own) + runBatches, from);
    assert all[n..m] == Numbered(OwnBatches(own), from);
    forall i | 0 <= i < |runBatches|
      ensures all[m + i] == runBatches[i].(submissionOrder := from + m - n + i)
    {
      assert (OwnBatches(own) + runBatches)[m - n + i] == runBatches[i];
    }
  }

  lemma {:induction false} OwnHoldNothing(own: seq<SystemCommands>)
    requires forall s :: s in own ==> CreatesOf(s.commands) == []
    ensures Total(OfBatch, OwnBatches(own)) == multiset{}
  {
    if own != [] {
      assert own[0] in own;
      hide CreatesOf;
      OwnHoldNothing(own[1..]);
      TotalConcat(OfBatch, OwnBatch(own[0]), OwnBatches(own[1..]));
      if own[0].commands != [] { TotalOne(OfBatch, OwnBatch(own[0])[0]); }
    }
  }

  lemma UniqueConcat(a: seq<Batch>, b: seq<Batch>)
    requires UniqueKeys(a) && UniqueKeys(b) && forall x, y :: x in a && y in b ==> !SameKey(x, y)
    ensures UniqueKeys(a + b)
  {
    hide SameKey;
  }

  lemma UniqueParts(a: seq<Batch>, b: seq<Batch>)
    requires UniqueKeys(a + b)
    ensures UniqueKeys(a) && UniqueKeys(b) && forall x, y :: x in a && y in b ==> !SameKey(x, y)
  {
    hide SameKey;
    var all := a + b;
    forall i, j | 0 <= i < |a| && 0 <= j < |b|
      ensures !SameKey(a[i], b[j])
    {
      assert all[i] == a[i] && all[|a| + j] == b[j];
    }
    forall i, j | 0 <= i < j < |b|
      ensures !SameKey(b[i], b[j])
    {
      assert all[|a| + i] == b[i] && all[|a| + j] == b[j];
    }
    forall i, j | 0 <= i < j < |a|
      ensures !SameKey(a[i], a[j])
    {
      assert all[i] == a[i] && all[j] == a[j];
    }
  }

  lemma {:induction false} NumberedHoldSame(batches: seq<Batch>, from: nat)
    ensures Total(OfBatch, Numbered(batches, from)) == Total(OfBatch, batches)
  {
    hide CreatesOf;
    if batches != [] {
      var numbered := Numbered(batches, from);
      assert numbered[1..] == Numbered(batches[1..], from + 1);
      assert OfBatch(numbered[0]) == OfBatch(batches[0]);
      NumberedHoldSame(batches[1..], from + 1);
    }
  }

  lemma KeysAfterPublish(batches: seq<Batch>, runBatches: seq<Batch>, own: seq<SystemCommands>, from: nat)
    requires KeysSound(batches, runBatches, own) && AllExternal(batches)
    ensures KeysSound(batches + Numbered(OwnBatches(own) + runBatches, from), [], [])
  {
    var o := OwnBatches(own);
    OwnKeys(own);
    OwnKeysDiffer(own);
    UniqueParts(batches, runBatches);
    hide UniqueKeys, OwnBatches, OrdersOf, DifferentOrders;
    UniqueConcat(o, runBatches);
    UniqueConcat(batches, o + runBatches);
    NumberedKeys(batches, o + runBatches, from);
  }

  lemma NumberedKeys(batches: seq<Batch>, more: seq<Batch>, from: nat)
    requires UniqueKeys(batches + more)
    ensures KeysSound(batches + Numbered(more, from), [], [])
  {
    var all, numbered := batches + more, batches + Numbered(more, from);
    assert numbered + [] == numbered;
    forall i, j | 0 <= i < j < |numbered|
      ensures !SameKey(numbered[i], numbered[j])
    {
      assert !SameKey(all[i], all[j]);
    }
  }

  lemma KeysAfterSubmit(batches: seq<Batch>, runBatches: seq<Batch>, own: seq<SystemCommands>, batch: Batch, inRun: bool)
    requires KeysSound(batches, runBatches, own) && forall b :: b in batches + runBatches ==> !SameKey(b, batch)
    requires inRun ==> batch.source == SYSTEM && batch.isWorker
    ensures if inRun then KeysSound(batches, runBatches + [batch], own) else KeysSound(batches + [batch], runBatches, own)
  {
    UniqueParts(batches, runBatches);
    assert UniqueKeys([batch]);
    assert forall b :: b in batches ==> b in batches + runBatches;
    assert forall b :: b in runBatches ==> b in batches + runBatches;
    hide UniqueKeys, DifferentOrders, CreatesOf;
    if inRun {
      UniqueConcat(runBatches, [batch]);
      UniqueConcat(batches, runBatches + [batch]);
    } else {
      UniqueConcat(batches, [batch]);
      SameKeySymmetric(batch);
      UniqueConcat(batches + [batch], runBatches);
    }
  }

  lemma SameKeySymmetric(a: Batch)
    ensures forall b :: SameKey(a, b) == SameKey(b, a)
  {
  }

  function Recorded(own: seq<SystemCommands>, k: nat, c: Command): seq<SystemCommands>
    requires k < |own|
  {
    own[k := own[k].(commands := own[k].commands + [c])]
  }

  lemma KeysAfterRecord(batches: seq<Batch>, runBatches: seq<Batch>, own: seq<SystemCommands>, k: nat, c: Command)
    requires KeysSound(batches, runBatches, own) && k < |own| && !c.CREATE?
    ensures KeysSound(batches, runBatches, Recorded(own, k, c))
  {
    CreatesConcat(own[k].commands, [c]);
    CreatesOne(c);
    assert own[k] in own;
    hide UniqueKeys, CreatesOf;
  }

  lemma KeysAtStart(batches: seq<Batch>, runBatches: seq<Batch>, own: seq<SystemCommands>, orders: seq<nat>)
    requires KeysSound(batches, runBatches, own) && forall i, j :: 0 <= i < j < |orders| ==> orders[i] != orders[j]
    ensures KeysSound(batches, runBatches, seq(|orders|, k requires 0 <= k < |orders| => SystemCommands(orders[k], [])))
  {
  }

  lemma KeysAfterDiscard(batches: seq<Batch>, runBatches: seq<Batch>, own: seq<SystemCommands>)
    requires KeysSound(batches, runBatches, own)
    ensures KeysSound(batches, [], []) && KeysSound([], runBatches, own) && KeysSound([], [], [])
  {
    var both := batches + runBatches;
    assert batches + [] == both[..|batches|] && [] + runBatches == both[|batches|..];
  }

  ghost function PhasesOf(producers: seq<Producer>): set<Option<nat>> { set p | p in producers :: p.key.systemOrder }

  lemma FirstPhaseOpen(planned: seq<Plan>, phases: set<Option<nat>>)
    requires PhasesOpen(planned, phases) && planned != []
    ensures planned[0].key.systemOrder in phases
  {
    assert planned[0] in planned;
  }

  lemma NothingPlanned(planned: seq<Plan>, phases: set<Option<nat>>)
    requires PhasesOpen(planned, phases) && phases == {}
    ensures planned == []
  {
    hide PhasesOpen;
    if planned != [] { FirstPhaseOpen(planned, phases); }
  }

  lemma PhasesAfterDiscard(planned: seq<Plan>, phases: set<Option<nat>>)
    requires PhasesOpen(planned, phases)
    ensures PhasesOpen(OtherPlans(planned), if None in phases then {None} else {})
  {
    OthersArePlans(planned);
  }

  lemma {:induction false} OthersArePlans(plans: seq<Plan>)
    ensures forall p :: p in OtherPlans(plans) <==> p in plans && p.key.systemOrder.None?
  {
    if plans != [] {
      OthersArePlans(plans[1..]);
    }
  }

  lemma OneQuestion(b: Buffer)
    ensures Answers(b, [ASK]) == [if b.unused == [] then None else Some(b.unused[0].identity)]
    ensures AfterAction(b, ASK) == if b.unused == [] then b
                                   else b.(commands := b.commands + [CREATE(b.unused[0])], unused := b.unused[1..])
  {
    assert [ASK][1..] == [];
  }

  /** A phase stays active while one of its groups of producers has an entry, claimed or not. */
  ghost predicate PhasesOpen(planned: seq<Plan>, phases: set<Option<nat>>) {
    forall p :: p in planned ==> p.key.systemOrder in phases
  }

  /** The buffer has the reservations of the producer's first plan, which is taken off the plans, or none if it has no plan. */
  ghost predicate IsOpened(plans: seq<Plan>, key: ProducerKey, b: Buffer, left: seq<Plan>) {
    && b.key == key && b.commands == []
    && (forall k: nat :: IsFirstPlan(plans, key, k) ==> b.unused == plans[k].reservations && left == plans[..k] + plans[k + 1..])
    && ((forall k :: 0 <= k < |plans| ==> plans[k].key != key) ==> b.unused == [] && left == plans)
  }

  lemma OpenedMeans(plans: seq<Plan>, key: ProducerKey)
    ensures IsOpened(plans, key, Opened(plans, key), LeftAfter(plans, key))
  {
    hide FindPlan;
  }

  lemma DuplicateKeys(producers: seq<Producer>)
    ensures UniqueProducers(producers) <==> !exists i, j :: 0 <= i < j < |producers| && producers[i].key == producers[j].key
  {
    assert UniqueProducers(producers) <==>
           forall i, j :: 0 <= i < j < |producers| ==> DifferentKeys(producers[i], producers[j]);
  }

  /** The batch that a producer has submitted: one of a system's producers, or one outside. */
  ghost predicate IsOfProducer(b: Batch, key: ProducerKey) {
    && b.producerOrder == key.order
    && match key.systemOrder
       case Some(order) => b.source == SYSTEM && b.isWorker && b.systemOrder == order
       case None => b.source == EXTERNAL && !b.isWorker && b.systemOrder == 0
  }

  lemma KeyOfProducer(batches: seq<Batch>, b: Buffer)
    ensures (exists x :: x in batches && SameKey(x, BatchOf(b, 0))) <==> exists x :: x in batches && IsOfProducer(x, b.key)
  {
    forall x
      ensures SameKey(x, BatchOf(b, 0)) <==> IsOfProducer(x, b.key)
    {
    }
  }

  lemma ClaimedBuffers(buffers: seq<Buffer>)
    ensures AnyClaimed(buffers) <==> exists k :: 0 <= k < |buffers| && buffers[k].claimed
  {
  }

  /** The first plan of a producer. */
  ghost predicate IsFirstPlan(plans: seq<Plan>, key: ProducerKey, k: nat) {
    k < |plans| && plans[k].key == key && forall j :: 0 <= j < k ==> plans[j].key != key
  }

  /** The reservations that the main thread's commands will use up. */
  ghost function Waiting(commands: seq<Command>): set<Reservation> { set r | r in CreatesOf(commands) }

  /**
   * No slot is materialised for a reservation, so it can be given back without a loss, unless it is waiting in the
   * main thread's commands: there a commit that failed halfway leaves those it did not get to.
   */
  ghost predicate Settled(t: Table, waiting: set<Reservation>) {
    forall r :: r in t.live && r !in waiting ==> !Materialised(t, r)
  }

  lemma NothingHeld()
    ensures HeldBy(Holdings([], [], [], [], [])) == multiset(EMPTY_TABLE.live)
    ensures ClaimsMarked([]) && KeysSound([], [], []) && PhasesOpen([], {}) && Settled(EMPTY_TABLE, Waiting([]))
  {
  }

  lemma WaitingMore(a: seq<Command>, c: Command)
    ensures Waiting(a + [c]) == if c.CREATE? then Waiting(a) + {c.reservation} else Waiting(a)
  {
    CreatesConcat(a, [c]);
    CreatesOne(c);
  }

  lemma SettledForMore(t: Table, waiting: set<Reservation>, more: set<Reservation>)
    requires Settled(t, waiting) && waiting <= more
    ensures Settled(t, more)
  {
  }

  lemma AllWaiting(t: Table, commands: seq<Command>)
    requires multiset(t.live) == multiset(CreatesOf(commands))
    ensures Settled(t, Waiting(commands))
  {
    forall r | r in t.live
      ensures r in Waiting(commands)
    {
      assert multiset(t.live)[r] == 1;
    }
  }

  /** A create deferred from the main thread. */
  lemma ReservedIsWaiting(t: Table, next: nat, u: Table, r: Reservation, h: Holdings)
    requires IsNextAppend(t, next) && TableInv(t) && (u, r) == Reserved(t, next)
    requires HeldBy(h) == multiset(t.live) && r !in t.live && u.live == t.live + {r} && Settled(t, Waiting(h.commands))
    ensures HeldBy(h.(commands := h.commands + [CREATE(r)])) == multiset(u.live)
    ensures Settled(u, Waiting(h.commands + [CREATE(r)])) && Creating(h.commands, h.commands + [CREATE(r)], r.identity)
  {
    ReservedShape(t, next, Waiting(h.commands));
    hide *;
    CreateHeld(h, t.live, r);
    WaitingMore(h.commands, CREATE(r));
    SettledForMore(u, Waiting(h.commands), Waiting(h.commands + [CREATE(r)]));
    Promised(h.commands, r);
  }

  lemma Promised(commands: seq<Command>, r: Reservation)
    ensures Creating(commands, commands + [CREATE(r)], r.identity)
  {
  }

  /** What is held elsewhere is not waiting in the commands. */
  lemma ElsewhereIsNotWaiting(live: set<Reservation>, given: seq<Reservation>, h: Holdings)
    requires multiset(live) == multiset(given) + HeldBy(h)
    ensures forall r :: r in given ==> r !in Waiting(h.commands)
  {
    hide Total;
    forall r | r in given
      ensures r !in CreatesOf(h.commands)
    {
      assert multiset(live)[r] <= 1 && multiset(given)[r] >= 1;
      assert multiset(CreatesOf(h.commands))[r] <= HeldBy(h)[r];
    }
  }

  // ------------------------------------------------------------- the class

  class StructuralPhase {
    const table: E.EntityTable
    var planned: seq<Plan>
    var phases: set<Option<nat>>
    var commands: seq<Command>
    var batches: seq<Batch>
    var runBatches: seq<Batch>
    var own: seq<SystemCommands>
    var buffers: seq<Buffer>
    var running: bool
    var nextSubmission: nat
    ghost var applied: seq<Command>

    ghost function Places(): (h: Holdings)
      reads this
      ensures h == Holdings(commands, planned, batches, runBatches, buffers)
    {
      Holdings(commands, planned, batches, runBatches, buffers)
    }

    /** Conservation: each live reservation of the table is held once, and nothing else is held. */
    ghost predicate Valid()
      reads this, table, table.topology
    {
      && table.Valid() && HeldBy(Places()) == multiset(table.live) && ClaimsMarked(buffers)
      && KeysSound(batches, runBatches, own) && PhasesOpen(planned, phases)
      && Settled(table.View(), Waiting(commands))
    }

    constructor (worldId: nat)
      requires 0 < worldId
      ensures Valid() && fresh(table) && fresh(table.topology)
    {
      hide HeldBy, ClaimsMarked, KeysSound, PhasesOpen, Settled, Waiting, E.EntityTable.Valid;
      table := new E.EntityTable(worldId);
      planned, phases, commands, batches, runBatches, own, buffers := [], {}, [], [], [], [], [];
      running, nextSubmission, applied := false, 0, [];
      new;
      NothingHeld();
    }

    // ---------------------------------------------------------- planning

    /** Reserves identities one after another. */
    method ReserveMany(n: nat, ghost waiting: set<Reservation>) returns (reservations: seq<Reservation>)
      requires table.Valid() && Settled(table.View(), waiting)
      requires |table.entities| + |table.pendingAppends| + n < E.LAST_INDEX
      modifies table
      ensures table.Valid() && Settled(table.View(), waiting) && table.topology.forest == old(table.topology.forest)
      ensures ReservesRun(old(table.View()), n, reservations, table.View())
      ensures multiset(table.live) == multiset(old(table.live)) + multiset(reservations)
      ensures |table.entities| + |table.pendingAppends| <= old(|table.entities| + |table.pendingAppends|) + n
    {
      hide TableInv, Reserved, IsNextAppend, HasEntity, Settled, E.EntityTable.Valid, ReservesRun;
      NoReservations(table.View());
      reservations := [];
      ghost var start := table.View();
      for i := 0 to n
        invariant table.Valid() && Settled(table.View(), waiting) && table.topology.forest == old(table.topology.forest)
        invariant ReservesRun(start, i, reservations, table.View())
        invariant multiset(table.live) == multiset(start.live) + multiset(reservations)
        invariant |table.entities| + |table.pendingAppends| <= |start.entities| + |start.appends| + i
      {
        ghost var t := table.View();
        TableIsSound(table);
        var r := table.Reserve();
        ghost var next :| IsNextAppend(t, next) && (table.View(), r) == Reserved(t, next);
        ReservedShape(t, next, waiting);
        LiveAdded(t.live, r);
        ReservesOneMore(start, i, reservations, t, next, r);
        reservations := reservations + [r];
      }
    }

    /** Gives reservations back, one after another. Nothing alive changes. */
    method ReleaseMany(reservations: seq<Reservation>, ghost rest: multiset<Reservation>, ghost waiting: set<Reservation>)
      requires table.Valid() && Settled(table.View(), waiting)
      requires multiset(table.live) == multiset(reservations) + rest
      requires forall r :: r in reservations ==> r !in waiting
      modifies table
      ensures table.Valid() && Settled(table.View(), waiting) && multiset(table.live) == rest
      ensures table.topology.forest == old(table.topology.forest) && |table.entities| == old(|table.entities|)
      ensures |table.pendingAppends| <= old(|table.pendingAppends|) && table.issued == old(table.issued)
      ensures SameAlive(old(table.View()), table.View())
    {
      hide TableInv, E.Agree, Released, HasEntity, Settled, H.IsForest, L.Represents, SameAlive;
      ghost var start := table.View();
      SameAliveReflexive(start);
      for i := 0 to |reservations|
        invariant table.Valid() && Settled(table.View(), waiting) && |table.entities| == |start.entities|
        invariant multiset(table.live) == multiset(reservations[i..]) + rest
        invariant table.topology.forest == old(table.topology.forest) && table.issued == start.issued
        invariant |table.pendingAppends| <= |start.appends| && SameAlive(start, table.View())
      {
        ghost var t := table.View();
        var r := reservations[i];
        assert reservations[i..] == [r] + reservations[i + 1..];
        LiveRemoved(table.live, r, multiset(reservations[i + 1..]) + rest);
        SettledMeansReleasable(t, r, waiting);
        ReleasedShape(t, r, waiting);
        table.Release(r);
        SameAliveTransitive(start, t, table.View());
      }
      assert reservations[|reservations|..] == [];
    }

    /**
     * Plans the reservations of declared producers. They are reserved in the sorted order of the producers,
     * however these are listed; a key declared twice is refused, and so is a second phase before the first one has
     * been committed or discarded, even when all its producers have claimed their reservations.
     */
    method BeginPhase(producers: seq<Producer>) returns (result: Result<(), PhaseError>)
      requires Valid()
      requires |table.entities| + |table.pendingAppends| + Creates(producers) < E.LAST_INDEX
      modifies this`planned, this`phases, table
      ensures Valid()
      ensures result.Ok? <==>
                UniqueProducers(producers) && !running && old(phases) == {} && old(table.pendingCreates) == 0
      ensures result == Err(DUPLICATE_PRODUCER) <==>
                exists i, j :: 0 <= i < j < |producers| && producers[i].key == producers[j].key
      ensures result == Err(RUNNING) ==> running
      ensures result.Err? ==> planned == old(planned) && phases == old(phases) && table.View() == old(table.View())
      ensures result.Ok? ==> phases == PhasesOf(producers)
      ensures result.Ok? ==>
        exists sorted :: SortedBy(ProducerBefore, sorted) && multiset(sorted) == multiset(producers) &&
          PlansRun(old(table.View()), sorted, planned, table.View())
    {
      ProducerBeforeIsStrict();
      hide SortedBy, UniqueProducers, TableInv, E.Agree, Settled, H.IsForest, L.Represents, HasEntity, HeldBy,
        ClaimsMarked, PlansRun, IsStrictOrder, Creates, ReservesRun, KeysSound;
      DuplicateKeys(producers);
      var sorted := Sort(ProducerBefore, producers);
      for index := 0 to |sorted|
        invariant forall j :: 1 <= j < index ==> sorted[j - 1].key != sorted[j].key
      {
        if index > 0 && sorted[index - 1].key == sorted[index].key {
          DuplicateFound(producers, sorted, index);
          return Err(DUPLICATE_PRODUCER);
        }
      }
      SortedKeysDiffer(producers, sorted);
      if running {
        return Err(RUNNING);
      }
      if phases != {} || table.pendingCreates != 0 {
        return Err(PHASE_ACTIVE);
      }
      NothingPlanned(planned, phases);
      CreatesRearranged(producers, sorted);
      PlanAll(sorted);
      SameMembers(producers, sorted);
      return Ok(());
    }

    /** Reserves what the producers have declared, one producer after another. */
    method PlanAll(sorted: seq<Producer>)
      requires Valid() && planned == [] && phases == {}
      requires |table.entities| + |table.pendingAppends| + Creates(sorted) < E.LAST_INDEX
      modifies this`planned, this`phases, table
      ensures Valid()
      ensures PlansRun(old(table.View()), sorted, planned, table.View()) && phases == PhasesOf(sorted)
    {
      hide TableInv, E.Agree, Settled, H.IsForest, L.Represents, HasEntity, HeldBy, ClaimsMarked, PlansRun, Creates,
        ReservesRun, KeysSound;
      ghost var start := table.View();
      assert sorted[..0] == [];
      NoPlans(start);
      for k := 0 to |sorted|
        invariant Valid()
        invariant PlansRun(start, sorted[..k], planned, table.View()) && phases == PhasesOf(sorted[..k])
        invariant |table.entities| + |table.pendingAppends| <= |start.entities| + |start.appends| + Creates(sorted[..k])
      {
        CreatesPrefix(sorted, k);
        ghost var mid := table.View();
        var reservations := ReserveMany(sorted[k].creates, Waiting(commands));
        PlansOneMore(start, sorted[..k], planned, mid, sorted[k], reservations, table.View());
        assert sorted[..k + 1] == sorted[..k] + [sorted[k]];
        AddPlan(Places(), Plan(sorted[k].key, reservations));
        planned := planned + [Plan(sorted[k].key, reservations)];
        phases := phases + {sorted[k].key.systemOrder};
      }
      assert sorted[..|sorted|] == sorted;
    }

    // ----------------------------------------------------------- producers

    /** Opens a producer's buffer; a declared producer takes its planned reservations along. */
    method OpenBuffer(key: ProducerKey) returns (id: nat)
      requires Valid()
      modifies this`planned, this`buffers
      ensures Valid() && id == old(|buffers|)
      ensures buffers == old(buffers) + [Opened(old(planned), key)] && planned == LeftAfter(old(planned), key)
      ensures |buffers| == old(|buffers|) + 1 && buffers[..old(|buffers|)] == old(buffers)
      ensures IsOpened(old(planned), key, buffers[id], planned)
    {
      hide HeldBy, OfBuffer, E.EntityTable.Valid, KeysSound, IsOpened;
      OpenedMeans(planned, key);
      var k := 0;
      while k < |planned| && planned[k].key != key
        invariant k <= |planned|
        invariant forall j :: 0 <= j < k ==> planned[j].key != key
      {
        k := k + 1;
      }
      id := |buffers|;
      if k < |planned| {
        var reservations := planned[k].reservations;
        OpenPlanned(Places(), k, key);
        EmptyBuffer(key, reservations);
        planned := planned[..k] + planned[k + 1..];
        buffers := buffers + [Buffer(key, reservations != [], [], reservations)];
      } else {
        OpenUnplanned(Places(), key);
        EmptyBuffer(key, []);
        buffers := buffers + [Buffer(key, false, [], [])];
      }
    }

    /** Takes the next identity the producer was promised. */
    method BufferCreate(id: nat) returns (result: Result<H.Entity, PhaseError>)
      requires Valid() && id < |buffers|
      modifies this`buffers
      ensures Valid() && buffers == old(buffers)[id := AfterAction(old(buffers)[id], ASK)]
      ensures Answers(old(buffers)[id], [ASK]) == [if result.Ok? then Some(result.value) else None]
      ensures result.Err? <==> old(buffers)[id].unused == []
      ensures result.Err? ==> buffers == old(buffers)
      ensures result.Ok? ==>
        var b := old(buffers)[id];
        && result.value == b.unused[0].identity
        && buffers == old(buffers)[id := b.(commands := b.commands + [CREATE(b.unused[0])], unused := b.unused[1..])]
    {
      hide *;
      var b := buffers[id];
      OneQuestion(b);
      if b.unused == [] {
        return Err(NO_RESERVATION_LEFT);
      }
      var r := b.unused[0];
      var now := b.(commands := b.commands + [CREATE(r)], unused := b.unused[1..]);
      ghost var h := Places();
      PartsOf(this);
      TakeOne(b);
      SameHoldings(h, id, now);
      ClaimsKept(buffers, id, now);
      buffers := buffers[id := now];
      Conserved(this, h.(buffers := h.buffers[id := now]));
      return Ok(r.identity);
    }

    /** Records a command that reserves nothing. */
    method BufferPush(id: nat, c: Command)
      requires Valid() && id < |buffers| && !c.CREATE?
      modifies this`buffers
      ensures Valid() && buffers == old(buffers)[id := AfterAction(old(buffers)[id], PUSH(c))]
      ensures buffers == old(buffers)[id := old(buffers)[id].(commands := old(buffers)[id].commands + [c])]
    {
      hide HeldBy;
      var b := buffers[id];
      var now := b.(commands := b.commands + [c]);
      assert now == AfterAction(b, PUSH(c));
      ghost var h := Places();
      PartsOf(this);
      PushOne(b, c);
      SameHoldings(h, id, now);
      ClaimsKept(buffers, id, now);
      buffers := buffers[id := now];
      Conserved(this, h.(buffers := h.buffers[id := now]));
    }

    /** Hands a buffer in: what it did not use is released, its commands become a batch. */
    method Submit(id: nat) returns (result: Result<(), PhaseError>)
      requires Valid() && id < |buffers|
      modifies this`buffers, this`batches, this`runBatches, this`nextSubmission, table
      ensures Valid() && SameAlive(old(table.View()), table.View())
      ensures result.Err? ==> buffers == old(buffers) && batches == old(batches) && runBatches == old(runBatches)
      ensures result.Ok? <==>
                running == old(buffers)[id].key.systemOrder.Some? &&
                forall b :: b in old(batches) + old(runBatches) ==> !SameKey(b, BatchOf(old(buffers)[id], 0))
      ensures result == Err(DUPLICATE_PRODUCER) <==>
        && running == old(buffers)[id].key.systemOrder.Some?
        && exists b :: b in old(batches) + old(runBatches) && IsOfProducer(b, old(buffers)[id].key)
      ensures result.Ok? ==>
        var b := old(buffers)[id];
        if running then runBatches == old(runBatches) + [BatchOf(b, 0)] && batches == old(batches)
        else batches == old(batches) + [BatchOf(b, old(nextSubmission))] && runBatches == old(runBatches)
      ensures result.Ok? ==>
        var b := old(buffers)[id];
        match b.key.systemOrder
        case Some(order) =>
          runBatches == old(runBatches) + [Batch(SYSTEM, order, true, b.key.order, 0, b.commands)] && batches == old(batches)
        case None =>
          && batches == old(batches) + [Batch(EXTERNAL, 0, false, b.key.order, old(nextSubmission), b.commands)]
          && runBatches == old(runBatches)
    {
      hide TableInv, E.Agree, Settled, H.IsForest, L.Represents, HasEntity, SameAlive, HeldBy, OfBuffer, SameKey,
        KeysSound, CreatesOf;
      var b := buffers[id];
      SameAliveReflexive(table.View());
      if running != b.key.systemOrder.Some? {
        return Err(RUNNING);
      }
      var batch := BatchOf(b, if running then 0 else nextSubmission);
      KeyIgnoresSubmission(batches + runBatches, b, batch.submissionOrder);
      KeyOfProducer(batches + runBatches, b);
      if exists k :: 0 <= k < |batches| && SameKey(batches[k], batch) {
        return Err(DUPLICATE_PRODUCER);
      }
      if exists k :: 0 <= k < |runBatches| && SameKey(runBatches[k], batch) {
        return Err(DUPLICATE_PRODUCER);
      }
      KeysAfterSubmit(batches, runBatches, own, batch, running);
      SubmitBuffer(Places(), id, batch, running);
      EmptyBuffer(b.key, []);
      if running {
        runBatches := runBatches + [batch];
      } else {
        batches := batches + [batch];
        nextSubmission := nextSubmission + 1;
      }
      buffers := buffers[id := Buffer(b.key, false, [], [])];
      ElsewhereIsNotWaiting(table.live, b.unused, Places());
      ReleaseMany(b.unused, HeldBy(Places()), Waiting(commands));
      return Ok(());
    }

    /** Drops a buffer that was not handed in: everything it was given is released. */
    method Drop(id: nat)
      requires Valid() && id < |buffers|
      modifies this`buffers, table
      ensures Valid() && SameAlive(old(table.View()), table.View())
      ensures buffers == old(buffers)[id := Buffer(old(buffers)[id].key, false, [], [])]
    {
      hide TableInv, E.Agree, Settled, H.IsForest, L.Represents, HasEntity, SameAlive, HeldBy, OfBuffer, CreatesOf;
      var b := buffers[id];
      DropBuffer(Places(), id);
      EmptyBuffer(b.key, []);
      buffers := buffers[id := Buffer(b.key, false, [], [])];
      ElsewhereIsNotWaiting(table.live, CreatesOf(b.commands) + b.unused, Places());
      ReleaseMany(CreatesOf(b.commands) + b.unused, HeldBy(Places()), Waiting(commands));
    }

    /** Defers a create from the main thread. The handle has never been handed out before. */
    method DeferCreate() returns (result: Result<H.Entity, PhaseError>)
      requires Valid() && |table.entities| + |table.pendingAppends| < E.LAST_INDEX
      modifies this`commands, table
      ensures Valid()
      ensures result.Err? <==> running
      ensures result.Err? ==> table.View() == old(table.View()) && commands == old(commands)
      ensures result.Ok? ==> result.value !in old(table.issued) && result.value in table.issued
      ensures result.Ok? ==> Creating(old(commands), commands, result.value)
    {
      hide *;
      if running {
        return Err(RUNNING);
      }
      ghost var t, h := table.View(), Places();
      PartsOf(this);
      TableIsSound(table);
      var r := table.Reserve();
      ghost var next :| IsNextAppend(t, next) && (table.View(), r) == Reserved(t, next);
      TableIsSound(table);
      ReservedIsWaiting(t, next, table.View(), r, h);
      commands := commands + [CREATE(r)];
      Conserved(this, h.(commands := h.commands + [CREATE(r)]));
      return Ok(r.identity);
    }

    // ------------------------------------------------------ ending a run

    /** Starts a run: every system that has a structural order gets a list of its own. */
    method BeginRun(orders: seq<nat>) returns (result: Result<(), PhaseError>)
      requires Valid() && runBatches == [] && forall i, j :: 0 <= i < j < |orders| ==> orders[i] != orders[j]
      modifies this`running, this`own
      ensures Valid() && (result.Err? <==> old(running)) && (result.Err? ==> own == old(own)) && running
      ensures result.Ok? ==> |own| == |orders| && forall k :: 0 <= k < |own| ==> own[k] == SystemCommands(orders[k], [])
    {
      hide *;
      if running {
        return Err(RUNNING);
      }
      PartsOf(this);
      KeysAtStart(batches, runBatches, own, orders);
      ghost var h := Places();
      running := true;
      own := seq(|orders|, k requires 0 <= k < |orders| => SystemCommands(orders[k], []));
      Conserved(this, h);
      return Ok(());
    }

    method EndRun()
      requires Valid() && runBatches == []
      modifies this`running, this`own
      ensures Valid() && !running && own == []
    {
      hide *;
      PartsOf(this);
      KeysAfterDiscard(batches, runBatches, own);
      ghost var h := Places();
      running := false;
      own := [];
      Conserved(this, h);
    }

    /**
     * Records a command that reserves nothing: during a run in the list of the calling system, where only a system
     * with a structural order may record, and otherwise with the main thread's commands.
     */
    method Record(caller: Option<nat>, c: Command) returns (result: Result<(), PhaseError>)
      requires Valid() && !c.CREATE? && (caller.Some? ==> caller.value < |own|)
      modifies this`own, this`commands
      ensures Valid() && (result.Err? <==> running && caller.None?)
      ensures commands == if running then old(commands) else old(commands) + [c]
      ensures own == if running && caller.Some? then Recorded(old(own), caller.value, c) else old(own)
      ensures running && caller.Some? ==>
        var k := caller.value;
        own == old(own)[k := old(own)[k].(commands := old(own)[k].commands + [c])]
    {
      hide HeldBy, OfBuffer;
      if running && caller.Some? {
        assert Recorded(own, caller.value, c) == own[caller.value := own[caller.value].(commands := own[caller.value].commands + [c])];
      }
      ghost var h := Places();
      if !running {
        PartsOf(this);
        AddCommand(h, c);
        WaitingMore(commands, c);
        commands := commands + [c];
        Conserved(this, h.(commands := h.commands + [c]));
        return Ok(());
      }
      if caller.None? {
        return Err(OUTSIDE_SYSTEM);
      }
      PartsOf(this);
      KeysAfterRecord(batches, runBatches, own, caller.value, c);
      own := own[caller.value := own[caller.value].(commands := own[caller.value].commands + [c])];
      Conserved(this, h);
      return Ok(());
    }

    /**
     * Moves what the systems of a finished run recorded, and the batches of their producers, to those waiting for
     * commit. What an earlier run published has been committed by then.
     */
    method Publish() returns (result: Result<(), PhaseError>)
      requires Valid() && AllExternal(batches)
      modifies this`batches, this`runBatches, this`own, this`nextSubmission
      ensures Valid() && (result.Err? <==> AnyClaimed(buffers))
      ensures result.Err? <==> exists k :: 0 <= k < |buffers| && buffers[k].claimed
      ensures result.Err? ==> batches == old(batches) && runBatches == old(runBatches) && own == old(own)
      ensures result.Ok? ==> runBatches == [] && own == []
      ensures result.Ok? ==>
        batches == old(batches) + Numbered(OwnBatches(old(own)) + old(runBatches), old(nextSubmission))
      ensures result.Ok? ==> PublishedAll(old(own), old(runBatches), old(nextSubmission), batches, old(|batches|))
    {
      hide *;
      PublishesAll(own, runBatches, nextSubmission, batches);
      ClaimedBuffers(buffers);
      if AnyClaimed(buffers) {
        return Err(BUFFERS_OUTSTANDING);
      }
      ghost var h := Places();
      PartsOf(this);
      KeysAfterPublish(batches, runBatches, own, nextSubmission);
      PublishBatches(h, own, nextSubmission);
      var more := Numbered(OwnBatches(own) + runBatches, nextSubmission);
      batches := batches + more;
      nextSubmission := nextSubmission + |more|;
      runBatches := [];
      own := [];
      Conserved(this, h.(batches := h.batches + more, runBatches := []));
      return Ok(());
    }

    /**
     * Ends a run that failed or was cancelled before commit: every reservation of its systems is given back,
     * once, and no live entity changes.
     */
    method DiscardRun()
      requires Valid()
      modifies this`runBatches, this`own, this`planned, this`phases, table
      ensures Valid() && SameAlive(old(table.View()), table.View())
      ensures runBatches == [] && own == [] && forall p :: p in planned ==> p.key.systemOrder.None?
      ensures forall p :: p in old(planned) && p.key.systemOrder.None? ==> p in planned
      ensures phases == if None in old(phases) then {None} else {}
      ensures multiset(table.live) + Total(OfBatch, old(runBatches)) + Total(OfPlan, SystemPlans(old(planned))) ==
              multiset(old(table.live))
      ensures SortedBy(E.Lower, table.freeIndices)
    {
      hide TableInv, E.Agree, Settled, H.IsForest, L.Represents, HasEntity, SameAlive, SortedBy, HeldBy, ClaimsMarked,
        Flatten, CreatesOf, AllReservations, SystemPlans, OtherPlans, KeysSound, PhasesOpen;
      ghost var t := table.View();
      OthersArePlans(planned);
      SameAliveReflexive(t);
      DiscardHoldings(Places());
      KeysAfterDiscard(batches, runBatches, own);
      PhasesAfterDiscard(planned, phases);
      var given := CreatesOf(Flatten(runBatches)) + AllReservations(SystemPlans(planned));
      runBatches := [];
      own := [];
      planned := OtherPlans(planned);
      phases := if None in phases then {None} else {};
      ElsewhereIsNotWaiting(table.live, given, Places());
      ReleaseMany(given, HeldBy(Places()), Waiting(commands));
      ghost var u := table.View();
      table.SortFree();
      SortedFreeShape(u, table.freeIndices, Waiting(commands));
      SameAliveTransitive(t, u, table.View());
    }

    // ---------------------------------------------------------------- commit

    /** Applies one command. A create that is held always succeeds. */
    method ApplyOne(c: Command) returns (ok: bool)
      requires table.Valid() && table.topology.epoch < M.MAX_EPOCH && (c.CREATE? ==> c.reservation in table.live)
      modifies table, table.topology
      ensures table.Valid() && table.topology.epoch <= old(table.topology.epoch) + 1
      ensures table.live == if c.CREATE? then old(table.live) - {c.reservation} else old(table.live)
      ensures c.CREATE? ==> ok && table.IsAlive(c.reservation.identity)
      ensures c.DESTROY? ==> ok && !table.IsAlive(c.entity)
      ensures c.COMPONENT? ==> ok == !c.fails && table.View() == old(table.View())
      ensures c.REPARENT? ==>
        && table.View() == old(table.View())
        && (ok <==> !Refuses(old(table.topology.forest), c.child, c.parent, c.mode))
        && (ok && old(table.topology.forest)[c.child].parent != c.parent ==>
              IsMoved(old(table.topology.forest), table.topology.forest, c.child, c.parent))
      ensures c.CREATE? ==> forall e :: e != c.reservation.identity ==> table.IsAlive(e) == old(table.IsAlive(e))
      ensures c.DESTROY? ==> forall e :: e != c.entity ==> table.IsAlive(e) == old(table.IsAlive(e))
      ensures ok ==> Does(table.topology.worldId, old(table.topology.forest), c, table.topology.forest)
      ensures !ok ==> Fails(old(table.topology.forest), c) && table.topology.forest == old(table.topology.forest)
    {
      hide *;
      match c
      case CREATE(r) =>
        ok := true;
        ApplyCreate(r);
      case DESTROY(e) =>
        ok := true;
        ApplyDestroy(e);
      case REPARENT(child, parent, mode) =>
        ok := ApplyReparent(child, parent, mode);
      case COMPONENT(_, fails) =>
        ok := !fails;
        AliveIsInForest(table);
        ComponentEffect(table.topology.worldId, table.topology.forest, c);
    }

    method ApplyCreate(r: Reservation)
      requires table.Valid() && table.topology.epoch < M.MAX_EPOCH && r in table.live
      modifies table, table.topology
      ensures table.Valid() && table.topology.epoch <= old(table.topology.epoch) + 1
      ensures table.live == old(table.live) - {r} && table.IsAlive(r.identity)
      ensures forall e :: e != r.identity ==> table.IsAlive(e) == old(table.IsAlive(e))
      ensures Does(table.topology.worldId, old(table.topology.forest), CREATE(r), table.topology.forest)
    {
      hide E.EntityTable.Valid, HasEntity, H.IsForest, H.Created, IsBorn, Applied;
      ghost var x := H.EntityReference(table.topology.worldId, r.identity);
      AliveIsInForest(table);
      HeldIsDead(table, r);
      CreatedIsBorn(table.topology.forest, x);
      var done := table.ApplyCreate(r);
      AliveIsInForest(table);
      BornKeys(old(table.topology.forest), table.topology.forest, x);
    }

    method ApplyDestroy(e: H.Entity)
      requires table.Valid() && table.topology.epoch < M.MAX_EPOCH
      modifies table, table.topology
      ensures table.Valid() && table.topology.epoch <= old(table.topology.epoch) + 1
      ensures table.live == old(table.live) && !table.IsAlive(e)
      ensures forall x :: x != e ==> table.IsAlive(x) == old(table.IsAlive(x))
      ensures Does(table.topology.worldId, old(table.topology.forest), DESTROY(e), table.topology.forest)
    {
      hide E.EntityTable.Valid, HasEntity, H.IsForest, H.Destroyed, IsGone, Destroyed;
      ghost var x := H.EntityReference(table.topology.worldId, e);
      AliveIsInForest(table);
      var done := table.DestroyEntity(e);
      AliveIsInForest(table);
      if old(table.IsAlive(e)) {
        DestroyedIsGone(old(table.topology.forest), x);
        GoneKeys(old(table.topology.forest), table.topology.forest, x);
      }
    }

    method ApplyReparent(child: H.EntityReference, parent: H.EntityReference, mode: M.ReparentMode) returns (ok: bool)
      requires table.Valid() && table.topology.epoch < M.MAX_EPOCH
      modifies table.topology
      ensures table.Valid() && table.topology.epoch <= old(table.topology.epoch) + 1
      ensures table.View() == old(table.View()) && H.IsForest(old(table.topology.forest))
      ensures ok <==> !Refuses(old(table.topology.forest), child, parent, mode)
      ensures ok && old(table.topology.forest)[child].parent != parent ==>
        IsMoved(old(table.topology.forest), table.topology.forest, child, parent)
      ensures ok ==>
        Does(table.topology.worldId, old(table.topology.forest), REPARENT(child, parent, mode), table.topology.forest)
      ensures !ok ==> Fails(old(table.topology.forest), REPARENT(child, parent, mode))
      ensures !ok ==> table.topology.forest == old(table.topology.forest)
    {
      hide TableInv, E.Agree, H.IsForest, L.Represents, HasEntity, M.Refusal, M.Moves, Refuses, IsMoved, KeepsTransforms,
        H.World;
      ghost var f := table.topology.forest;
      var done := table.topology.Reparent(child, parent, mode);
      ok := done.Ok?;
      SameKeysAgree(table.View(), table.topology.worldId, f, table.topology.forest);
      RefusalMeans(f, old(table.topology.epoch), child, parent, mode);
      if ok {
        NotRefused(f, child, parent, mode);
        if f[child].parent != parent {
          MovesMeans(f, table.topology.forest, child, parent, mode);
        }
      }
    }

    /** Releases what is planned and not claimed. */
    method ReleaseUnclaimedPlans()
      requires Valid()
      modifies this`planned, this`phases, table
      ensures Valid() && planned == [] && phases == {}
    {
      hide E.EntityTable.Valid, Settled, HeldBy, ClaimsMarked, AllReservations, SameAlive, KeysSound;
      ghost var h := Places();
      ReleasePlans(h);
      var given := AllReservations(planned);
      planned := [];
      phases := {};
      assert Places() == h.(planned := []);
      ElsewhereIsNotWaiting(table.live, given, Places());
      ReleaseMany(given, HeldBy(Places()), Waiting(commands));
    }

    /** Takes all commands waiting, in the order in which they are to be applied. */
    method TakeCommands() returns (all: seq<Command>, ghost sorted: seq<Batch>)
      requires Valid() && planned == [] && runBatches == [] && !AnyClaimed(buffers)
      modifies this`commands, this`batches
      ensures table.Valid() && multiset(table.live) == multiset(CreatesOf(all))
      ensures all == old(commands) + Flatten(sorted)
      ensures SortedBy(BatchBefore, sorted) && multiset(sorted) == multiset(old(batches)) && KeysSound([], [], own)
      ensures |all| == |old(commands)| + CommandCount(old(batches)) && commands == [] && batches == []
    {
      hide *;
      ghost var h := Places();
      PartsOf(this);
      KeysAfterDiscard(batches, [], own);
      BatchBeforeIsStrict();
      var inOrder := Sort(BatchBefore, batches);
      sorted := inOrder;
      all := commands + Flatten(inOrder);
      CommandsTaken(h, inOrder);
      batches := [];
      commands := [];
    }

    /** Puts back the commands that a failed commit did not reach. */
    method KeepRest(rest: seq<Command>)
      requires table.Valid() && multiset(table.live) == multiset(CreatesOf(rest))
      requires planned == [] && runBatches == [] && batches == [] && ClaimsMarked(buffers)
      requires !AnyClaimed(buffers) && KeysSound([], [], own)
      modifies this`commands
      ensures Valid() && commands == rest
    {
      hide E.EntityTable.Valid, HeldBy, ClaimsMarked, OfBuffer, CreatesOf, KeysSound;
      Unclaimed(buffers);
      commands := rest;
      OnlyCommands(Places());
      AllWaiting(table.View(), rest);
    }

    /** With every reservation used up nothing is pending; the free list is put in order. */
    method Finish()
      requires table.Valid() && multiset(table.live) == multiset{} && commands == []
      requires planned == [] && runBatches == [] && batches == [] && ClaimsMarked(buffers)
      requires !AnyClaimed(buffers) && KeysSound([], [], own)
      modifies table
      ensures Valid() && table.live == {} && table.pendingCreates == 0 && table.pendingAppends == []
      ensures Partitioned(table.View()) && Settled(table.View(), {}) && SortedBy(E.Lower, table.freeIndices)
    {
      Unclaimed(buffers);
      EmptyLive(table.live);
      hide E.EntityTable.Valid, HeldBy, ClaimsMarked, OfBuffer, CreatesOf, TableInv, Partitioned, Settled, SortedBy, HasEntity,
        KeysSound;
      OnlyCommands(Places());
      NoCreates();
      TableIsSound(table);
      E.NothingPending(table.View());
      table.ClearPending();
      table.SortFree();
      TableIsSound(table);
      DoneIsSettled(table.View(), Waiting([]));
    }

    /**
     * Commits everything deferred: unclaimed plans are released, the batches sorted, and the commands applied in
     * that order. If none fails, every reservation is used up and every slot is alive or free.
     */
    method Commit() returns (result: Result<(), PhaseError>)
      requires Valid() && runBatches == []
      requires table.topology.epoch + |commands| + CommandCount(batches) < M.MAX_EPOCH
      modifies this`planned, this`phases, this`commands, this`batches, this`applied, table, table.topology
      ensures Valid() && UniqueKeys(old(batches))
      ensures result == Err(BUFFERS_OUTSTANDING) <==> AnyClaimed(buffers)
      ensures result == Err(BUFFERS_OUTSTANDING) ==> table.View() == old(table.View()) && commands == old(commands)
      ensures result != Err(BUFFERS_OUTSTANDING) ==> planned == [] && phases == {} && batches == []
      ensures result != Err(BUFFERS_OUTSTANDING) ==>
        exists sorted, k: nat ::
          && AppliedInOrder(old(commands), old(batches), sorted, k, old(applied), applied, commands)
          && (result.Ok? <==> k == |old(commands) + Flatten(sorted)|)
          && (result.Err? ==> Fails(table.topology.forest, (old(commands) + Flatten(sorted))[k]))
      ensures |old(applied)| <= |applied| && applied[..|old(applied)|] == old(applied)
      ensures DoesAll(table.topology.worldId, old(table.topology.forest), applied[|old(applied)|..], table.topology.forest)
      ensures forall e :: table.IsAlive(e) <==> H.EntityReference(table.topology.worldId, e) in table.topology.forest
      ensures result.Ok? ==>
        && table.live == {} && table.pendingCreates == 0 && table.pendingAppends == []
        && Partitioned(table.View()) && Settled(table.View(), {}) && SortedBy(E.Lower, table.freeIndices)
    {
      hide *;
      BatchKeysDiffer(this);
      NothingDone(table.topology.worldId, table.topology.forest);
      if AnyClaimed(buffers) {
        PartsOf(this);
        AliveIsInForest(table);
        assert applied[|applied|..] == [];
        return Err(BUFFERS_OUTSTANDING);
      }
      ghost var c, b, log := commands, batches, applied;
      ReleaseUnclaimedPlans();
      ghost var sorted, k;
      var ok;
      ok, sorted, k := CommitCommands();
      assert AppliedInOrder(c, b, sorted, k, log, applied, commands) && (ok <==> k == |c + Flatten(sorted)|);
      LogGrows(c, b, sorted, k, log, applied, commands);
      PartsOf(this);
      AliveIsInForest(table);
      if ok {
        return Ok(());
      } else {
        return Err(COMMAND_FAILED);
      }
    }

    /** Commits when no plan and no claim is left. */
    method CommitCommands() returns (ok: bool, ghost sorted: seq<Batch>, ghost k: nat)
      requires Valid() && planned == [] && runBatches == [] && !AnyClaimed(buffers)
      requires table.topology.epoch + |commands| + CommandCount(batches) < M.MAX_EPOCH
      modifies this`commands, this`batches, this`applied, table, table.topology
      ensures Valid() && batches == []
      ensures AppliedInOrder(old(commands), old(batches), sorted, k, old(applied), applied, commands)
      ensures ok <==> k == |old(commands) + Flatten(sorted)|
      ensures DoesAll(table.topology.worldId, old(table.topology.forest), (old(commands) + Flatten(sorted))[..k], table.topology.forest)
      ensures !ok ==> Fails(table.topology.forest, (old(commands) + Flatten(sorted))[k])
      ensures ok ==>
        && table.live == {} && table.pendingCreates == 0 && table.pendingAppends == []
        && Partitioned(table.View()) && Settled(table.View(), {}) && SortedBy(E.Lower, table.freeIndices)
    {
      ghost var c, b, log := commands, batches, applied;
      hide *;
      PartsOf(this);
      var all;
      all, sorted := TakeCommands();
      var done := ApplyTaken(all);
      k := done;
      ok := done == |all|;
      OrderWitness(c, b, sorted, all, k, log, applied, commands);
    }

    /** Applies the commands taken, and finishes the commit or puts back what is left. */
    method ApplyTaken(all: seq<Command>) returns (done: nat)
      requires table.Valid() && multiset(table.live) == multiset(CreatesOf(all)) && commands == []
      requires planned == [] && runBatches == [] && batches == [] && ClaimsMarked(buffers) && !AnyClaimed(buffers)
      requires KeysSound([], [], own)
      requires table.topology.epoch + |all| < M.MAX_EPOCH
      modifies this`commands, this`applied, table, table.topology
      ensures Valid() && done <= |all| && applied == old(applied) + all[..done]
      ensures commands == if done < |all| then all[done + 1..] else []
      ensures DoesAll(table.topology.worldId, old(table.topology.forest), all[..done], table.topology.forest)
      ensures done < |all| ==> Fails(table.topology.forest, all[done])
      ensures done == |all| ==>
        && table.live == {} && table.pendingCreates == 0 && table.pendingAppends == []
        && Partitioned(table.View()) && Settled(table.View(), {}) && SortedBy(E.Lower, table.freeIndices)
    {
      hide *;
      done := ApplyAll(all);
      if done < |all| {
        KeepRest(all[done + 1..]);
      } else {
        Finish();
      }
    }

    /** Applies commands in order until one fails; nothing is held by those that have been applied. */
    method ApplyAll(all: seq<Command>) returns (done: nat)
      requires table.Valid() && multiset(table.live) == multiset(CreatesOf(all))
      requires table.topology.epoch + |all| < M.MAX_EPOCH
      modifies this`applied, table, table.topology
      ensures table.Valid() && done <= |all| && applied == old(applied) + all[..done]
      ensures if done < |all| then !all[done].CREATE? && multiset(table.live) == multiset(CreatesOf(all[done + 1..]))
              else multiset(table.live) == multiset{}
      ensures DoesAll(table.topology.worldId, old(table.topology.forest), all[..done], table.topology.forest)
      ensures done < |all| ==> Fails(table.topology.forest, all[done])
    {
      hide *;
      assert all[0..] == all;
      NothingDone(table.topology.worldId, table.topology.forest);
      for i := 0 to |all|
        invariant table.Valid() && multiset(table.live) == multiset(CreatesOf(all[i..]))
        invariant table.topology.epoch <= old(table.topology.epoch) + i
        invariant applied == old(applied) + all[..i]
        invariant DoesAll(table.topology.worldId, old(table.topology.forest), all[..i], table.topology.forest)
      {
        var c := all[i];
        ghost var f := table.topology.forest;
        CreatesFrom(all, i);
        assert all[..i + 1] == all[..i] + [c];
        if c.CREATE? {
          LiveRemoved(table.live, c.reservation, multiset(CreatesOf(all[i + 1..])));
        }
        var ok := ApplyOne(c);
        if !ok {
          return i;
        }
        applied := applied + [c];
        DoesOneMore(table.topology.worldId, old(table.topology.forest), all[..i], f, c, table.topology.forest);
      }
      assert all[|all|..] == [] && all[..|all|] == all;
      NoCreates();
      return |all|;
    }
  }

  // ------------------------------------------------------- steps of the methods

  /** The topology has exactly the entities that are alive. */
  lemma AliveIsInForest(table: E.EntityTable)
    requires table.Valid()
    ensures H.IsForest(table.topology.forest)
    ensures forall e :: table.IsAlive(e) <==> H.EntityReference(table.topology.worldId, e) in table.topology.forest
  {
    hide TableInv, HasEntity, H.IsForest, L.Represents;
  }

  lemma HeldIsDead(table: E.EntityTable, r: Reservation)
    requires table.Valid() && r in table.live
    ensures !table.IsAlive(r.identity)
  {
    AppliedKeepsInv(table.View(), r);
  }

  lemma BornKeys(f: H.Forest, g: H.Forest, x: H.EntityReference)
    requires IsBorn(f, g, x)
    ensures x !in f && g.Keys == f.Keys + {x}
  {
  }

  lemma GoneKeys(f: H.Forest, g: H.Forest, x: H.EntityReference)
    requires IsGone(f, g, x)
    ensures x in f && g.Keys == f.Keys - {x}
  {
  }

  lemma ComponentEffect(worldId: nat, f: H.Forest, c: Command)
    requires H.IsForest(f) && c.COMPONENT?
    ensures if c.fails then Fails(f, c) else Does(worldId, f, c, f)
  {
    hide H.IsForest;
  }

  lemma NotRefused(f: H.Forest, child: H.EntityReference, parent: H.EntityReference, mode: M.ReparentMode)
    requires H.IsForest(f) && !Refuses(f, child, parent, mode)
    ensures child in f && (parent == H.NONE || parent in f) && parent != child
  {
    hide H.IsForest, H.World;
  }

  /** An accepted move, in terms of the links. */
  lemma MovesMeans(f: H.Forest, g: H.Forest, child: H.EntityReference, parent: H.EntityReference, mode: M.ReparentMode)
    requires H.IsForest(f) && H.IsForest(g) && child in f && (parent == H.NONE || parent in f) && child != parent
    requires f[child].parent != parent && g.Keys == f.Keys && M.Moves(f, g, child, parent, mode)
    requires mode == M.KEEP_WORLD ==> forall x :: x in f ==> H.World(g, x) == H.World(f, x)
    ensures IsMoved(f, g, child, parent) && KeepsTransforms(f, g, child, mode)
  {
    hide H.IsForest, H.World, IsMoved, H.Reparented;
    ReparentedIsMoved(f, child, parent, g[child].local);
  }

  lemma PartsOf(p: StructuralPhase)
    requires p.Valid()
    ensures p.table.Valid() && HeldBy(p.Places()) == multiset(p.table.live) && ClaimsMarked(p.buffers)
    ensures KeysSound(p.batches, p.runBatches, p.own) && PhasesOpen(p.planned, p.phases)
    ensures Settled(p.table.View(), Waiting(p.commands))
    ensures forall s :: s in p.own ==> CreatesOf(s.commands) == []
    ensures p.table.View().live == p.table.live
  {
  }

  lemma BatchKeysDiffer(p: StructuralPhase)
    requires p.Valid()
    ensures UniqueKeys(p.batches)
  {
    UniqueParts(p.batches, p.runBatches);
  }

  lemma Conserved(p: StructuralPhase, h: Holdings)
    requires h == Holdings(p.commands, p.planned, p.batches, p.runBatches, p.buffers)
    requires p.table.Valid() && HeldBy(h) == multiset(p.table.live) && ClaimsMarked(p.buffers)
    requires KeysSound(p.batches, p.runBatches, p.own) && PhasesOpen(p.planned, p.phases)
    requires Settled(p.table.View(), Waiting(p.commands))
    ensures p.Valid()
  {
  }

  lemma EmptyBuffer(key: ProducerKey, reservations: seq<Reservation>)
    ensures reservations == [] ==> OfBuffer(Buffer(key, false, [], reservations)) == multiset{}
  {
  }

  lemma SameHoldings(h: Holdings, id: nat, b: Buffer)
    requires id < |h.buffers| && OfBuffer(b) == OfBuffer(h.buffers[id])
    ensures HeldBy(h.(buffers := h.buffers[id := b])) == HeldBy(h)
  {
    hide OfBuffer, HeldBy;
    ReplaceBuffer(h, id, b, multiset{});
  }

  lemma KeyIgnoresSubmission(batches: seq<Batch>, b: Buffer, submission: nat)
    ensures forall x :: x in batches ==> (SameKey(x, BatchOf(b, submission)) <==> SameKey(x, BatchOf(b, 0)))
  {
  }

  lemma NoReservations(t: Table)
    ensures ReservesRun(t, 0, [], t)
  {
  }

  lemma NoPlans(t: Table)
    ensures PlansRun(t, [], [], t) && Creates([]) == 0
  {
  }

  lemma TableIsSound(table: E.EntityTable)
    requires table.Valid()
    ensures TableInv(table.View()) && table.View().live == table.live
  {
  }

  lemma ClaimsKept(buffers: seq<Buffer>, id: nat, b: Buffer)
    requires ClaimsMarked(buffers) && id < |buffers|
    requires b.claimed == buffers[id].claimed && OfBuffer(b) == OfBuffer(buffers[id])
    ensures ClaimsMarked(buffers[id := b])
  {
  }

  lemma CreatesFrom(all: seq<Command>, i: nat)
    requires i < |all|
    ensures multiset(CreatesOf(all[i..])) ==
            (if all[i].CREATE? then multiset{all[i].reservation} else multiset{}) + multiset(CreatesOf(all[i + 1..]))
  {
    assert all[i..] == [all[i]] + all[i + 1..];
    CreatesConcat([all[i]], all[i + 1..]);
    CreatesOne(all[i]);
    hide CreatesOf;
  }

  /**
   * The commands applied are a prefix of the main thread's commands followed by those of the sorted batches: all
   * of them, or those before a failed one, which alone is lost.
   */
  ghost predicate AppliedInOrder(commands: seq<Command>, batches: seq<Batch>, sorted: seq<Batch>, k: nat,
                                 log: seq<Command>, longer: seq<Command>, left: seq<Command>)
  {
    var all := commands + Flatten(sorted);
    && SortedBy(BatchBefore, sorted) && multiset(sorted) == multiset(batches)
    && k <= |all| && longer == log + all[..k]
    && left == if k < |all| then all[k + 1..] else []
  }

  lemma LogGrows(commands: seq<Command>, batches: seq<Batch>, sorted: seq<Batch>, k: nat, log: seq<Command>,
                 longer: seq<Command>, left: seq<Command>)
    requires AppliedInOrder(commands, batches, sorted, k, log, longer, left)
    ensures k <= |commands + Flatten(sorted)| && |log| <= |longer| && longer[..|log|] == log
    ensures longer[|log|..] == (commands + Flatten(sorted))[..k]
  {
    hide Flatten;
  }

  lemma OrderWitness(commands: seq<Command>, batches: seq<Batch>, sorted: seq<Batch>, all: seq<Command>, k: nat,
                     log: seq<Command>, longer: seq<Command>, left: seq<Command>)
    requires all == commands + Flatten(sorted)
    requires SortedBy(BatchBefore, sorted) && multiset(sorted) == multiset(batches)
    requires k <= |all| && longer == log + all[..k]
    requires left == if k < |all| then all[k + 1..] else []
    ensures AppliedInOrder(commands, batches, sorted, k, log, longer, left)
  {
  }

  /**
   * Two commits of the same batches, submitted in different orders, apply the same commands in the same order when
   * neither fails, and a failing one applies a prefix of them.
   */
  lemma SubmissionOrderIsIrrelevant(commands: seq<Command>, p: seq<Batch>, q: seq<Batch>, sortedP: seq<Batch>,
                                    sortedQ: seq<Batch>, j: nat, k: nat, log: seq<Command>, longerP: seq<Command>,
                                    longerQ: seq<Command>, leftP: seq<Command>, leftQ: seq<Command>)
    requires UniqueKeys(p) && multiset(StripAll(p)) == multiset(StripAll(q))
    requires AppliedInOrder(commands, p, sortedP, j, log, longerP, leftP)
    requires AppliedInOrder(commands, q, sortedQ, k, log, longerQ, leftQ)
    ensures if j <= k then longerP <= longerQ else longerQ <= longerP
    ensures j == k ==> longerP == longerQ && leftP == leftQ
  {
    CommandOrderIsDeterministic(p, q, sortedP, sortedQ);
    var all := commands + Flatten(sortedP);
    assert j <= k ==> all[..j] <= all[..k];
    assert k <= j ==> all[..k] <= all[..j];
  }

  /**
   * Two commits of the same batches, submitted in different orders, from the same hierarchy: they answer the same, apply
   * the same commands, keep the same rest, and leave the same hierarchy with the same handles alive.
   */
  lemma CommitsLeaveTheSame(commands: seq<Command>, p: seq<Batch>, q: seq<Batch>, sortedP: seq<Batch>, sortedQ: seq<Batch>,
                            j: nat, k: nat, log: seq<Command>, longerP: seq<Command>, longerQ: seq<Command>,
                            leftP: seq<Command>, leftQ: seq<Command>, worldId: nat, f: H.Forest, g: H.Forest, h: H.Forest)
    requires UniqueKeys(p) && multiset(StripAll(p)) == multiset(StripAll(q))
    requires AppliedInOrder(commands, p, sortedP, j, log, longerP, leftP)
    requires AppliedInOrder(commands, q, sortedQ, k, log, longerQ, leftQ)
    requires DoesAll(worldId, f, longerP[|log|..], g) && DoesAll(worldId, f, longerQ[|log|..], h)
    requires j < |commands + Flatten(sortedP)| ==> Fails(g, (commands + Flatten(sortedP))[j])
    requires k < |commands + Flatten(sortedQ)| ==> Fails(h, (commands + Flatten(sortedQ))[k])
    ensures j == k && longerP == longerQ && leftP == leftQ && g == h
  {
    hide DoesAll, Fails, Flatten, SortedBy;
    CommandOrderIsDeterministic(p, q, sortedP, sortedQ);
    LogGrows(commands, p, sortedP, j, log, longerP, leftP);
    LogGrows(commands, q, sortedQ, k, log, longerQ, leftQ);
    EffectsAreDetermined(worldId, f, commands + Flatten(sortedP), j, k, g, h);
  }

  /** A commit that fails loses the failed command only: committing again applies those that it did not get to. */
  lemma RetryAppliesTheRest(commands: seq<Command>, batches: seq<Batch>, sorted: seq<Batch>, k: nat, log: seq<Command>,
                            longer: seq<Command>, left: seq<Command>, again: seq<Batch>, j: nat, longest: seq<Command>,
                            last: seq<Command>)
    requires AppliedInOrder(commands, batches, sorted, k, log, longer, left)
    requires AppliedInOrder(left, [], again, j, longer, longest, last)
    ensures var all := commands + Flatten(sorted);
      && left == (if k < |all| then all[k + 1..] else []) && j <= |left|
      && longest == log + all[..k] + left[..j]
      && last == (if j < |left| then left[j + 1..] else [])
  {
    assert multiset(again) == multiset([]);
    SameMembers(again, []);
    assert again == [];
    assert left + Flatten(again) == left;
  }

  lemma Unclaimed(buffers: seq<Buffer>)
    requires ClaimsMarked(buffers) && !AnyClaimed(buffers)
    ensures forall k :: 0 <= k < |buffers| ==> OfBuffer(buffers[k]) == multiset{}
  {
  }

  lemma NoCreates()
    ensures multiset(CreatesOf([])) == multiset{}
  {
  }

  /** The same handles are alive. */
  ghost predicate SameAlive(t: Table, u: Table) { forall e :: HasEntity(u, e) <==> HasEntity(t, e) }

  lemma SameAliveReflexive(t: Table)
    ensures SameAlive(t, t)
  {
  }

  lemma SameAliveTransitive(t: Table, u: Table, v: Table)
    requires SameAlive(t, u) && SameAlive(u, v)
    ensures SameAlive(t, v)
  {
    hide HasEntity;
    forall e
      ensures HasEntity(v, e) <==> HasEntity(t, e)
    {
      assert HasEntity(u, e) <==> HasEntity(t, e);
    }
  }

  lemma SettledMeansReleasable(t: Table, r: Reservation, waiting: set<Reservation>)
    requires Settled(t, waiting) && r in t.live && r !in waiting
    ensures !Materialised(t, r)
  {
  }

  lemma ReleasedShape(t: Table, r: Reservation, waiting: set<Reservation>)
    requires TableInv(t) && Settled(t, waiting) && r in t.live && r !in waiting
    ensures var u := Released(t, r);
            && Settled(u, waiting) && |u.entities| == |t.entities| && |u.appends| <= |t.appends| && SameAlive(t, u)
  {
    SettledMeansReleasable(t, r, waiting);
    ReleasedKeepsInv(t, r);
    ShorterWithout(t.appends, r.identity.index);
    hide TableInv, HasEntity;
  }

  lemma {:induction false} ShorterWithout(s: seq<H.Entity>, i: nat)
    ensures |WithoutIndex(s, i)| <= |s|
  {
    if s != [] && s[0].index != i {
      ShorterWithout(s[1..], i);
    }
  }

  function Creates(producers: seq<Producer>): nat {
    if producers == [] then 0 else producers[0].creates + Creates(producers[1..])
  }

  lemma {:induction false} CreatesSum(xs: seq<Producer>, ys: seq<Producer>)
    ensures Creates(xs + ys) == Creates(xs) + Creates(ys)
  {
    if xs == [] {
      assert xs + ys == ys;
    } else {
      assert (xs + ys)[1..] == xs[1..] + ys;
      CreatesSum(xs[1..], ys);
    }
  }

  lemma {:induction false} CreatesRearranged(xs: seq<Producer>, ys: seq<Producer>)
    requires multiset(xs) == multiset(ys)
    ensures Creates(xs) == Creates(ys)
  {
    SameMembers(xs, ys);
    if xs != [] {
      var k := RemoveSame(xs, ys);
      CreatesRearranged(xs[1..], ys[..k] + ys[k + 1..]);
      assert ys == ys[..k] + ([ys[k]] + ys[k + 1..]);
      CreatesSum(ys[..k], [ys[k]] + ys[k + 1..]);
      CreatesSum([ys[k]], ys[k + 1..]);
      CreatesSum(ys[..k], ys[k + 1..]);
    }
  }

  lemma CreatesPrefix(xs: seq<Producer>, k: nat)
    requires k < |xs|
    ensures Creates(xs[..k]) + xs[k].creates == Creates(xs[..k + 1]) <= Creates(xs)
  {
    assert xs[..k + 1] == xs[..k] + [xs[k]] && xs == xs[..k + 1] + xs[k + 1..];
    CreatesSum(xs[..k], [xs[k]]);
    CreatesSum(xs[..k + 1], xs[k + 1..]);
  }

  lemma DuplicateFound(producers: seq<Producer>, sorted: seq<Producer>, k: nat)
    requires multiset(sorted) == multiset(producers) && 1 <= k < |sorted| && sorted[k - 1].key == sorted[k].key
    ensures !UniqueProducers(producers)
  {
    assert !DifferentKeys(sorted[k - 1], sorted[k]);
    if UniqueProducers(producers) {
      PairwiseInAnyOrder(DifferentKeys, producers, sorted);
    }
  }

  /** In a sorted list equal keys would be neighbours. */
  lemma SortedKeysDiffer(producers: seq<Producer>, sorted: seq<Producer>)
    requires SortedBy(ProducerBefore, sorted) && multiset(sorted) == multiset(producers)
    requires forall j :: 1 <= j < |sorted| ==> sorted[j - 1].key != sorted[j].key
    ensures UniqueProducers(producers)
  {
    forall i, j | 0 <= i < j < |sorted|
      ensures DifferentKeys(sorted[i], sorted[j])
    {
      assert sorted[j - 1].key != sorted[j].key;
      assert !ProducerBefore(sorted[j], sorted[j - 1]);
      assert i < j - 1 ==> !ProducerBefore(sorted[j - 1], sorted[i]);
    }
    PairwiseInAnyOrder(DifferentKeys, sorted, producers);
  }

  /** The batch a buffer becomes. */
  function BatchOf(b: Buffer, submission: nat): Batch {
    var inSystem := b.key.systemOrder.Some?;
    Batch(if inSystem then SYSTEM else EXTERNAL, if inSystem then b.key.systemOrder.value else 0, inSystem, b.key.order,
          submission, b.commands)
  }

  function SystemPlans(plans: seq<Plan>): seq<Plan> {
    if plans == [] then []
    else (if plans[0].key.systemOrder.Some? then [plans[0]] else []) + SystemPlans(plans[1..])
  }

  function OtherPlans(plans: seq<Plan>): (others: seq<Plan>)
    ensures forall p :: p in others ==> p.key.systemOrder.None?
  {
    if plans == [] then []
    else (if plans[0].key.systemOrder.Some? then [] else [plans[0]]) + OtherPlans(plans[1..])
  }

  lemma TotalCons(plan: Plan, rest: seq<Plan>)
    ensures Total(OfPlan, [plan] + rest) == OfPlan(plan) + Total(OfPlan, rest)
  {
    assert ([plan] + rest)[1..] == rest;
  }

  lemma TotalFirst(plans: seq<Plan>)
    requires plans != []
    ensures Total(OfPlan, plans) == OfPlan(plans[0]) + Total(OfPlan, plans[1..])
  {
  }

  lemma NoTotals()
    ensures Total(OfPlan, []) == multiset{} && SystemPlans([]) == [] && OtherPlans([]) == []
  {
  }

  lemma SplitStep(plans: seq<Plan>)
    requires plans != []
    ensures if plans[0].key.systemOrder.Some?
            then SystemPlans(plans) == [plans[0]] + SystemPlans(plans[1..]) && OtherPlans(plans) == OtherPlans(plans[1..])
            else SystemPlans(plans) == SystemPlans(plans[1..]) && OtherPlans(plans) == [plans[0]] + OtherPlans(plans[1..])
  {
  }

  lemma {:induction false} SplitPlans(plans: seq<Plan>)
    ensures Total(OfPlan, plans) == Total(OfPlan, SystemPlans(plans)) + Total(OfPlan, OtherPlans(plans))
  {
    if plans != [] {
      hide *;
      SplitPlans(plans[1..]);
      SplitStep(plans);
      TotalFirst(plans);
      if plans[0].key.systemOrder.Some? {
        TotalCons(plans[0], SystemPlans(plans[1..]));
      } else {
        TotalCons(plans[0], OtherPlans(plans[1..]));
      }
    } else {
      NoTotals();
    }
  }

  function AllReservations(plans: seq<Plan>): seq<Reservation> {
    if plans == [] then [] else plans[0].reservations + AllReservations(plans[1..])
  }

  lemma {:induction false} AllReservationsTotal(plans: seq<Plan>)
    ensures multiset(AllReservations(plans)) == Total(OfPlan, plans)
  {
    if plans != [] {
      AllReservationsTotal(plans[1..]);
    }
  }

  lemma SortedFreeShape(t: Table, free: seq<nat>, waiting: set<Reservation>)
    requires Settled(t, waiting)
    ensures Settled(t.(free := free), waiting) && SameAlive(t, t.(free := free))
  {
  }

  lemma SameKeysAgree(t: Table, worldId: nat, f: H.Forest, g: H.Forest)
    requires E.Agree(t, worldId, f) && g.Keys == f.Keys
    ensures E.Agree(t, worldId, g)
  {
    hide HasEntity;
    forall e: H.Entity
      ensures HasEntity(t, e) <==> H.EntityReference(worldId, e) in g
    {
      assert HasEntity(t, e) <==> H.EntityReference(worldId, e) in f;
    }
  }

  lemma {:induction false} UnclaimedHoldNothing(buffers: seq<Buffer>)
    requires forall k :: 0 <= k < |buffers| ==> OfBuffer(buffers[k]) == multiset{}
    ensures Total(OfBuffer, buffers) == multiset{}
  {
    if buffers != [] {
      assert OfBuffer(buffers[0]) == multiset{};
      assert forall k :: 0 <= k < |buffers[1..]| ==> buffers[1..][k] == buffers[k + 1];
      UnclaimedHoldNothing(buffers[1..]);
    }
  }

  function CommandCount(batches: seq<Batch>): nat {
    if batches == [] then 0 else |batches[0].commands| + CommandCount(batches[1..])
  }

  lemma {:induction false} CountSum(xs: seq<Batch>, ys: seq<Batch>)
    ensures CommandCount(xs + ys) == CommandCount(xs) + CommandCount(ys)
  {
    if xs == [] {
      assert xs + ys == ys;
    } else {
      assert (xs + ys)[1..] == xs[1..] + ys;
      CountSum(xs[1..], ys);
    }
  }

  lemma {:induction false} CountRearranged(xs: seq<Batch>, ys: seq<Batch>)
    requires multiset(xs) == multiset(ys)
    ensures CommandCount(xs) == CommandCount(ys)
  {
    SameMembers(xs, ys);
    if xs != [] {
      var k := RemoveSame(xs, ys);
      CountRearranged(xs[1..], ys[..k] + ys[k + 1..]);
      assert ys == ys[..k] + ([ys[k]] + ys[k + 1..]);
      CountSum(ys[..k], [ys[k]] + ys[k + 1..]);
      CountSum([ys[k]], ys[k + 1..]);
      CountSum(ys[..k], ys[k + 1..]);
    }
  }

  lemma {:induction false} FlattenCount(batches: seq<Batch>)
    ensures |Flatten(batches)| == CommandCount(batches)
  {
    if batches != [] {
      var n := |batches| - 1;
      FlattenCount(batches[..n]);
      assert batches == batches[..n] + [batches[n]];
      CountSum(batches[..n], [batches[n]]);
    }
  }

  lemma EmptyLive(live: set<Reservation>)
    requires multiset(live) == multiset{}
    ensures live == {}
  {
    assert forall r :: r in live <==> r in multiset(live);
  }

  lemma DoneIsSettled(t: Table, waiting: set<Reservation>)
    requires TableInv(t) && t.live == {}
    ensures Settled(t, {}) && Settled(t, waiting) && Partitioned(t)
  {
    InvPartitions(t);
  }

  lemma ReservedShape(t: Table, next: nat, waiting: set<Reservation>)
    requires IsNextAppend(t, next) && Settled(t, waiting) && TableInv(t)
    ensures var (u, r) := Reserved(t, next);
            && Settled(u, waiting) && |u.entities| == |t.entities| && |u.appends| <= |t.appends| + 1
            && forall e :: HasEntity(u, e) <==> HasEntity(t, e)
  {
  }
}

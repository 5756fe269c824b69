/** In which order deferred commands are applied, and which identities producers get (ecs/world.cpp). */
module StructuralCommands {
  import opened Wrappers
  import opened Sorting
  import H = HierarchySpec
  import M = Hierarchy
  import opened EntityTableSpec

  /** fails: whether constructing, moving or removing the component throws when the command is applied. */
  datatype Command =
    | CREATE(reservation: Reservation)
    | DESTROY(entity: H.Entity)
    | REPARENT(child: H.EntityReference, parent: H.EntityReference, mode: M.ReparentMode)
    | COMPONENT(payload: nat, fails: bool)

  datatype Source = SYSTEM | EXTERNAL

  datatype Batch = Batch(
    source: Source,
    systemOrder: nat,
    isWorker: bool,
    producerOrder: nat,
    submissionOrder: nat,
    commands: seq<Command>)

  // ------------------------------------------------------ order of the batches

  /** Before all else the key of a batch decides; the submission order only between batches of one key. */
  predicate KeyBefore(a: Batch, b: Batch) {
    if a.source != b.source then a.source == SYSTEM
    else if a.systemOrder != b.systemOrder then a.systemOrder < b.systemOrder
    else if a.isWorker != b.isWorker then b.isWorker
    else a.producerOrder < b.producerOrder
  }

  predicate SameKey(a: Batch, b: Batch) {
    a.source == b.source && a.systemOrder == b.systemOrder && a.isWorker == b.isWorker && a.producerOrder == b.producerOrder
  }

  predicate BatchBefore(a: Batch, b: Batch) {
    KeyBefore(a, b) || (SameKey(a, b) && a.submissionOrder < b.submissionOrder)
  }

  lemma BatchBeforeIsStrict()
    ensures IsStrictOrder(BatchBefore) && IsStrictOrder(KeyBefore)
  {
  }

  ghost predicate UniqueKeys(batches: seq<Batch>) {
    forall i, j :: 0 <= i < j < |batches| ==> !SameKey(batches[i], batches[j])
  }

  /** The batch without its place in the submission order. */
  function Stripped(b: Batch): Batch { b.(submissionOrder := 0) }

  function StripAll(batches: seq<Batch>): (s: seq<Batch>)
    ensures |s| == |batches| && forall i :: 0 <= i < |s| ==> s[i] == Stripped(batches[i])
  {
    seq(|batches|, i requires 0 <= i < |batches| => Stripped(batches[i]))
  }

  /** The commands of the batches one batch after another. */
  function Flatten(batches: seq<Batch>): seq<Command> {
    if batches == [] then [] else Flatten(batches[..|batches| - 1]) + batches[|batches| - 1].commands
  }

  lemma {:induction false} FlattenStripped(batches: seq<Batch>)
    ensures Flatten(StripAll(batches)) == Flatten(batches)
  {
    if batches != [] {
      var n := |batches| - 1;
      FlattenStripped(batches[..n]);
      assert StripAll(batches)[..n] == StripAll(batches[..n]);
    }
  }

  /** Where the commands of a batch stand. */
  lemma {:induction false} FlattenAt(batches: seq<Batch>, i: nat)
    requires i < |batches|
    ensures var p := |Flatten(batches[..i])|;
      && |Flatten(batches[..i + 1])| == p + |batches[i].commands| <= |Flatten(batches)|
      && Flatten(batches)[p..p + |batches[i].commands|] == batches[i].commands
    decreases |batches|
  {
    hide Flatten;
    var n := |batches| - 1;
    var front, own := batches[..n], batches[i].commands;
    FlattenEnd(batches);
    FlattenEnd(batches[..i + 1]);
    assert batches[..i + 1][..i] == batches[..i];
    var p := |Flatten(batches[..i])|;
    if i < n {
      FlattenAt(front, i);
      assert front[..i] == batches[..i] && front[..i + 1] == batches[..i + 1];
      assert Flatten(batches)[p..p + |own|] == Flatten(front)[p..p + |own|];
    } else {
      assert batches[..i + 1] == batches;
      assert Flatten(batches)[p..p + |own|] == own;
    }
  }

  lemma FlattenEnd(batches: seq<Batch>)
    requires batches != []
    ensures Flatten(batches) == Flatten(batches[..|batches| - 1]) + batches[|batches| - 1].commands
  {
  }

  lemma {:induction false} FlattenGrows(batches: seq<Batch>, i: nat, j: nat)
    requires i <= j <= |batches|
    ensures |Flatten(batches[..i])| <= |Flatten(batches[..j])|
    decreases j
  {
    if i < j {
      FlattenGrows(batches, i, j - 1);
      FlattenAt(batches, j - 1);
    }
  }

  /**
   * The commands of systems come before those of others; among them those of a smaller system order; then a system's own
   * before those of its producers; then those of a smaller producer order, and then those submitted earlier.
   */
  lemma EarlierBatchFirst(batches: seq<Batch>, sorted: seq<Batch>, x: Batch, y: Batch) returns (p: nat, q: nat)
    requires SortedBy(BatchBefore, sorted) && multiset(sorted) == multiset(batches) && x in batches && y in batches
    requires
      || (x.source == SYSTEM && y.source == EXTERNAL)
      || (x.source == y.source && x.systemOrder < y.systemOrder)
      || (x.source == y.source && x.systemOrder == y.systemOrder && !x.isWorker && y.isWorker)
      || (x.source == y.source && x.systemOrder == y.systemOrder && x.isWorker == y.isWorker
          && x.producerOrder < y.producerOrder)
      || (x.source == y.source && x.systemOrder == y.systemOrder && x.isWorker == y.isWorker
          && x.producerOrder == y.producerOrder && x.submissionOrder < y.submissionOrder)
    ensures p + |x.commands| <= q && q + |y.commands| <= |Flatten(sorted)|
    ensures Flatten(sorted)[p..p + |x.commands|] == x.commands && Flatten(sorted)[q..q + |y.commands|] == y.commands
  {
    hide Flatten, StripAll;
    SameMembers(sorted, batches);
    var i :| 0 <= i < |sorted| && sorted[i] == x;
    var j :| 0 <= j < |sorted| && sorted[j] == y;
    assert i < j;
    p, q := |Flatten(sorted[..i])|, |Flatten(sorted[..j])|;
    FlattenAt(sorted, i);
    FlattenAt(sorted, j);
    FlattenGrows(sorted, i + 1, j);
  }

  lemma {:induction false} StripMultiset(xs: seq<Batch>, ys: seq<Batch>)
    requires multiset(xs) == multiset(ys)
    ensures multiset(StripAll(xs)) == multiset(StripAll(ys))
  {
    SameMembers(xs, ys);
    if xs != [] {
      var k := RemoveSame(xs, ys);
      var rest := ys[..k] + ys[k + 1..];
      StripMultiset(xs[1..], rest);
      hide StripAll;
      StripHead(xs);
      StripSplits(ys, k);
    }
  }

  lemma StripHead(xs: seq<Batch>)
    requires xs != []
    ensures multiset(StripAll(xs)) == multiset{Stripped(xs[0])} + multiset(StripAll(xs[1..]))
  {
    hide *;
    StripSplits(xs, 0);
    assert xs[..0] + xs[1..] == xs[1..];
  }

  lemma StripSplits(xs: seq<Batch>, k: nat)
    requires k < |xs|
    ensures multiset(StripAll(xs)) == multiset{Stripped(xs[k])} + multiset(StripAll(xs[..k] + xs[k + 1..]))
  {
    var s := StripAll(xs);
    assert s == s[..k] + [s[k]] + s[k + 1..];
    assert StripAll(xs[..k] + xs[k + 1..]) == s[..k] + s[k + 1..];
  }

  lemma KeysDecide(batches: seq<Batch>)
    requires UniqueKeys(batches)
    ensures DecidedBy(KeyBefore, StripAll(batches))
  {
    hide StripAll;
    var s := StripAll(batches);
    forall a, b | a in s && b in s && a != b
      ensures KeyBefore(a, b) || KeyBefore(b, a)
    {
      var i :| 0 <= i < |s| && s[i] == a;
      var j :| 0 <= j < |s| && s[j] == b;
      assert !SameKey(batches[if i < j then i else j], batches[if i < j then j else i]);
    }
  }

  lemma KeysSurvive(xs: seq<Batch>, ys: seq<Batch>)
    requires UniqueKeys(xs) && multiset(StripAll(xs)) == multiset(StripAll(ys)) && SortedBy(BatchBefore, ys)
    ensures SortedBy(KeyBefore, StripAll(ys))
  {
    forall i, j | 0 <= i < j < |ys|
      ensures !KeyBefore(StripAll(ys)[j], StripAll(ys)[i])
    {
      assert !BatchBefore(ys[j], ys[i]);
    }
  }

  /**
   * Two sets of batches that differ only in the order of submission give the same sequence of commands once sorted,
   * when every producer submitted one batch.
   */
  lemma CommandOrderIsDeterministic(p: seq<Batch>, q: seq<Batch>, sortedP: seq<Batch>, sortedQ: seq<Batch>)
    requires UniqueKeys(p) && multiset(StripAll(p)) == multiset(StripAll(q))
    requires SortedBy(BatchBefore, sortedP) && multiset(sortedP) == multiset(p)
    requires SortedBy(BatchBefore, sortedQ) && multiset(sortedQ) == multiset(q)
    ensures Flatten(sortedP) == Flatten(sortedQ)
  {
    BatchBeforeIsStrict();
    StripMultiset(sortedP, p);
    StripMultiset(sortedQ, q);
    KeysSurvive(p, sortedP);
    KeysSurvive(p, sortedQ);
    KeysDecide(p);
    SameMembers(StripAll(p), StripAll(sortedP));
    SortedIsUnique(KeyBefore, StripAll(sortedP), StripAll(sortedQ));
    FlattenStripped(sortedP);
    FlattenStripped(sortedQ);
  }

  // ------------------------------------------------------- declared producers

  datatype ProducerKey = ProducerKey(systemOrder: Option<nat>, order: nat)

  datatype Producer = Producer(key: ProducerKey, creates: nat)

  /** Systems come first, by their order; producers outside systems last. */
  predicate ProducerBefore(a: Producer, b: Producer) {
    var x, y := a.key, b.key;
    if x.systemOrder.None? != y.systemOrder.None? then x.systemOrder.Some?
    else if x.systemOrder.Some? && x.systemOrder.value != y.systemOrder.value then x.systemOrder.value < y.systemOrder.value
    else x.order < y.order
  }

  lemma ProducerBeforeIsStrict()
    ensures IsStrictOrder(ProducerBefore)
  {
  }

  /** Producers of systems stand before those outside, in the order of their systems and then their own. */
  lemma ProducersInOrder(sorted: seq<Producer>, i: nat, j: nat)
    requires SortedBy(ProducerBefore, sorted) && i < j < |sorted|
    ensures var x, y := sorted[i].key, sorted[j].key;
      || (x.systemOrder.Some? && y.systemOrder.None?)
      || (x.systemOrder.Some? && y.systemOrder.Some? && x.systemOrder.value < y.systemOrder.value)
      || (x.systemOrder == y.systemOrder && x.order <= y.order)
  {
    assert !ProducerBefore(sorted[j], sorted[i]);
  }

  predicate DifferentKeys(a: Producer, b: Producer) { a.key != b.key }

  ghost predicate UniqueProducers(producers: seq<Producer>) { Pairwise(DifferentKeys, producers) }

  /** The sorted list of producers is the same however they are listed. */
  lemma ListingOrderIsIrrelevant(p: seq<Producer>, q: seq<Producer>, sortedP: seq<Producer>, sortedQ: seq<Producer>)
    requires UniqueProducers(p) && multiset(p) == multiset(q)
    requires SortedBy(ProducerBefore, sortedP) && multiset(sortedP) == multiset(p)
    requires SortedBy(ProducerBefore, sortedQ) && multiset(sortedQ) == multiset(q)
    ensures sortedP == sortedQ
  {
    ProducerBeforeIsStrict();
    PairwiseInAnyOrder(DifferentKeys, p, sortedP);
    forall a, b | a in sortedP && b in sortedP && a != b
      ensures ProducerBefore(a, b) || ProducerBefore(b, a)
    {
      var i :| 0 <= i < |sortedP| && sortedP[i] == a;
      var j :| 0 <= j < |sortedP| && sortedP[j] == b;
      assert DifferentKeys(sortedP[if i < j then i else j], sortedP[if i < j then j else i]);
    }
    SortedIsUnique(ProducerBefore, sortedP, sortedQ);
  }

  /** What reserving for the producers one after another gives each of them. */
  datatype Plan = Plan(key: ProducerKey, reservations: seq<Reservation>)

  ghost predicate ReservesFirst(t: Table, next: nat, r: Reservation) {
    IsNextAppend(t, next) && r == Reserved(t, next).1
  }

  /** t becomes u by reserving n identities, which rs lists in order. */
  ghost predicate ReservesRun(t: Table, n: nat, rs: seq<Reservation>, u: Table)
    decreases n
  {
    if n == 0 then rs == [] && u == t
    else |rs| == n && exists next :: ReservesFirst(t, next, rs[0]) && ReservesRun(Reserved(t, next).0, n - 1, rs[1..], u)
  }

  lemma {:induction false} ReservesOneMore(t: Table, n: nat, rs: seq<Reservation>, u: Table, next: nat, r: Reservation)
    requires ReservesRun(t, n, rs, u) && ReservesFirst(u, next, r)
    ensures ReservesRun(t, n + 1, rs + [r], Reserved(u, next).0)
    decreases n
  {
    var more := rs + [r];
    if n == 0 {
      assert more[0] == r && more[1..] == [];
      assert ReservesFirst(t, next, more[0]) && ReservesRun(Reserved(t, next).0, 0, more[1..], Reserved(u, next).0);
    } else {
      var a :| ReservesFirst(t, a, rs[0]) && ReservesRun(Reserved(t, a).0, n - 1, rs[1..], u);
      ReservesOneMore(Reserved(t, a).0, n - 1, rs[1..], u, next, r);
      assert more[0] == rs[0] && more[1..] == rs[1..] + [r];
    }
  }

  lemma {:induction false} PlansOneMore(t: Table, producers: seq<Producer>, plans: seq<Plan>, u: Table, p: Producer,
                                        rs: seq<Reservation>, v: Table)
    requires PlansRun(t, producers, plans, u) && ReservesRun(u, p.creates, rs, v)
    ensures PlansRun(t, producers + [p], plans + [Plan(p.key, rs)], v)
    decreases |producers|
  {
    var plan := Plan(p.key, rs);
    var ps, qs := producers + [p], plans + [plan];
    if producers == [] {
      assert ps[1..] == [] && qs[1..] == [];
      assert ReservesRun(t, ps[0].creates, qs[0].reservations, v) && PlansRun(v, ps[1..], qs[1..], v);
    } else {
      var mid :| ReservesRun(t, producers[0].creates, plans[0].reservations, mid) &&
                 PlansRun(mid, producers[1..], plans[1..], u);
      PlansOneMore(mid, producers[1..], plans[1..], u, p, rs, v);
      assert ps[1..] == producers[1..] + [p] && qs[1..] == plans[1..] + [plan];
    }
  }

  ghost predicate PlansRun(t: Table, producers: seq<Producer>, plans: seq<Plan>, u: Table)
    decreases |producers|
  {
    if producers == [] then plans == [] && u == t
    else
      && |plans| == |producers| && plans[0].key == producers[0].key
      && exists mid ::
           ReservesRun(t, producers[0].creates, plans[0].reservations, mid) && PlansRun(mid, producers[1..], plans[1..], u)
  }

  lemma NextAppendIsUnique(t: Table, a: nat, b: nat)
    requires IsNextAppend(t, a) && IsNextAppend(t, b)
    ensures a == b
  {
    assert a < b ==> AppendTaken(t, a);
    assert b < a ==> AppendTaken(t, b);
  }

  lemma {:induction false} ReservesAreDetermined(t: Table, n: nat, rs: seq<Reservation>, u: Table,
                                                 rs': seq<Reservation>, u': Table)
    requires ReservesRun(t, n, rs, u) && ReservesRun(t, n, rs', u')
    ensures rs == rs' && u == u'
    decreases n
  {
    if n > 0 {
      var a :| ReservesFirst(t, a, rs[0]) && ReservesRun(Reserved(t, a).0, n - 1, rs[1..], u);
      var b :| ReservesFirst(t, b, rs'[0]) && ReservesRun(Reserved(t, b).0, n - 1, rs'[1..], u');
      NextAppendIsUnique(t, a, b);
      ReservesAreDetermined(Reserved(t, a).0, n - 1, rs[1..], u, rs'[1..], u');
      assert rs == [rs[0]] + rs[1..] && rs' == [rs'[0]] + rs'[1..];
    }
  }

  /** The identities every producer gets are determined by the table and the sorted list of producers. */
  lemma {:induction false} PlansAreDetermined(t: Table, producers: seq<Producer>, plans: seq<Plan>, u: Table,
                                              plans': seq<Plan>, u': Table)
    requires PlansRun(t, producers, plans, u) && PlansRun(t, producers, plans', u')
    ensures plans == plans' && u == u'
    decreases |producers|
  {
    if producers != [] {
      var n := producers[0].creates;
      var a :| ReservesRun(t, n, plans[0].reservations, a) && PlansRun(a, producers[1..], plans[1..], u);
      var b :| ReservesRun(t, n, plans'[0].reservations, b) && PlansRun(b, producers[1..], plans'[1..], u');
      ReservesAreDetermined(t, n, plans[0].reservations, a, plans'[0].reservations, b);
      PlansAreDetermined(a, producers[1..], plans[1..], u, plans'[1..], u');
      assert plans == [plans[0]] + plans[1..] && plans' == [plans'[0]] + plans'[1..];
    }
  }

  /** The identities handed to declared producers are the same for every order in which they are listed. */
  lemma ProducersGetSameIdentities(t: Table, p: seq<Producer>, q: seq<Producer>, sortedP: seq<Producer>,
                                   sortedQ: seq<Producer>, plans: seq<Plan>, u: Table, plans': seq<Plan>, u': Table)
    requires UniqueProducers(p) && multiset(p) == multiset(q)
    requires SortedBy(ProducerBefore, sortedP) && multiset(sortedP) == multiset(p)
    requires SortedBy(ProducerBefore, sortedQ) && multiset(sortedQ) == multiset(q)
    requires PlansRun(t, sortedP, plans, u) && PlansRun(t, sortedQ, plans', u')
    ensures plans == plans' && u == u'
  {
    ListingOrderIsIrrelevant(p, q, sortedP, sortedQ);
    PlansAreDetermined(t, sortedP, plans, u, plans', u');
  }
}

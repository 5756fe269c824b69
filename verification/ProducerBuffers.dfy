// What a producer's buffer hands out (ecs/world.cpp): the identities planned for it, in order, whatever the other
// producers do and however the producers were listed.
module ProducerBuffers {
  import opened Wrappers
  import opened Sorting
  import H = HierarchySpec
  import opened EntityTableSpec
  import opened StructuralCommands

  /** A producer's buffer; claimed says that it was handed reservations. */
  datatype Buffer = Buffer(key: ProducerKey, claimed: bool, commands: seq<Command>, unused: seq<Reservation>)

  /** Where a producer's plan stands; the number of plans when it has none. */
  function FindPlan(plans: seq<Plan>, key: ProducerKey): (k: nat)
    ensures k <= |plans| && (k < |plans| ==> plans[k].key == key)
    ensures forall j :: 0 <= j < k ==> plans[j].key != key
  {
    if plans == [] || plans[0].key == key then 0 else 1 + FindPlan(plans[1..], key)
  }

  /** The plans without the one that the producer claims. */
  function LeftAfter(plans: seq<Plan>, key: ProducerKey): seq<Plan> {
    var k := FindPlan(plans, key);
    if k < |plans| then plans[..k] + plans[k + 1..] else plans
  }

  /** The buffer a producer opens: a declared one takes its planned reservations along. */
  function Opened(plans: seq<Plan>, key: ProducerKey): Buffer {
    var k := FindPlan(plans, key);
    if k < |plans| then Buffer(key, plans[k].reservations != [], [], plans[k].reservations) else Buffer(key, false, [], [])
  }

  /** What a producer does with its buffer: it asks for an entity, or records a command that reserves nothing. */
  datatype BufferAction = ASK | PUSH(command: Command)

  function AfterAction(b: Buffer, a: BufferAction): Buffer {
    match a
    case ASK =>
      if b.unused == [] then b
      else b.(commands := b.commands + [CREATE(b.unused[0])], unused := b.unused[1..])
    case PUSH(c) => b.(commands := b.commands + [c])
  }

  /** The answers to the questions for an entity, in order; none once nothing is left. */
  function Answers(b: Buffer, actions: seq<BufferAction>): seq<Option<H.Entity>>
    decreases |actions|
  {
    if actions == [] then []
    else
      (if actions[0].PUSH? then [] else if b.unused == [] then [None] else [Some(b.unused[0].identity)])
      + Answers(AfterAction(b, actions[0]), actions[1..])
  }

  /** The k-th question is answered with the k-th identity held, whatever is recorded in between. */
  lemma {:induction false} AnswersInOrder(b: Buffer, actions: seq<BufferAction>, k: nat)
    requires k < |Answers(b, actions)|
    ensures Answers(b, actions)[k] == if k < |b.unused| then Some(b.unused[k].identity) else None
    decreases |actions|
  {
    if actions[0].PUSH? {
      AnswersInOrder(AfterAction(b, actions[0]), actions[1..], k);
    } else if k > 0 {
      AnswersInOrder(AfterAction(b, actions[0]), actions[1..], k - 1);
    }
  }

  /** What one producer claims is nothing to another. */
  lemma ClaimsAreSeparate(plans: seq<Plan>, key: ProducerKey, other: ProducerKey)
    requires key != other
    ensures Opened(LeftAfter(plans, other), key) == Opened(plans, key)
  {
    hide FindPlan;
    var k := FindPlan(plans, other);
    if k < |plans| {
      FindPlanWithout(plans, k, key);
    }
  }

  lemma FindPlanStep(plans: seq<Plan>, key: ProducerKey)
    requires plans != []
    ensures FindPlan(plans, key) == if plans[0].key == key then 0 else 1 + FindPlan(plans[1..], key)
  {
  }

  lemma {:induction false} FindPlanWithout(plans: seq<Plan>, k: nat, key: ProducerKey)
    requires k < |plans| && plans[k].key != key
    ensures var i := FindPlan(plans, key); FindPlan(plans[..k] + plans[k + 1..], key) == if i > k then i - 1 else i
  {
    hide FindPlan;
    FindPlanStep(plans, key);
    if k == 0 {
      assert plans[..0] + plans[1..] == plans[1..];
    } else {
      var left := plans[..k] + plans[k + 1..];
      assert left[1..] == plans[1..][..k - 1] + plans[1..][k..];
      FindPlanStep(left, key);
      if plans[0].key != key {
        FindPlanWithout(plans[1..], k - 1, key);
      }
    }
  }

  /** The plans of the producers that have opened their buffers are gone, in whatever order these were opened. */
  function LeftAfterAll(plans: seq<Plan>, keys: seq<ProducerKey>): seq<Plan> {
    if keys == [] then plans else LeftAfterAll(LeftAfter(plans, keys[0]), keys[1..])
  }

  lemma {:induction false} OpeningOrderIsIrrelevant(plans: seq<Plan>, keys: seq<ProducerKey>, key: ProducerKey)
    requires key !in keys
    ensures Opened(LeftAfterAll(plans, keys), key) == Opened(plans, key)
  {
    if keys != [] {
      OpeningOrderIsIrrelevant(LeftAfter(plans, keys[0]), keys[1..], key);
      ClaimsAreSeparate(plans, key, keys[0]);
    }
  }

  lemma {:induction false} PlansHaveSizes(t: Table, producers: seq<Producer>, plans: seq<Plan>, u: Table)
    requires PlansRun(t, producers, plans, u)
    ensures |plans| == |producers|
    ensures forall k :: 0 <= k < |plans| ==> plans[k].key == producers[k].key && |plans[k].reservations| == producers[k].creates
    decreases |producers|
  {
    if producers != [] {
      var mid :| ReservesRun(t, producers[0].creates, plans[0].reservations, mid) && PlansRun(mid, producers[1..], plans[1..], u);
      PlansHaveSizes(mid, producers[1..], plans[1..], u);
    }
  }

  /** Every declared producer finds its plan, with as many reservations as it declared. */
  lemma DeclaredIsPlanned(t: Table, producers: seq<Producer>, sorted: seq<Producer>, plans: seq<Plan>, u: Table, p: Producer)
    requires UniqueProducers(producers) && multiset(sorted) == multiset(producers) && p in producers
    requires PlansRun(t, sorted, plans, u)
    ensures |Opened(plans, p.key).unused| == p.creates
  {
    PlansHaveSizes(t, sorted, plans, u);
    SameMembers(producers, sorted);
    PairwiseInAnyOrder(DifferentKeys, producers, sorted);
    var i :| 0 <= i < |sorted| && sorted[i] == p;
    var k := FindPlan(plans, p.key);
    assert plans[i].key == p.key;
    KeyHasOnePlace(sorted, k, i);
  }

  lemma KeyHasOnePlace(producers: seq<Producer>, i: nat, j: nat)
    requires UniqueProducers(producers) && i < |producers| && j < |producers| && producers[i].key == producers[j].key
    ensures i == j
  {
  }

  /**
   * A producer's k-th create returns the same identity however the producers were listed, in whatever order the other
   * producers open their buffers, and whatever the producer records in between; and it gets as many as it declared.
   */
  lemma PromisesAreKept(t: Table, p: seq<Producer>, q: seq<Producer>, sortedP: seq<Producer>, sortedQ: seq<Producer>,
                        plansP: seq<Plan>, u: Table, plansQ: seq<Plan>, v: Table, producer: Producer,
                        openedP: seq<ProducerKey>, openedQ: seq<ProducerKey>,
                        actionsP: seq<BufferAction>, actionsQ: seq<BufferAction>, k: nat)
    requires UniqueProducers(p) && multiset(p) == multiset(q) && producer in p
    requires SortedBy(ProducerBefore, sortedP) && multiset(sortedP) == multiset(p)
    requires SortedBy(ProducerBefore, sortedQ) && multiset(sortedQ) == multiset(q)
    requires PlansRun(t, sortedP, plansP, u) && PlansRun(t, sortedQ, plansQ, v)
    requires producer.key !in openedP && producer.key !in openedQ
    ensures var x := Opened(LeftAfterAll(plansP, openedP), producer.key);
            var y := Opened(LeftAfterAll(plansQ, openedQ), producer.key);
            && |x.unused| == producer.creates
            && (k < |Answers(x, actionsP)| ==>
                  Answers(x, actionsP)[k] == if k < producer.creates then Some(x.unused[k].identity) else None)
            && (k < |Answers(x, actionsP)| && k < |Answers(y, actionsQ)| ==>
                  Answers(x, actionsP)[k] == Answers(y, actionsQ)[k])
  {
    ProducersGetSameIdentities(t, p, q, sortedP, sortedQ, plansP, u, plansQ, v);
    OpeningOrderIsIrrelevant(plansP, openedP, producer.key);
    OpeningOrderIsIrrelevant(plansQ, openedQ, producer.key);
    DeclaredIsPlanned(t, p, sortedP, plansP, u, producer);
    var x := Opened(plansP, producer.key);
    if k < |Answers(x, actionsP)| { AnswersInOrder(x, actionsP, k); }
    if k < |Answers(x, actionsQ)| { AnswersInOrder(x, actionsQ, k); }
  }
}

/** What the execution graph of registered systems should be (ecs/world.cpp, BuildSystemExecutionGraph). */
module SystemGraphSpec {
  import opened Wrappers
  import opened Reordering
  import opened TopologicalOrder

  datatype Mode = READ | WRITE

  datatype Access = Access(component: nat, mode: Mode)

  datatype Schedule = Schedule(id: nat, before: seq<nat>, after: seq<nat>)

  datatype System = System(schedule: Option<Schedule>, access: seq<Access>, scoped: bool)

  datatype ExecutionGraph = ExecutionGraph(order: seq<nat>, dependencies: seq<seq<nat>>)

  datatype GraphError = UNSCHEDULED | INVALID_CONSTRAINT | CYCLE

  // ------------------------------------------------------------ constraints

  predicate AllScheduled(systems: seq<System>) {
    forall i :: 0 <= i < |systems| ==> systems[i].schedule.Some?
  }

  function IdOf(system: System): nat { if system.schedule.Some? then system.schedule.value.id else 0 }

  /** The ordering constraints a system declares, as pairs of system IDs, first one first. */
  function PairsOf(system: System): seq<Edge> {
    if system.schedule.None? then []
    else
      var s := system.schedule.value;
      seq(|s.before|, k requires 0 <= k < |s.before| => (s.id, s.before[k])) +
      seq(|s.after|, k requires 0 <= k < |s.after| => (s.after[k], s.id))
  }

  function AllPairs(systems: seq<System>): seq<Edge> {
    if systems == [] then [] else AllPairs(systems[..|systems| - 1]) + PairsOf(systems[|systems| - 1])
  }

  ghost function Ids(systems: seq<System>): set<nat> {
    set i | 0 <= i < |systems| :: IdOf(systems[i])
  }

  /** Registration keeps scheduling IDs unique. */
  ghost predicate UniqueIds(systems: seq<System>) {
    forall i, j :: 0 <= i < j < |systems| ==> IdOf(systems[i]) != IdOf(systems[j])
  }

  ghost function Constraints(systems: seq<System>): set<Edge> { set e | e in AllPairs(systems) }

  ghost predicate ValidConstraint(systems: seq<System>, e: Edge) {
    e.0 != e.1 && e.0 in Ids(systems) && e.1 in Ids(systems)
  }

  // -------------------------------------------------------------- conflicts

  predicate AccessesConflict(a: Access, b: Access) { a.component == b.component && (a.mode == WRITE || b.mode == WRITE) }

  predicate SystemsConflict(a: System, b: System) {
    exists i, j :: 0 <= i < |a.access| && 0 <= j < |b.access| && AccessesConflict(a.access[i], b.access[j])
  }

  /** b has to complete before a starts: by a constraint, or because they conflict and b comes first. */
  ghost predicate DependsOn(systems: seq<System>, order: seq<nat>, b: nat, a: nat)
    requires b < |systems| && a < |systems|
  {
    || (IdOf(systems[b]), IdOf(systems[a])) in Constraints(systems)
    || (Precedes(order, b, a) && SystemsConflict(systems[b], systems[a]) && !(systems[b].scoped && systems[a].scoped))
  }

  /** The IDs of the systems at the given registration indices. */
  function IdsAt(systems: seq<System>, order: seq<nat>): (ids: seq<nat>)
    requires forall k :: 0 <= k < |order| ==> order[k] < |systems|
    ensures |ids| == |order|
  {
    seq(|order|, k requires 0 <= k < |order| => IdOf(systems[order[k]]))
  }

  /** The canonical order over IDs: it mentions neither registration indices nor component accesses. */
  ghost function CanonicalOrder(systems: seq<System>): seq<nat> {
    LeastOrder(Ids(systems), Constraints(systems))
  }

  ghost predicate IsPermutation(order: seq<nat>, n: nat) {
    Distinct(order) && forall x: nat :: x in order <==> x < n
  }

  ghost predicate IsExecutionGraph(systems: seq<System>, graph: ExecutionGraph) {
    && IsPermutation(graph.order, |systems|)
    && (forall k :: 0 <= k < |graph.order| ==> graph.order[k] < |systems|)
    && IdsAt(systems, graph.order) == CanonicalOrder(systems)
    && |graph.dependencies| == |systems|
    && (forall a: nat, b: nat :: a < |systems| && b < |systems| ==>
          (b in graph.dependencies[a] <==> DependsOn(systems, graph.order, b, a)))
    && (forall a: nat, b: nat :: a < |systems| && b in graph.dependencies[a] ==> b < |systems|)
  }

  /** Which answer is due. */
  ghost function Verdict(systems: seq<System>): Option<GraphError> {
    if !AllScheduled(systems) then Some(UNSCHEDULED)
    else if exists e :: e in Constraints(systems) && !ValidConstraint(systems, e) then Some(INVALID_CONSTRAINT)
    else if !Acyclic(Ids(systems), Constraints(systems)) then Some(CYCLE)
    else None
  }

  // ---------------------------------------- independence of the registration order

  ghost predicate Schedules(systems: seq<System>, s: Option<Schedule>) {
    exists i :: 0 <= i < |systems| && systems[i].schedule == s
  }

  /** The same schedules are registered, in whatever order and with whatever accesses. */
  ghost predicate SameSchedules(p: seq<System>, q: seq<System>) {
    forall s :: Schedules(p, s) <==> Schedules(q, s)
  }

  lemma {:induction false} PairsFrom(systems: seq<System>, e: Edge)
    ensures e in AllPairs(systems) <==> exists i :: 0 <= i < |systems| && e in PairsOf(systems[i])
  {
    if systems != [] {
      var front, last := systems[..|systems| - 1], systems[|systems| - 1];
      PairsFrom(front, e);
      assert forall i :: 0 <= i < |front| ==> front[i] == systems[i];
    }
  }

  lemma SubsetOfSchedules(p: seq<System>, q: seq<System>)
    requires SameSchedules(p, q)
    ensures Ids(p) <= Ids(q) && Constraints(p) <= Constraints(q)
    ensures AllScheduled(q) ==> AllScheduled(p)
  {
    forall i | 0 <= i < |p|
      ensures exists j :: 0 <= j < |q| && q[j].schedule == p[i].schedule
    {
      assert Schedules(p, p[i].schedule);
      assert Schedules(q, p[i].schedule);
    }
    forall e: Edge | e in AllPairs(p)
      ensures e in AllPairs(q)
    {
      PairsFrom(p, e);
      PairsFrom(q, e);
      var i :| 0 <= i < |p| && e in PairsOf(p[i]);
      var j :| 0 <= j < |q| && q[j].schedule == p[i].schedule;
      assert PairsOf(q[j]) == PairsOf(p[i]);
    }
  }

  /**
   * The verdict and the canonical order are the same for every order in which the same schedules are
   * registered, and they do not depend on what the systems access.
   */
  lemma RegistrationOrderIsIrrelevant(p: seq<System>, q: seq<System>)
    requires SameSchedules(p, q)
    ensures Verdict(p) == Verdict(q)
    ensures CanonicalOrder(p) == CanonicalOrder(q)
  {
    SubsetOfSchedules(p, q);
    SubsetOfSchedules(q, p);
    assert Ids(p) == Ids(q) && Constraints(p) == Constraints(q);
    assert forall e :: ValidConstraint(p, e) <==> ValidConstraint(q, e);
  }

  // ------------------------------------------------ what the graph guarantees

  /** The order respects every constraint. */
  lemma CanonicalOrderRespectsConstraints(systems: seq<System>, graph: ExecutionGraph, b: nat, a: nat)
    requires UniqueIds(systems) && Verdict(systems) == None && IsExecutionGraph(systems, graph)
    requires b < |systems| && a < |systems| && (IdOf(systems[b]), IdOf(systems[a])) in Constraints(systems)
    ensures Precedes(graph.order, b, a)
  {
    CompleteIffAcyclic(Ids(systems), Constraints(systems));
    var ids := IdsAt(systems, graph.order);
    assert b in graph.order && a in graph.order;
    var i :| 0 <= i < |graph.order| && graph.order[i] == b;
    var j :| 0 <= j < |graph.order| && graph.order[j] == a;
    assert ids[i] == IdOf(systems[b]) && ids[j] == IdOf(systems[a]);
    assert (ids[i], ids[j]) in Constraints(systems);
    assert IsTopologicalOrder(ids, Ids(systems), Constraints(systems));
  }

  /** A dependency always points forward in the order: no wait can be circular. */
  lemma DependenciesPointForward(systems: seq<System>, graph: ExecutionGraph, b: nat, a: nat)
    requires UniqueIds(systems) && Verdict(systems) == None && IsExecutionGraph(systems, graph)
    requires b < |systems| && a < |systems| && b in graph.dependencies[a]
    ensures Precedes(graph.order, b, a)
  {
    assert DependsOn(systems, graph.order, b, a);
    if (IdOf(systems[b]), IdOf(systems[a])) in Constraints(systems) {
      CanonicalOrderRespectsConstraints(systems, graph, b, a);
    }
  }
}

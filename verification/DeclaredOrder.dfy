/** What the execution graph of registered systems says about what they declared (ecs/world.cpp, BuildSystemExecutionGraph). */
module DeclaredOrder {
  import opened Wrappers
  import opened Reordering
  import opened TopologicalOrder
  import opened SystemGraphSpec

  /** One of the two declares that the system at a runs before the one at b. */
  ghost predicate DeclaredBefore(systems: seq<System>, a: nat, b: nat)
    requires AllScheduled(systems) && a < |systems| && b < |systems|
  {
    || systems[b].schedule.value.id in systems[a].schedule.value.before
    || systems[a].schedule.value.id in systems[b].schedule.value.after
  }

  /** The schedule puts the system with the first ID before the one with the second. */
  ghost predicate Declares(s: Schedule, x: nat, y: nat) { (x == s.id && y in s.before) || (y == s.id && x in s.after) }

  lemma PairsMean(system: System, x: nat, y: nat)
    requires system.schedule.Some?
    ensures (x, y) in PairsOf(system) <==> Declares(system.schedule.value, x, y)
  {
    var s, pairs := system.schedule.value, PairsOf(system);
    if x == s.id && y in s.before {
      var k :| 0 <= k < |s.before| && s.before[k] == y;
      assert pairs[k] == (x, y);
    }
    if y == s.id && x in s.after {
      var k :| 0 <= k < |s.after| && s.after[k] == x;
      assert pairs[|s.before| + k] == (x, y);
    }
    if k :| 0 <= k < |pairs| && pairs[k] == (x, y) {
      if k < |s.before| {
        assert s.before[k] in s.before;
      } else {
        assert s.after[k - |s.before|] in s.after;
      }
    }
  }

  lemma ConstraintsMean(systems: seq<System>, x: nat, y: nat)
    requires AllScheduled(systems)
    ensures (x, y) in Constraints(systems) <==>
            exists i :: 0 <= i < |systems| && Declares(systems[i].schedule.value, x, y)
  {
    hide PairsOf, AllPairs, Declares;
    PairsFrom(systems, (x, y));
    forall i | 0 <= i < |systems|
      ensures (x, y) in PairsOf(systems[i]) <==> Declares(systems[i].schedule.value, x, y)
    {
      PairsMean(systems[i], x, y);
    }
  }

  lemma IdsMean(systems: seq<System>, i: nat, j: nat)
    requires UniqueIds(systems) && AllScheduled(systems) && i < |systems| && j < |systems|
    ensures systems[i].schedule.value.id == systems[j].schedule.value.id <==> i == j
    ensures systems[i].schedule.value.id in Ids(systems) && IdOf(systems[i]) == systems[i].schedule.value.id
  {
    assert IdOf(systems[i]) in Ids(systems);
  }

  lemma EdgesMean(systems: seq<System>, a: nat, b: nat)
    requires UniqueIds(systems) && AllScheduled(systems) && a < |systems| && b < |systems|
    ensures (systems[a].schedule.value.id, systems[b].schedule.value.id) in Constraints(systems) <==>
            DeclaredBefore(systems, a, b)
  {
    hide Constraints, UniqueIds, Ids, IdOf;
    ConstraintsMean(systems, systems[a].schedule.value.id, systems[b].schedule.value.id);
    forall i | 0 <= i < |systems|
      ensures systems[i].schedule.value.id == systems[a].schedule.value.id <==> i == a
      ensures systems[i].schedule.value.id == systems[b].schedule.value.id <==> i == b
    {
      IdsMean(systems, i, a);
      IdsMean(systems, i, b);
    }
  }

  lemma AllScheduledWithoutVerdict(systems: seq<System>)
    requires Verdict(systems) == None
    ensures AllScheduled(systems)
  {
  }

  /**
   * A system runs after every system it is declared behind and before every system it is declared ahead of, and waits for
   * the former.
   */
  lemma DeclaredOrderHolds(systems: seq<System>, graph: ExecutionGraph, a: nat, b: nat)
    requires UniqueIds(systems) && Verdict(systems) == None && IsExecutionGraph(systems, graph)
    requires a < |systems| && b < |systems| && systems[a].schedule.Some? && systems[b].schedule.Some?
    ensures systems[b].schedule.value.id in systems[a].schedule.value.before ==>
              Precedes(graph.order, a, b) && a in graph.dependencies[b]
    ensures systems[b].schedule.value.id in systems[a].schedule.value.after ==>
              Precedes(graph.order, b, a) && b in graph.dependencies[a]
  {
    hide Verdict, Constraints, UniqueIds, CanonicalOrder, IdsAt, Ids, IsPermutation;
    AllScheduledWithoutVerdict(systems);
    EdgesMean(systems, a, b);
    EdgesMean(systems, b, a);
    if DeclaredBefore(systems, a, b) { CanonicalOrderRespectsConstraints(systems, graph, a, b); }
    if DeclaredBefore(systems, b, a) { CanonicalOrderRespectsConstraints(systems, graph, b, a); }
  }

  /**
   * A system waits exactly for those declared ahead of it, and for those that come earlier and access a common component
   * that one of the two writes, unless both are scoped.
   */
  lemma DependenciesExactly(systems: seq<System>, graph: ExecutionGraph, a: nat, b: nat)
    requires UniqueIds(systems) && Verdict(systems) == None && IsExecutionGraph(systems, graph)
    requires a < |systems| && b < |systems| && systems[a].schedule.Some? && systems[b].schedule.Some?
    ensures b in graph.dependencies[a] <==>
      || systems[a].schedule.value.id in systems[b].schedule.value.before
      || systems[b].schedule.value.id in systems[a].schedule.value.after
      || (Precedes(graph.order, b, a) && !(systems[a].scoped && systems[b].scoped) &&
          exists i, j :: 0 <= i < |systems[b].access| && 0 <= j < |systems[a].access|
            && systems[b].access[i].component == systems[a].access[j].component
            && (systems[b].access[i].mode == WRITE || systems[a].access[j].mode == WRITE))
  {
    hide Verdict, Constraints, UniqueIds, CanonicalOrder, IdsAt, Ids, IsPermutation, SystemsConflict;
    AllScheduledWithoutVerdict(systems);
    EdgesMean(systems, b, a);
    ConflictMeans(systems[b], systems[a]);
  }

  lemma ConflictMeans(b: System, a: System)
    ensures SystemsConflict(b, a) <==>
      exists i, j :: 0 <= i < |b.access| && 0 <= j < |a.access| && b.access[i].component == a.access[j].component
                     && (b.access[i].mode == WRITE || a.access[j].mode == WRITE)
  {
    if i, j :| 0 <= i < |b.access| && 0 <= j < |a.access| && b.access[i].component == a.access[j].component
               && (b.access[i].mode == WRITE || a.access[j].mode == WRITE) {
      assert AccessesConflict(b.access[i], a.access[j]);
    }
  }

  // ------------------------------------------------------------ the refusals

  /** Some system names itself, or an ID that no system has. */
  ghost predicate NamesNobody(systems: seq<System>)
    requires AllScheduled(systems)
  {
    exists i, x: nat :: 0 <= i < |systems| && (x in systems[i].schedule.value.before || x in systems[i].schedule.value.after)
      && (x == systems[i].schedule.value.id || forall j :: 0 <= j < |systems| ==> systems[j].schedule.value.id != x)
  }

  lemma IsAnId(systems: seq<System>, x: nat)
    requires AllScheduled(systems)
    ensures x in Ids(systems) <==> exists j :: 0 <= j < |systems| && systems[j].schedule.value.id == x
  {
    if j :| 0 <= j < |systems| && systems[j].schedule.value.id == x { assert IdOf(systems[j]) == x; }
    if x in Ids(systems) {
      var j :| 0 <= j < |systems| && IdOf(systems[j]) == x;
      assert systems[j].schedule.value.id == x;
    }
  }

  lemma BadEdgeNamesNobody(systems: seq<System>, e: Edge)
    requires AllScheduled(systems) && e in Constraints(systems) && !ValidConstraint(systems, e)
    ensures NamesNobody(systems)
  {
    hide Constraints, Ids;
    ConstraintsMean(systems, e.0, e.1);
    IsAnId(systems, e.0);
    IsAnId(systems, e.1);
    assert e == (e.0, e.1);
    var i :| 0 <= i < |systems| && Declares(systems[i].schedule.value, e.0, e.1);
    var named := if e.0 == systems[i].schedule.value.id && e.1 in systems[i].schedule.value.before then e.1 else e.0;
    assert named in systems[i].schedule.value.before || named in systems[i].schedule.value.after;
  }

  lemma NamesNobodyHasBadEdge(systems: seq<System>) returns (e: Edge)
    requires AllScheduled(systems) && NamesNobody(systems)
    ensures e in Constraints(systems) && !ValidConstraint(systems, e)
  {
    hide Constraints, Ids;
    var i, x: nat :| 0 <= i < |systems| && (x in systems[i].schedule.value.before || x in systems[i].schedule.value.after)
      && (x == systems[i].schedule.value.id || forall j :: 0 <= j < |systems| ==> systems[j].schedule.value.id != x);
    var id := systems[i].schedule.value.id;
    e := if x in systems[i].schedule.value.before then (id, x) else (x, id);
    ConstraintsMean(systems, e.0, e.1);
    IsAnId(systems, x);
  }

  /** The declarations are invalid exactly when some system names itself, or an ID that no system has. */
  lemma InvalidExactly(systems: seq<System>)
    requires AllScheduled(systems)
    ensures Verdict(systems) == Some(INVALID_CONSTRAINT) <==>
      exists i, x: nat :: 0 <= i < |systems| && (x in systems[i].schedule.value.before || x in systems[i].schedule.value.after)
        && (x == systems[i].schedule.value.id || forall j :: 0 <= j < |systems| ==> systems[j].schedule.value.id != x)
  {
    hide Constraints, ValidConstraint, Acyclic;
    if e :| e in Constraints(systems) && !ValidConstraint(systems, e) {
      BadEdgeNamesNobody(systems, e);
    }
    if NamesNobody(systems) {
      var e := NamesNobodyHasBadEdge(systems);
    }
  }

  /** A closed walk of systems each of which is declared before the next. */
  ghost predicate Circular(systems: seq<System>, walk: seq<nat>)
    requires AllScheduled(systems)
  {
    && |walk| >= 2 && walk[0] == walk[|walk| - 1]
    && (forall k :: 0 <= k < |walk| ==> walk[k] < |systems|)
    && forall k :: 0 <= k < |walk| - 1 ==> DeclaredBefore(systems, walk[k], walk[k + 1])
  }

  function SystemWith(systems: seq<System>, id: nat): (i: nat)
    requires AllScheduled(systems) && exists j :: 0 <= j < |systems| && systems[j].schedule.value.id == id
    ensures i < |systems| && systems[i].schedule.value.id == id
  {
    if systems[0].schedule.value.id == id then 0 else 1 + SystemWith(systems[1..], id)
  }

  lemma WalkOfSystems(systems: seq<System>, walk: seq<nat>) returns (indices: seq<nat>)
    requires UniqueIds(systems) && AllScheduled(systems) && IsCycle(walk, Ids(systems), Constraints(systems))
    ensures Circular(systems, indices)
  {
    hide Constraints, UniqueIds, Ids, DeclaredBefore;
    forall k | 0 <= k < |walk|
      ensures exists j :: 0 <= j < |systems| && systems[j].schedule.value.id == walk[k]
    {
      IsAnId(systems, walk[k]);
    }
    indices := seq(|walk|, k requires 0 <= k < |walk| => SystemWith(systems, walk[k]));
    forall k | 0 <= k < |indices| - 1
      ensures DeclaredBefore(systems, indices[k], indices[k + 1])
    {
      EdgesMean(systems, indices[k], indices[k + 1]);
    }
    assert indices[0] == indices[|indices| - 1];
  }

  lemma WalkOfIds(systems: seq<System>, walk: seq<nat>) returns (ids: seq<nat>)
    requires UniqueIds(systems) && AllScheduled(systems) && Circular(systems, walk)
    ensures IsCycle(ids, Ids(systems), Constraints(systems))
  {
    hide Constraints, UniqueIds, Ids, DeclaredBefore;
    ids := seq(|walk|, k requires 0 <= k < |walk| => systems[walk[k]].schedule.value.id);
    forall k | 0 <= k < |ids|
      ensures ids[k] in Ids(systems)
    {
      IdsMean(systems, walk[k], walk[k]);
    }
    forall k | 0 <= k < |ids| - 1
      ensures (ids[k], ids[k + 1]) in Constraints(systems)
    {
      EdgesMean(systems, walk[k], walk[k + 1]);
    }
  }

  /** Valid declarations are refused exactly when some systems are declared before one another in a circle. */
  lemma CycleExactly(systems: seq<System>)
    requires UniqueIds(systems) && AllScheduled(systems) && Verdict(systems) != Some(INVALID_CONSTRAINT)
    ensures Verdict(systems) == Some(CYCLE) <==> exists walk :: Circular(systems, walk)
  {
    hide Constraints, UniqueIds, Ids, Circular, ValidConstraint;
    if walk :| IsCycle(walk, Ids(systems), Constraints(systems)) {
      var indices := WalkOfSystems(systems, walk);
    }
    if walk :| Circular(systems, walk) {
      var ids := WalkOfIds(systems, walk);
    }
  }

  // ---------------------------------------------------------- the least order

  lemma NotDeclaredBefore(systems: seq<System>, b: nat, a: nat, placed: seq<nat>)
    requires AllScheduled(systems) && a < |systems| && b < |systems| && DeclaredBefore(systems, b, a)
    requires b !in placed ==>
               && systems[a].schedule.value.id !in systems[b].schedule.value.before
               && systems[b].schedule.value.id !in systems[a].schedule.value.after
    ensures b in placed
  {
  }

  /**
   * Every place of the order goes to the system of least ID among those whose predecessors have all been placed: a system
   * that comes later and could have come here has a greater ID.
   */
  lemma LeastIdFirst(systems: seq<System>, graph: ExecutionGraph, k: nat, m: nat)
    requires UniqueIds(systems) && Verdict(systems) == None && IsExecutionGraph(systems, graph)
    requires AllScheduled(systems) && k < m < |graph.order|
    requires forall b: nat :: b < |systems| && b !in graph.order[..k] ==>
               && systems[graph.order[m]].schedule.value.id !in systems[b].schedule.value.before
               && systems[b].schedule.value.id !in systems[graph.order[m]].schedule.value.after
    ensures systems[graph.order[k]].schedule.value.id < systems[graph.order[m]].schedule.value.id
  {
    hide Constraints, UniqueIds, Ids, DeclaredBefore, Verdict, LeastOrder;
    var order, ids := graph.order, IdsAt(systems, graph.order);
    var edges, nodes := Constraints(systems), Ids(systems);
    IdsMean(systems, order[k], order[m]);
    IdsMean(systems, order[m], order[m]);
    assert order[k] != order[m];
    var x := systems[order[m]].schedule.value.id;
    forall l | 0 <= l < k
      ensures ids[l] != x
    {
      IdsMean(systems, order[l], order[m]);
      assert order[l] != order[m];
    }
    forall y | y in nodes && (y, x) in edges
      ensures y in ids[..k]
    {
      IsAnId(systems, y);
      var b :| 0 <= b < |systems| && systems[b].schedule.value.id == y;
      EdgesMean(systems, b, order[m]);
      NotDeclaredBefore(systems, b, order[m], order[..k]);
      var l :| 0 <= l < k && order[..k][l] == b;
      IdsMean(systems, b, b);
      assert ids[..k][l] == y;
    }
    NextIsLeast(nodes, edges, k, x);
    assert ids[k] == IdOf(systems[order[k]]);
    IdsMean(systems, order[k], order[k]);
  }
}

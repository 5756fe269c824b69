/** Running the systems in parallel changes nothing: every interleaving equals the sequential run in canonical order.
    Here is the run whose systems are ordered by the execution graph alone, and what it shares with the run that
    goes through the access coordinator. */
module SystemRuns {
  import opened Wrappers
  import opened Reordering
  import opened SystemGraphSpec

  /** What a system can touch: components of entities, and its own locals and command buffer. */
  datatype Place = CELL(component: nat, entity: nat) | LOCAL(system: nat)

  /** The k-th atomic step of a system's callback. */
  datatype MicroStep = MicroStep(system: nat, index: nat)

  ghost predicate Declares(system: System, component: nat, mode: Mode) {
    exists k :: 0 <= k < |system.access| && system.access[k].component == component &&
      (mode == READ || system.access[k].mode == WRITE)
  }

  /** A system reads only components it declares, and changes only those it declares for writing, and its own state. */
  ghost predicate StaysDeclared(systems: seq<System>, s: nat, reach: Footprint<Place>)
    requires s < |systems|
  {
    && (forall p :: p in reach.inputs ==>
          if p.CELL? then Declares(systems[s], p.component, READ) else p.system == s)
    && (forall p :: p in reach.outputs ==>
          if p.CELL? then Declares(systems[s], p.component, WRITE) else p.system == s)
  }

  ghost predicate AllDeclared(systems: seq<System>, reach: nat -> Footprint<Place>) {
    forall s: nat :: s < |systems| ==> StaysDeclared(systems, s, reach(s))
  }

  ghost predicate StepsConflict(reach: nat -> Footprint<Place>, a: MicroStep, b: MicroStep) {
    a.system == b.system || Clash(reach(a.system), reach(b.system))
  }

  ghost function Conflict(reach: nat -> Footprint<Place>): (MicroStep, MicroStep) -> bool {
    (a: MicroStep, b: MicroStep) => StepsConflict(reach, a, b)
  }

  ghost function Reach(reach: nat -> Footprint<Place>): MicroStep -> Footprint<Place> {
    (a: MicroStep) => reach(a.system)
  }

  /** Systems that touch a common place, one of them changing it, conflict in what they declare. */
  lemma ClashMeansConflict(systems: seq<System>, reach: nat -> Footprint<Place>, a: nat, b: nat)
    requires AllDeclared(systems, reach) && a < |systems| && b < |systems| && a != b
    requires Clash(reach(a), reach(b))
    ensures SystemsConflict(systems[a], systems[b])
  {
    assert StaysDeclared(systems, a, reach(a)) && StaysDeclared(systems, b, reach(b));
    if reach(a).outputs * reach(b).All() != iset{} {
      var p :| p in reach(a).outputs * reach(b).All();
      CommonCell(systems[a], systems[b], p.component);
    } else {
      var p :| p in reach(b).outputs * reach(a).All();
      CommonCell(systems[b], systems[a], p.component);
    }
  }

  lemma CommonCell(a: System, b: System, component: nat)
    requires Declares(a, component, WRITE) && Declares(b, component, READ)
    ensures SystemsConflict(a, b) && SystemsConflict(b, a)
  {
    var i :| 0 <= i < |a.access| && a.access[i].component == component && a.access[i].mode == WRITE;
    var j :| 0 <= j < |b.access| && b.access[j].component == component;
    assert AccessesConflict(a.access[i], b.access[j]) && AccessesConflict(b.access[j], a.access[i]);
  }

  // ------------------------------------------------------------------- runs

  ghost function StepsOf(s: nat, n: nat): seq<MicroStep> {
    seq(n, k requires 0 <= k < n => MicroStep(s, k))
  }

  /** The sequential run: the callbacks one after another in the given order. */
  ghost function Sequential(order: seq<nat>, lengths: nat -> nat): seq<MicroStep> {
    if order == [] then [] else StepsOf(order[0], lengths(order[0])) + Sequential(order[1..], lengths)
  }

  ghost predicate AllBefore(q: seq<MicroStep>, b: nat, a: nat) {
    forall i, j :: 0 <= i < |q| && 0 <= j < |q| && q[i].system == b && q[j].system == a ==> i < j
  }

  /**
   * An interleaving of a parallel run: every step of every callback happens once, each callback's steps in
   * order, and a system starts only after its dependencies are complete.
   */
  ghost predicate IsInterleaving(systems: seq<System>, graph: ExecutionGraph, lengths: nat -> nat, q: seq<MicroStep>)
    requires |graph.dependencies| == |systems|
  {
    && Distinct(q)
    && (forall m :: m in q <==> m.system < |systems| && m.index < lengths(m.system))
    && (forall i, j :: 0 <= i < j < |q| && q[i].system == q[j].system ==> q[i].index < q[j].index)
    && (forall a: nat, b: nat :: a < |systems| && b in graph.dependencies[a] ==> AllBefore(q, b, a))
  }

  /** Systems that clash run one after the other, in canonical order. */
  ghost predicate OrdersClashes(order: seq<nat>, reach: nat -> Footprint<Place>, q: seq<MicroStep>) {
    forall a: nat, b: nat :: Precedes(order, b, a) && Clash(reach(b), reach(a)) ==> AllBefore(q, b, a)
  }

  lemma {:induction false} SequentialSteps(order: seq<nat>, lengths: nat -> nat)
    requires Distinct(order)
    ensures var p := Sequential(order, lengths);
            && Distinct(p)
            && (forall m :: m in p <==> m.system in order && m.index < lengths(m.system))
            && (forall i, j :: 0 <= i < j < |p| ==>
                  if p[i].system == p[j].system then p[i].index < p[j].index
                  else Precedes(order, p[i].system, p[j].system))
  {
    if order != [] {
      var s, rest := order[0], order[1..];
      var first, later := StepsOf(s, lengths(s)), Sequential(rest, lengths);
      assert order == [s] + rest;
      assert Distinct(rest) && s !in rest;
      SequentialSteps(rest, lengths);
      var p := Sequential(order, lengths);
      assert p == first + later;
      assert forall i :: 0 <= i < |first| ==> first[i] == MicroStep(s, i);
      forall m
        ensures m in p <==> m.system in order && m.index < lengths(m.system)
      {
        if m.system == s && m.index < lengths(s) {
          assert first[m.index] == m;
        }
      }
      forall i, j | 0 <= i < j < |p|
        ensures p[i] != p[j]
        ensures if p[i].system == p[j].system then p[i].index < p[j].index
                else Precedes(order, p[i].system, p[j].system)
      {
        PairInSequence(order, first, later, i, j);
      }
    }
  }

  lemma PairInSequence(order: seq<nat>, first: seq<MicroStep>, later: seq<MicroStep>, i: nat, j: nat)
    requires order != [] && order[0] !in order[1..] && i < j < |first + later|
    requires forall k :: 0 <= k < |first| ==> first[k] == MicroStep(order[0], k)
    requires forall m :: m in later ==> m.system in order[1..]
    requires Distinct(later)
    requires forall k, l :: 0 <= k < l < |later| ==>
      if later[k].system == later[l].system then later[k].index < later[l].index
      else Precedes(order[1..], later[k].system, later[l].system)
    ensures var p := first + later;
            && p[i] != p[j]
            && if p[i].system == p[j].system then p[i].index < p[j].index
               else Precedes(order, p[i].system, p[j].system)
  {
    var p := first + later;
    if j >= |first| {
      var l := j - |first|;
      assert p[j] == later[l] && later[l] in later;
      if i < |first| {
        var x :| 0 <= x < |order[1..]| && order[1..][x] == later[l].system;
        assert order[0] == p[i].system && order[x + 1] == p[j].system;
      } else {
        var k := i - |first|;
        assert p[i] == later[k];
        if later[k].system != later[l].system {
          var x, y :| 0 <= x < y < |order[1..]| && order[1..][x] == later[k].system && order[1..][y] == later[l].system;
          assert order[x + 1] == p[i].system && order[y + 1] == p[j].system;
        }
      }
    }
  }

  /** When clashing systems run in canonical order, conflicting steps come in the order of the sequential run. */
  lemma InterleavingKeepsConflicts(systems: seq<System>, graph: ExecutionGraph, reach: nat -> Footprint<Place>,
                                   lengths: nat -> nat, q: seq<MicroStep>)
    requires IsExecutionGraph(systems, graph)
    requires IsInterleaving(systems, graph, lengths, q) && OrdersClashes(graph.order, reach, q)
    ensures Reorders(Conflict(reach), Sequential(graph.order, lengths), q)
  {
    var p := Sequential(graph.order, lengths);
    SequentialSteps(graph.order, lengths);
    StepsAreInOrder(systems, graph, lengths, q);
    forall i, j | 0 <= i < j < |p| && Conflict(reach)(p[i], p[j])
      ensures Precedes(q, p[i], p[j])
    {
      assert p[i] in p && p[j] in p;
      var b, a := p[i].system, p[j].system;
      if a == b {
        SameSystemInOrder(systems, graph, lengths, q, p[i], p[j]);
      } else {
        assert AllBefore(q, b, a);
        StepsBefore(q, p[i], p[j]);
      }
    }
  }

  lemma StepsAreInOrder(systems: seq<System>, graph: ExecutionGraph, lengths: nat -> nat, q: seq<MicroStep>)
    requires IsExecutionGraph(systems, graph) && IsInterleaving(systems, graph, lengths, q)
    ensures Distinct(q) && forall m :: m in q <==> m.system in graph.order && m.index < lengths(m.system)
  {
  }

  lemma SameSystemInOrder(systems: seq<System>, graph: ExecutionGraph, lengths: nat -> nat, q: seq<MicroStep>,
                          m: MicroStep, n: MicroStep)
    requires |graph.dependencies| == |systems| && IsInterleaving(systems, graph, lengths, q)
    requires m in q && n in q && m.system == n.system && m.index < n.index
    ensures Precedes(q, m, n)
  {
    var k :| 0 <= k < |q| && q[k] == m;
    var l :| 0 <= l < |q| && q[l] == n;
    assert k < l;
  }

  lemma StepsBefore(q: seq<MicroStep>, m: MicroStep, n: MicroStep)
    requires m in q && n in q && AllBefore(q, m.system, n.system)
    ensures Precedes(q, m, n)
  {
    var k :| 0 <= k < |q| && q[k] == m;
    var l :| 0 <= l < |q| && q[l] == n;
    assert k < l;
  }

  /** The runs leave the same, and every step sees the same values in both. */
  ghost predicate SameRun<Val(!new)>(reach: nat -> Footprint<Place>, act: (MicroStep, map<Place, Val>) -> map<Place, Val>,
                                     p: seq<MicroStep>, q: seq<MicroStep>, store: map<Place, Val>)
  {
    && Run(act, q, store) == Run(act, p, store)
    && forall i, j :: 0 <= i < |p| && 0 <= j < |q| && p[i] == q[j] ==>
         Seen(Reach(reach))(p[i], Run(act, p[..i], store)) == Seen(Reach(reach))(q[j], Run(act, q[..j], store))
  }

  lemma OrderedRunIsSequential<Val(!new)>(
      systems: seq<System>, graph: ExecutionGraph, reach: nat -> Footprint<Place>, lengths: nat -> nat,
      act: (MicroStep, map<Place, Val>) -> map<Place, Val>, q: seq<MicroStep>, store: map<Place, Val>)
    requires IsExecutionGraph(systems, graph) && AllConfined(act, Reach(reach))
    requires IsInterleaving(systems, graph, lengths, q) && OrdersClashes(graph.order, reach, q)
    ensures SameRun(reach, act, Sequential(graph.order, lengths), q, store)
  {
    InterleavingKeepsConflicts(systems, graph, reach, lengths, q);
    assert ClashesConflict(Reach(reach), Conflict(reach));
    FootprintReordering(act, Reach(reach), Conflict(reach), Sequential(graph.order, lengths), q, store);
  }

  /** Without scoped systems the graph's dependencies order all systems that clash. */
  lemma GraphOrdersClashes(systems: seq<System>, graph: ExecutionGraph, reach: nat -> Footprint<Place>,
                           lengths: nat -> nat, q: seq<MicroStep>)
    requires IsExecutionGraph(systems, graph) && AllDeclared(systems, reach)
    requires forall a :: 0 <= a < |systems| ==> !systems[a].scoped
    requires IsInterleaving(systems, graph, lengths, q)
    ensures OrdersClashes(graph.order, reach, q)
  {
    forall a: nat, b: nat | Precedes(graph.order, b, a) && Clash(reach(b), reach(a))
      ensures AllBefore(q, b, a)
    {
      assert b in graph.order && a in graph.order;
      ClashMeansConflict(systems, reach, b, a);
      assert DependsOn(systems, graph.order, b, a);
      assert b in graph.dependencies[a];
    }
  }

  /**
   * A successful parallel run of systems none of which is scoped leaves the same component store, and every system
   * the same locals and the same recorded commands, as running the callbacks one after another in canonical order;
   * and every step of every callback sees the same values.
   */
  lemma GraphRunIsSequential<Val(!new)>(
      systems: seq<System>, graph: ExecutionGraph, reach: nat -> Footprint<Place>, lengths: nat -> nat,
      act: (MicroStep, map<Place, Val>) -> map<Place, Val>, q: seq<MicroStep>, store: map<Place, Val>)
    requires IsExecutionGraph(systems, graph) && AllDeclared(systems, reach)
    requires forall a :: 0 <= a < |systems| ==> !systems[a].scoped
    requires AllConfined(act, Reach(reach)) && IsInterleaving(systems, graph, lengths, q)
    ensures SameRun(reach, act, Sequential(graph.order, lengths), q, store)
  {
    GraphOrdersClashes(systems, graph, reach, lengths, q);
    OrderedRunIsSequential(systems, graph, reach, lengths, act, q, store);
  }
}

// The order in which a worklist that always takes the smallest ready node visits a
// graph.  The render graph takes the smallest ready declaration index, the ECS graph
// the smallest ready system ID; both are LeastOrder over the nodes they use.
module TopologicalOrder {
  import opened Reordering

  type Edge = (nat, nat)

  /** The nodes of rest that wait for nothing in rest. */
  ghost function Ready(rest: set<nat>, edges: set<Edge>): set<nat> {
    set x | x in rest && forall y :: y in rest ==> (y, x) !in edges
  }

  lemma {:induction false} FindMin(s: set<nat>) returns (m: nat)
    requires s != {}
    ensures m in s && forall x :: x in s ==> m <= x
  {
    var a :| a in s;
    var rest := s - {a};
    m := a;
    if rest != {} {
      var b := FindMin(rest);
      m := if a < b then a else b;
    }
    forall x | x in s
      ensures m <= x
    {
      assert x == a || x in rest;
    }
  }

  lemma MinExists(s: set<nat>)
    requires s != {}
    ensures exists m :: m in s && forall x :: x in s ==> m <= x
  {
    var m := FindMin(s);
  }

  ghost function Min(s: set<nat>): (m: nat)
    requires s != {}
    ensures m in s && forall x :: x in s ==> m <= x
  {
    MinExists(s);
    var m :| m in s && forall x :: x in s ==> m <= x;
    m
  }

  /** Takes the smallest ready node as long as there is one. */
  ghost function LeastOrder(rest: set<nat>, edges: set<Edge>): seq<nat>
    decreases |rest|
  {
    var ready := Ready(rest, edges);
    if ready == {} then [] else [Min(ready)] + LeastOrder(rest - {Min(ready)}, edges)
  }

  /** A permutation of the nodes in which no edge points backwards. */
  ghost predicate IsTopologicalOrder(order: seq<nat>, nodes: set<nat>, edges: set<Edge>) {
    && Distinct(order)
    && (forall x :: x in order <==> x in nodes)
    && (forall i, j :: 0 <= i <= j < |order| ==> (order[j], order[i]) !in edges)
  }

  /** A closed walk along the edges. */
  ghost predicate IsCycle(walk: seq<nat>, nodes: set<nat>, edges: set<Edge>) {
    && |walk| >= 2
    && walk[0] == walk[|walk| - 1]
    && (forall i :: 0 <= i < |walk| ==> walk[i] in nodes)
    && (forall i :: 0 <= i < |walk| - 1 ==> (walk[i], walk[i + 1]) in edges)
  }

  ghost predicate Acyclic(nodes: set<nat>, edges: set<Edge>) {
    forall walk :: !IsCycle(walk, nodes, edges)
  }

  // ------------------------------------------------------ incoming counts

  ghost function Predecessors(nodes: set<nat>, edges: set<Edge>, x: nat): set<nat> {
    set y | y in nodes && (y, x) in edges
  }

  lemma AddEdgeCounts(nodes: set<nat>, edges: set<Edge>, e: Edge, x: nat)
    requires e !in edges && e.0 in nodes
    ensures |Predecessors(nodes, edges + {e}, x)| == |Predecessors(nodes, edges, x)| + if e.1 == x then 1 else 0
  {
    var old', now := Predecessors(nodes, edges, x), Predecessors(nodes, edges + {e}, x);
    if e.1 == x {
      assert now == old' + {e.0};
    } else {
      assert now == old';
    }
  }

  lemma DropNodeCounts(rest: set<nat>, edges: set<Edge>, m: nat, x: nat)
    requires m in rest
    ensures |Predecessors(rest - {m}, edges, x)| == |Predecessors(rest, edges, x)| - if (m, x) in edges then 1 else 0
  {
    var old', now := Predecessors(rest, edges, x), Predecessors(rest - {m}, edges, x);
    if (m, x) in edges {
      assert old' == now + {m};
    } else {
      assert old' == now;
    }
  }

  lemma ReadyIffNoPredecessors(rest: set<nat>, edges: set<Edge>, x: nat)
    ensures x in Ready(rest, edges) <==> x in rest && |Predecessors(rest, edges, x)| == 0
  {
    if x in rest && Predecessors(rest, edges, x) == {} {
      forall y | y in rest
        ensures (y, x) !in edges
      {
        assert y !in Predecessors(rest, edges, x);
      }
    }
    if x in Ready(rest, edges) {
      assert Predecessors(rest, edges, x) == {};
    }
  }

  // ------------------------------------------------ what the worklist leaves

  /** The nodes the worklist never reaches. */
  ghost function Stuck(rest: set<nat>, edges: set<Edge>): (stuck: set<nat>)
    ensures stuck <= rest && Ready(stuck, edges) == {}
    decreases |rest|
  {
    var ready := Ready(rest, edges);
    if ready == {} then rest else Stuck(rest - {Min(ready)}, edges)
  }

  lemma {:induction false} LeastOrderElements(rest: set<nat>, edges: set<Edge>)
    ensures Distinct(LeastOrder(rest, edges))
    ensures forall x :: x in LeastOrder(rest, edges) <==> x in rest - Stuck(rest, edges)
    ensures |LeastOrder(rest, edges)| == |rest| - |Stuck(rest, edges)|
    decreases |rest|
  {
    var ready := Ready(rest, edges);
    if ready != {} {
      var m := Min(ready);
      LeastOrderElements(rest - {m}, edges);
      var tail := LeastOrder(rest - {m}, edges);
      assert forall x :: x in LeastOrder(rest, edges) <==> x == m || x in tail;
      assert forall i :: 0 <= i < |tail| ==> tail[i] in tail;
    }
  }

  /** What the worklist emits never runs ahead of an edge, not even of one from a stuck node. */
  lemma {:induction false} LeastOrderRespectsEdges(rest: set<nat>, edges: set<Edge>)
    ensures var order := LeastOrder(rest, edges);
      && (forall i, j :: 0 <= i <= j < |order| ==> (order[j], order[i]) !in edges)
      && (forall i, x :: 0 <= i < |order| && x in Stuck(rest, edges) ==> (x, order[i]) !in edges)
    decreases |rest|
  {
    var ready := Ready(rest, edges);
    if ready != {} {
      var m := Min(ready);
      var order, tail := LeastOrder(rest, edges), LeastOrder(rest - {m}, edges);
      LeastOrderRespectsEdges(rest - {m}, edges);
      LeastOrderElements(rest - {m}, edges);
      assert forall j :: 0 < j < |order| ==> order[j] == tail[j - 1];
      forall i, j | 0 <= i <= j < |order|
        ensures (order[j], order[i]) !in edges
      {
        if i == 0 {
          assert order[j] in rest by { if j > 0 { assert tail[j - 1] in tail; } }
        } else {
          assert order[i] == tail[i - 1] && order[j] == tail[j - 1];
        }
      }
    }
  }

  // ------------------------------------------- complete exactly when acyclic

  lemma {:induction false} Pigeonhole(xs: seq<nat>, s: set<nat>) returns (i: nat, j: nat)
    requires forall k :: 0 <= k < |xs| ==> xs[k] in s
    requires |xs| > |s|
    ensures i < j < |xs| && xs[i] == xs[j]
    decreases |xs|
  {
    var last := |xs| - 1;
    if k :| 0 <= k < last && xs[k] == xs[last] {
      return k, last;
    }
    i, j := Pigeonhole(xs[..last], s - {xs[last]});
  }

  /** In a set where every node waits for another node of the set, edges can be
      followed backwards for any number of steps. */
  lemma {:induction false} BackwardWalk(stuck: set<nat>, edges: set<Edge>, steps: nat) returns (walk: seq<nat>)
    requires stuck != {} && Ready(stuck, edges) == {}
    ensures |walk| == steps + 1
    ensures forall i :: 0 <= i < |walk| ==> walk[i] in stuck
    ensures forall i :: 0 <= i < |walk| - 1 ==> (walk[i], walk[i + 1]) in edges
  {
    if steps == 0 {
      var x :| x in stuck;
      walk := [x];
    } else {
      var tail := BackwardWalk(stuck, edges, steps - 1);
      assert tail[0] !in Ready(stuck, edges);
      var y :| y in stuck && (y, tail[0]) in edges;
      walk := [y] + tail;
    }
  }

  lemma StuckHasCycle(nodes: set<nat>, edges: set<Edge>)
    requires Stuck(nodes, edges) != {}
    ensures !Acyclic(nodes, edges)
  {
    var stuck := Stuck(nodes, edges);
    var walk := BackwardWalk(stuck, edges, |stuck|);
    var i, j := Pigeonhole(walk, stuck);
    var cycle := walk[i..j + 1];
    assert forall k :: 0 <= k < |cycle| ==> cycle[k] == walk[i + k];
    assert IsCycle(cycle, nodes, edges);
  }

  /** Along a walk positions in a topological order only grow. */
  lemma {:induction false} WalkGoesForward(order: seq<nat>, nodes: set<nat>, edges: set<Edge>, walk: seq<nat>, k: nat)
    requires IsTopologicalOrder(order, nodes, edges)
    requires 0 < k < |walk|
    requires forall i :: 0 <= i < |walk| ==> walk[i] in nodes
    requires forall i :: 0 <= i < |walk| - 1 ==> (walk[i], walk[i + 1]) in edges
    ensures Precedes(order, walk[0], walk[k])
  {
    assert walk[k - 1] in order && walk[k] in order;
    var a :| 0 <= a < |order| && order[a] == walk[k - 1];
    var b :| 0 <= b < |order| && order[b] == walk[k];
    assert a < b by {
      assert (walk[k - 1], walk[k - 1 + 1]) in edges;
      assert (order[a], order[b]) in edges;
    }
    if k > 1 {
      WalkGoesForward(order, nodes, edges, walk, k - 1);
      var c, d :| 0 <= c < d < |order| && order[c] == walk[0] && order[d] == walk[k - 1];
      assert d == a;
    }
  }

  lemma OrderedHasNoCycle(order: seq<nat>, nodes: set<nat>, edges: set<Edge>)
    requires IsTopologicalOrder(order, nodes, edges)
    ensures Acyclic(nodes, edges)
  {
    forall walk | IsCycle(walk, nodes, edges)
      ensures false
    {
      WalkGoesForward(order, nodes, edges, walk, |walk| - 1);
    }
  }

  /** The worklist reaches every node exactly when the graph has no cycle, and what it
      then emits is a topological order. */
  lemma CompleteIffAcyclic(nodes: set<nat>, edges: set<Edge>)
    ensures |LeastOrder(nodes, edges)| == |nodes| <==> Acyclic(nodes, edges)
    ensures Acyclic(nodes, edges) ==> IsTopologicalOrder(LeastOrder(nodes, edges), nodes, edges)
  {
    LeastOrderElements(nodes, edges);
    LeastOrderRespectsEdges(nodes, edges);
    if Stuck(nodes, edges) == {} {
      assert nodes - Stuck(nodes, edges) == nodes;
      OrderedHasNoCycle(LeastOrder(nodes, edges), nodes, edges);
    } else {
      StuckHasCycle(nodes, edges);
    }
  }

  // --------------------------------------------------- which order it is

  /** p is smaller than q at the first place where they differ. */
  ghost predicate LexBelow(p: seq<nat>, q: seq<nat>) {
    exists k :: 0 <= k < |p| && k < |q| && p[..k] == q[..k] && p[k] < q[k]
  }

  lemma FirstIsReady(nodes: set<nat>, edges: set<Edge>, order: seq<nat>)
    requires IsTopologicalOrder(order, nodes, edges) && order != []
    ensures order[0] in Ready(nodes, edges)
  {
    assert order[0] in order;
    forall y | y in nodes
      ensures (y, order[0]) !in edges
    {
      assert y in order;
    }
  }

  lemma TailIsTopological(nodes: set<nat>, edges: set<Edge>, order: seq<nat>)
    requires IsTopologicalOrder(order, nodes, edges) && order != []
    ensures IsTopologicalOrder(order[1..], nodes - {order[0]}, edges)
  {
    var tail := order[1..];
    forall x
      ensures x in tail <==> x in nodes - {order[0]}
    {
      if x in nodes - {order[0]} { assert x in order; }
      if x in tail { var i :| 0 <= i < |tail| && tail[i] == x; assert order[i + 1] == x && x in order; }
    }
  }

  lemma LexBelowCons(m: nat, p: seq<nat>, q: seq<nat>)
    requires LexBelow(p, q)
    ensures LexBelow([m] + p, [m] + q)
  {
    var k :| 0 <= k < |p| && k < |q| && p[..k] == q[..k] && p[k] < q[k];
    assert ([m] + p)[..k + 1] == [m] + p[..k] && ([m] + q)[..k + 1] == [m] + q[..k];
    assert ([m] + p)[k + 1] < ([m] + q)[k + 1];
  }

  /** No topological order is lexicographically smaller than the one the worklist emits. */
  lemma {:induction false} LeastOrderIsLeast(nodes: set<nat>, edges: set<Edge>, order: seq<nat>)
    requires IsTopologicalOrder(order, nodes, edges)
    ensures order == LeastOrder(nodes, edges) || LexBelow(LeastOrder(nodes, edges), order)
    decreases |nodes|
  {
    hide LeastOrder, LexBelow, IsTopologicalOrder, Ready, Min;
    LeastOrderStep(nodes, edges);
    if order == [] {
      NoOrderNoNodes(nodes, edges);
    } else {
      FirstIsReady(nodes, edges, order);
      var m := Min(Ready(nodes, edges));
      var rest, tail := LeastOrder(nodes - {m}, edges), order[1..];
      if m == order[0] {
        TailIsTopological(nodes, edges, order);
        ReadyIsNode(nodes, edges, m);
        LeastOrderIsLeast(nodes - {m}, edges, tail);
        assert order == [m] + tail;
        if tail != rest {
          LexBelowCons(m, rest, tail);
        }
      } else {
        LexBelowAtFirst([m] + rest, order);
      }
    }
  }

  lemma LeastOrderStep(nodes: set<nat>, edges: set<Edge>)
    ensures LeastOrder(nodes, edges) ==
            var ready := Ready(nodes, edges);
            if ready == {} then [] else [Min(ready)] + LeastOrder(nodes - {Min(ready)}, edges)
  {
  }

  /** Whatever waits for nothing beyond the first k nodes of the order is not smaller than the next one. */
  lemma {:induction false} NextIsLeast(rest: set<nat>, edges: set<Edge>, k: nat, x: nat)
    requires k < |LeastOrder(rest, edges)| && x in rest && x !in LeastOrder(rest, edges)[..k]
    requires forall y :: y in rest && (y, x) in edges ==> y in LeastOrder(rest, edges)[..k]
    ensures LeastOrder(rest, edges)[k] <= x
    decreases k
  {
    hide LeastOrder, Ready;
    var order := LeastOrder(rest, edges);
    LeastOrderStep(rest, edges);
    var m := order[0];
    if k == 0 {
      WaitsForNothing(rest, edges, x);
    } else {
      var tail := LeastOrder(rest - {m}, edges);
      assert order == [m] + tail && order[..k] == [m] + tail[..k - 1];
      assert x != m;
      forall y | y in rest - {m} && (y, x) in edges
        ensures y in tail[..k - 1]
      {
        assert y in order[..k];
      }
      NextIsLeast(rest - {m}, edges, k - 1, x);
    }
  }

  lemma WaitsForNothing(rest: set<nat>, edges: set<Edge>, x: nat)
    requires x in rest && forall y :: y in rest ==> (y, x) !in edges
    ensures x in Ready(rest, edges)
  {
  }

  lemma NoOrderNoNodes(nodes: set<nat>, edges: set<Edge>)
    requires IsTopologicalOrder([], nodes, edges)
    ensures Ready(nodes, edges) == {}
  {
    assert nodes == {};
  }

  lemma ReadyIsNode(nodes: set<nat>, edges: set<Edge>, m: nat)
    requires m in Ready(nodes, edges)
    ensures m in nodes && |nodes - {m}| < |nodes|
  {
  }

  lemma LexBelowAtFirst(p: seq<nat>, q: seq<nat>)
    requires p != [] && q != [] && p[0] < q[0]
    ensures LexBelow(p, q)
  {
    assert p[..0] == q[..0];
  }

  ghost function Range(lo: nat, n: nat): (s: set<nat>)
    requires lo <= n
    ensures forall x :: x in s <==> lo <= x < n
    ensures |s| == n - lo
    decreases n - lo
  {
    if lo == n then {} else {lo} + Range(lo + 1, n)
  }

  ghost function Below(n: nat): set<nat> { Range(0, n) }

  function Counting(lo: nat, n: nat): seq<nat>
    requires lo <= n
  {
    seq(n - lo, i requires 0 <= i < n - lo => lo + i)
  }

  lemma MinIs(s: set<nat>, m: nat)
    requires m in s && forall x :: x in s ==> m <= x
    ensures Min(s) == m
  {
    assert Min(s) <= m && m <= Min(s);
  }

  lemma FirstOfRangeIsNext(lo: nat, n: nat, edges: set<Edge>)
    requires lo < n && forall e :: e in edges ==> e.0 < e.1
    ensures LeastOrder(Range(lo, n), edges) == [lo] + LeastOrder(Range(lo + 1, n), edges)
  {
    var rest := Range(lo, n);
    forall y | y in rest
      ensures (y, lo) !in edges
    {
      assert !((y, lo).0 < (y, lo).1);
    }
    MinIs(Ready(rest, edges), lo);
    assert rest - {lo} == Range(lo + 1, n);
  }

  lemma {:induction false} ForwardEdgesKeepCounting(lo: nat, n: nat, edges: set<Edge>)
    requires lo <= n
    requires forall e :: e in edges ==> e.0 < e.1
    ensures LeastOrder(Range(lo, n), edges) == Counting(lo, n)
    decreases n - lo
  {
    hide Range;
    if lo < n {
      FirstOfRangeIsNext(lo, n, edges);
      ForwardEdgesKeepCounting(lo + 1, n, edges);
      assert [lo] + Counting(lo + 1, n) == Counting(lo, n);
    }
  }

  /** When no edge points backwards the worklist keeps the order of the numbers. */
  lemma ForwardEdgesKeepDeclarationOrder(n: nat, edges: set<Edge>)
    requires forall e :: e in edges ==> e.0 < e.1
    ensures LeastOrder(Below(n), edges) == Counting(0, n)
  {
    ForwardEdgesKeepCounting(0, n, edges);
  }
}

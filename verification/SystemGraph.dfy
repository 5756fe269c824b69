/** Building the execution graph of the registered systems (ecs/world.cpp, BuildSystemExecutionGraph). */
module SystemGraph {
  import opened Wrappers
  import opened Reordering
  import opened TopologicalOrder
  import opened SystemGraphSpec
  import opened DeclaredOrder

  // ----------------------------------------------------- indices by identity

  /** Registration indices in ascending order of their IDs. */
  ghost predicate ById(systems: seq<System>, ordered: seq<nat>, n: nat)
    requires n <= |systems|
  {
    && (forall k: nat :: k < |ordered| ==> ordered[k] < n)
    && (forall i: nat :: i < n ==> i in ordered)
    && (forall j, k :: 0 <= j < k < |ordered| ==> IdOf(systems[ordered[j]]) < IdOf(systems[ordered[k]]))
  }

  ghost predicate Indexes(systems: seq<System>, indices: map<nat, nat>, n: nat)
    requires n <= |systems|
  {
    && (forall i: nat :: i < n ==> IdOf(systems[i]) in indices && indices[IdOf(systems[i])] == i)
    && (forall id :: id in indices ==> indices[id] < n && IdOf(systems[indices[id]]) == id)
  }

  lemma InsertedElements(ordered: seq<nat>, n: nat, k: nat)
    requires k <= |ordered|
    ensures forall i :: i in ordered[..k] + [n] + ordered[k..] <==> i in ordered || i == n
  {
    assert ordered == ordered[..k] + ordered[k..];
  }

  lemma InsertedById(systems: seq<System>, ordered: seq<nat>, n: nat, k: nat)
    requires n < |systems| && UniqueIds(systems) && ById(systems, ordered, n) && k <= |ordered|
    requires forall j :: 0 <= j < k ==> IdOf(systems[ordered[j]]) < IdOf(systems[n])
    requires k < |ordered| ==> IdOf(systems[ordered[k]]) >= IdOf(systems[n])
    ensures ById(systems, ordered[..k] + [n] + ordered[k..], n + 1)
  {
    var longer := ordered[..k] + [n] + ordered[k..];
    assert k < |ordered| ==> ordered[k] < n && IdOf(systems[ordered[k]]) > IdOf(systems[n]);
    InsertedElements(ordered, n, k);
    hide UniqueIds, IdOf;
    forall j: nat | j < |longer|
      ensures longer[j] < n + 1
    {
      assert longer[j] in longer;
    }
    forall j: nat, l: nat | j < l < |longer|
      ensures IdOf(systems[longer[j]]) < IdOf(systems[longer[l]])
    {
      var from := if j < k then j else j - 1;
      var to := if l < k then l else l - 1;
      assert l != k ==> longer[l] == ordered[to];
      assert j != k ==> longer[j] == ordered[from];
      assert j == k && to > k ==> IdOf(systems[ordered[k]]) < IdOf(systems[ordered[to]]);
    }
  }

  /** The ID of every system, as an ordered index. */
  method IndexById(systems: seq<System>) returns (indices: map<nat, nat>, ordered: seq<nat>)
    requires UniqueIds(systems)
    ensures Indexes(systems, indices, |systems|) && ById(systems, ordered, |systems|)
  {
    hide IdOf;
    indices, ordered := map[], [];
    for index := 0 to |systems|
      invariant Indexes(systems, indices, index) && ById(systems, ordered, index)
    {
      var id := IdOf(systems[index]);
      var k := 0;
      while k < |ordered| && IdOf(systems[ordered[k]]) < id
        invariant 0 <= k <= |ordered|
        invariant forall j :: 0 <= j < k ==> IdOf(systems[ordered[j]]) < id
      {
        k := k + 1;
      }
      InsertedById(systems, ordered, index, k);
      ordered := ordered[..k] + [index] + ordered[k..];
      indices := indices[id := index];
    }
  }

  // ------------------------------------------------------------- constraints

  ghost predicate IsMatrix(edges: array2<bool>, n: nat) { edges.Length0 == n && edges.Length1 == n }

  /** The matrix has exactly the given pairs of IDs, and all of them are valid constraints. */
  ghost predicate Marks(systems: seq<System>, edges: array2<bool>, pairs: set<Edge>)
    requires IsMatrix(edges, |systems|)
    reads edges
  {
    && (forall e :: e in pairs ==> ValidConstraint(systems, e))
    && (forall b: nat, a: nat :: b < |systems| && a < |systems| ==>
          (edges[b, a] <==> (IdOf(systems[b]), IdOf(systems[a])) in pairs))
  }

  method AddConstraint(systems: seq<System>, indices: map<nat, nat>, edges: array2<bool>, e: Edge,
                       ghost pairs: set<Edge>)
    returns (ok: bool)
    requires Indexes(systems, indices, |systems|) && IsMatrix(edges, |systems|) && Marks(systems, edges, pairs)
    modifies edges
    ensures ok <==> ValidConstraint(systems, e)
    ensures ok ==> Marks(systems, edges, pairs + {e})
  {
    assert e.0 in indices <==> e.0 in Ids(systems);
    assert e.1 in indices <==> e.1 in Ids(systems);
    if e.0 == e.1 || e.0 !in indices || e.1 !in indices {
      return false;
    }
    edges[indices[e.0], indices[e.1]] := true;
    return true;
  }

  lemma PairsPrefix(systems: seq<System>, i: nat)
    requires i < |systems|
    ensures AllPairs(systems[..i + 1]) == AllPairs(systems[..i]) + PairsOf(systems[i])
  {
    assert systems[..i + 1][..i] == systems[..i];
  }

  ghost function PairSet(pairs: seq<Edge>): set<Edge> { set e | e in pairs }

  lemma PairSetNext(pairs: seq<Edge>, k: nat)
    requires k < |pairs|
    ensures PairSet(pairs[..k + 1]) == PairSet(pairs[..k]) + {pairs[k]}
  {
    assert pairs[..k + 1] == pairs[..k] + [pairs[k]];
  }

  lemma InvalidPair(systems: seq<System>, i: nat, e: Edge)
    requires i < |systems| && e in PairsOf(systems[i]) && !ValidConstraint(systems, e)
    ensures exists x :: x in Constraints(systems) && !ValidConstraint(systems, x)
  {
    PairsFrom(systems, e);
    assert e in Constraints(systems);
  }

  /** Marks the constraints of every system, or finds one that is invalid. */
  method CollectConstraints(systems: seq<System>, indices: map<nat, nat>) returns (valid: bool, edges: array2<bool>)
    requires Indexes(systems, indices, |systems|)
    ensures valid <==> forall e :: e in Constraints(systems) ==> ValidConstraint(systems, e)
    ensures IsMatrix(edges, |systems|) && fresh(edges)
    ensures valid ==> Marks(systems, edges, Constraints(systems))
  {
    hide Indexes, ValidConstraint;
    var count := |systems|;
    edges := new bool[count, count]((i, j) => false);
    ghost var done: set<Edge> := {};
    for i := 0 to count
      invariant done == PairSet(AllPairs(systems[..i]))
      invariant Marks(systems, edges, done)
    {
      var pairs := PairsOf(systems[i]);
      PairsPrefix(systems, i);
      ghost var before := done;
      assert pairs[..0] == [];
      for k := 0 to |pairs|
        invariant done == before + PairSet(pairs[..k])
        invariant Marks(systems, edges, done)
      {
        var ok := AddConstraint(systems, indices, edges, pairs[k], done);
        if !ok {
          InvalidPair(systems, i, pairs[k]);
          return false, edges;
        }
        PairSetNext(pairs, k);
        done := done + {pairs[k]};
      }
      assert pairs[..|pairs|] == pairs;
    }
    assert systems[..count] == systems;
    return true, edges;
  }

  // ---------------------------------------------------------------- worklist

  ghost predicate Counts(systems: seq<System>, incoming: seq<nat>, rest: set<nat>, edges: set<Edge>) {
    && |incoming| == |systems|
    && forall x: nat :: x < |systems| ==> incoming[x] == |Predecessors(rest, edges, IdOf(systems[x]))|
  }

  ghost predicate Visits(systems: seq<System>, visited: seq<bool>, rest: set<nat>) {
    && |visited| == |systems|
    && (forall x: nat :: x < |systems| ==> (visited[x] <==> IdOf(systems[x]) !in rest))
    && rest <= Ids(systems)
  }

  /** The counts of the first systems are over one set of nodes, those of the others still over another. */
  ghost predicate Partly(systems: seq<System>, incoming: seq<nat>, from: set<nat>, to: set<nat>, n: nat,
                         edges: set<Edge>)
  {
    && |incoming| == |systems|
    && forall x: nat :: x < |systems| ==>
         incoming[x] == |Predecessors(if x < n then to else from, edges, IdOf(systems[x]))|
  }

  lemma PartlyStep(systems: seq<System>, incoming: seq<nat>, from: set<nat>, to: set<nat>, n: nat, edges: set<Edge>,
                   now: seq<nat>)
    requires Partly(systems, incoming, from, to, n, edges) && n < |systems|
    requires |now| == |incoming| && now == incoming[n := now[n]]
    requires now[n] == |Predecessors(to, edges, IdOf(systems[n]))|
    ensures Partly(systems, now, from, to, n + 1, edges)
  {
    hide Predecessors, IdOf;
  }

  lemma PartlyNone(systems: seq<System>, incoming: seq<nat>, from: set<nat>, to: set<nat>, edges: set<Edge>)
    ensures Partly(systems, incoming, from, to, 0, edges) <==> Counts(systems, incoming, from, edges)
  {
  }

  lemma PartlyAll(systems: seq<System>, incoming: seq<nat>, from: set<nat>, to: set<nat>, edges: set<Edge>)
    ensures Partly(systems, incoming, from, to, |systems|, edges) <==> Counts(systems, incoming, to, edges)
  {
  }

  lemma PartlyAt(systems: seq<System>, incoming: seq<nat>, from: set<nat>, to: set<nat>, n: nat, edges: set<Edge>)
    requires Partly(systems, incoming, from, to, n, edges) && n < |systems|
    ensures |incoming| == |systems| && incoming[n] == |Predecessors(from, edges, IdOf(systems[n]))|
  {
  }

  lemma MarkAt(systems: seq<System>, edges: array2<bool>, pairs: set<Edge>, b: nat, a: nat)
    requires IsMatrix(edges, |systems|) && Marks(systems, edges, pairs) && b < |systems| && a < |systems|
    ensures edges[b, a] <==> (IdOf(systems[b]), IdOf(systems[a])) in pairs
  {
  }

  lemma NothingCounted(systems: seq<System>, incoming: seq<nat>, edges: set<Edge>)
    requires |incoming| == |systems| && forall x :: 0 <= x < |incoming| ==> incoming[x] == 0
    ensures Counts(systems, incoming, {}, edges)
  {
    forall x: nat
      ensures Predecessors({}, edges, x) == {}
    {
    }
  }

  /** Counts, for every system, the marked edges that lead to it. */
  method CountIncoming(systems: seq<System>, edges: array2<bool>, ghost pairs: set<Edge>) returns (incoming: array<nat>)
    requires UniqueIds(systems) && IsMatrix(edges, |systems|) && Marks(systems, edges, pairs)
    ensures fresh(incoming) && incoming.Length == |systems| && Counts(systems, incoming[..], Ids(systems), pairs)
  {
    hide UniqueIds, Marks, Counts, Partly, IdOf, Predecessors, Ids;
    var count := |systems|;
    incoming := new nat[count](_ => 0);
    ghost var seen: set<nat> := {};
    NothingCounted(systems, incoming[..], pairs);
    NoIds(systems[..0]);
    for source := 0 to count
      invariant seen == Ids(systems[..source])
      invariant Counts(systems, incoming[..], seen, pairs)
    {
      ghost var m := IdOf(systems[source]);
      ghost var more := seen + {m};
      IdsNext(systems, source);
      PartlyNone(systems, incoming[..], seen, more, pairs);
      for target := 0 to count
        invariant Partly(systems, incoming[..], seen, more, target, pairs)
      {
        ghost var was := incoming[..];
        OneMoreSource(seen, m, pairs, IdOf(systems[target]));
        MarkAt(systems, edges, pairs, source, target);
        PartlyAt(systems, was, seen, more, target, pairs);
        if edges[source, target] {
          incoming[target] := incoming[target] + 1;
        }
        PartlyStep(systems, was, seen, more, target, pairs, incoming[..]);
      }
      PartlyAll(systems, incoming[..], seen, more, pairs);
      seen := more;
    }
    assert systems[..count] == systems;
  }

  lemma NoIds(systems: seq<System>)
    requires systems == []
    ensures Ids(systems) == {}
  {
  }

  lemma IdsNext(systems: seq<System>, i: nat)
    requires i < |systems| && UniqueIds(systems)
    ensures Ids(systems[..i + 1]) == Ids(systems[..i]) + {IdOf(systems[i])}
    ensures IdOf(systems[i]) !in Ids(systems[..i])
  {
    var longer := systems[..i + 1];
    forall x
      ensures x in Ids(longer) <==> x in Ids(systems[..i]) || x == IdOf(systems[i])
    {
      if x in Ids(systems[..i]) {
        var j :| 0 <= j < i && IdOf(systems[..i][j]) == x;
        assert longer[j] == systems[j];
      }
      if x == IdOf(systems[i]) {
        assert longer[i] == systems[i];
      }
      if x in Ids(longer) {
        var j :| 0 <= j < i + 1 && IdOf(longer[j]) == x;
        assert j < i ==> systems[..i][j] == longer[j];
      }
    }
  }

  lemma OneMoreSource(seen: set<nat>, m: nat, pairs: set<Edge>, x: nat)
    requires m !in seen
    ensures |Predecessors(seen + {m}, pairs, x)| == |Predecessors(seen, pairs, x)| + if (m, x) in pairs then 1 else 0
  {
    DropNodeCounts(seen + {m}, pairs, m, x);
    assert seen + {m} - {m} == seen;
  }

  /** The unvisited system of least ID that waits for nothing, if there is one. */
  method SelectNext(systems: seq<System>, ordered: seq<nat>, visited: array<bool>, incoming: array<nat>,
                    ghost rest: set<nat>, ghost pairs: set<Edge>)
    returns (next: Option<nat>)
    requires ById(systems, ordered, |systems|)
    requires Visits(systems, visited[..], rest) && Counts(systems, incoming[..], rest, pairs)
    ensures next.None? ==> Ready(rest, pairs) == {}
    ensures next.Some? ==>
              && next.value < |systems|
              && IdOf(systems[next.value]) in Ready(rest, pairs)
              && Min(Ready(rest, pairs)) == IdOf(systems[next.value])
  {
    for k := 0 to |ordered|
      invariant forall j :: 0 <= j < k ==> IdOf(systems[ordered[j]]) !in Ready(rest, pairs)
    {
      var index := ordered[k];
      ReadyIffNoPredecessors(rest, pairs, IdOf(systems[index]));
      assert visited[..][index] == visited[index] && incoming[..][index] == incoming[index];
      if !visited[index] && incoming[index] == 0 {
        FirstReadyIsLeast(systems, ordered, rest, pairs, k);
        return Some(index);
      }
    }
    NoneReady(systems, ordered, rest, pairs);
    return None;
  }

  lemma FirstReadyIsLeast(systems: seq<System>, ordered: seq<nat>, rest: set<nat>, pairs: set<Edge>, k: nat)
    requires ById(systems, ordered, |systems|) && rest <= Ids(systems) && k < |ordered|
    requires IdOf(systems[ordered[k]]) in Ready(rest, pairs)
    requires forall j :: 0 <= j < k ==> IdOf(systems[ordered[j]]) !in Ready(rest, pairs)
    ensures Min(Ready(rest, pairs)) == IdOf(systems[ordered[k]])
  {
    var m := IdOf(systems[ordered[k]]);
    forall x | x in Ready(rest, pairs)
      ensures m <= x
    {
      var i: nat :| i < |systems| && IdOf(systems[i]) == x;
      assert i in ordered;
      var j :| 0 <= j < |ordered| && ordered[j] == i;
      assert j >= k;
    }
    MinIs(Ready(rest, pairs), m);
  }

  lemma NoneReady(systems: seq<System>, ordered: seq<nat>, rest: set<nat>, pairs: set<Edge>)
    requires ById(systems, ordered, |systems|) && rest <= Ids(systems)
    requires forall j :: 0 <= j < |ordered| ==> IdOf(systems[ordered[j]]) !in Ready(rest, pairs)
    ensures Ready(rest, pairs) == {}
  {
    forall x | x in rest
      ensures x !in Ready(rest, pairs)
    {
      var i: nat :| i < |systems| && IdOf(systems[i]) == x;
      assert i in ordered;
      var j :| 0 <= j < |ordered| && ordered[j] == i;
    }
  }

  /** Takes the edges of a visited system out of the counts. */
  method ReleaseTargets(systems: seq<System>, edges: array2<bool>, incoming: array<nat>, next: nat,
                        ghost rest: set<nat>, ghost pairs: set<Edge>)
    requires IsMatrix(edges, |systems|) && Marks(systems, edges, pairs) && next < |systems|
    requires IdOf(systems[next]) in rest && incoming.Length == |systems| && Counts(systems, incoming[..], rest, pairs)
    modifies incoming
    ensures Counts(systems, incoming[..], rest - {IdOf(systems[next])}, pairs)
  {
    hide Marks, Counts, Partly, IdOf, Predecessors;
    ghost var m := IdOf(systems[next]);
    ghost var fewer := rest - {m};
    PartlyNone(systems, incoming[..], rest, fewer, pairs);
    for target := 0 to |systems|
      invariant Partly(systems, incoming[..], rest, fewer, target, pairs)
    {
      ghost var was := incoming[..];
      DropNodeCounts(rest, pairs, m, IdOf(systems[target]));
      MarkAt(systems, edges, pairs, next, target);
      PartlyAt(systems, was, rest, fewer, target, pairs);
      if edges[next, target] {
        incoming[target] := incoming[target] - 1;
      }
      PartlyStep(systems, was, rest, fewer, target, pairs, incoming[..]);
    }
    PartlyAll(systems, incoming[..], rest, fewer, pairs);
  }

  /** What has been emitted, and what the worklist will still emit, make up the canonical order. */
  ghost predicate Emitted(systems: seq<System>, order: seq<nat>, rest: set<nat>, pairs: set<Edge>) {
    && (forall k :: 0 <= k < |order| ==> order[k] < |systems|)
    && IdsAt(systems, order) + LeastOrder(rest, pairs) == LeastOrder(Ids(systems), pairs)
    && |order| + |rest| == |Ids(systems)|
  }

  lemma EmitNext(systems: seq<System>, order: seq<nat>, rest: set<nat>, pairs: set<Edge>, next: nat)
    requires Emitted(systems, order, rest, pairs) && next < |systems|
    requires IdOf(systems[next]) in Ready(rest, pairs) && Min(Ready(rest, pairs)) == IdOf(systems[next])
    ensures Emitted(systems, order + [next], rest - {IdOf(systems[next])}, pairs)
  {
    var longer := order + [next];
    assert forall k :: 0 <= k < |longer| ==> longer[k] < |systems|;
    assert IdsAt(systems, longer) == IdsAt(systems, order) + [IdOf(systems[next])];
  }

  lemma {:induction false} IdCount(systems: seq<System>)
    requires UniqueIds(systems)
    ensures |Ids(systems)| == |systems|
  {
    if systems != [] {
      var n := |systems| - 1;
      IdCount(systems[..n]);
      IdsNext(systems, n);
      assert systems[..n + 1] == systems;
    }
  }

  lemma AllIdsIn(systems: seq<System>)
    ensures forall x: nat :: x < |systems| ==> IdOf(systems[x]) in Ids(systems)
  {
  }

  lemma ReadyIsThere(rest: set<nat>, pairs: set<Edge>, x: nat)
    requires x in Ready(rest, pairs)
    ensures x in rest
  {
  }

  lemma MarkVisited(systems: seq<System>, visited: seq<bool>, rest: set<nat>, index: nat)
    requires UniqueIds(systems) && Visits(systems, visited, rest) && index < |systems|
    ensures |visited| == |systems| && Visits(systems, visited[index := true], rest - {IdOf(systems[index])})
  {
  }

  lemma StuckIsIncomplete(systems: seq<System>, order: seq<nat>, rest: set<nat>, pairs: set<Edge>)
    requires Emitted(systems, order, rest, pairs) && rest != {} && Ready(rest, pairs) == {}
    ensures !Acyclic(Ids(systems), pairs)
  {
    assert |LeastOrder(Ids(systems), pairs)| == |order| < |Ids(systems)|;
    CompleteIffAcyclic(Ids(systems), pairs);
  }

  lemma AllEmitted(systems: seq<System>, order: seq<nat>, rest: set<nat>, pairs: set<Edge>)
    requires UniqueIds(systems) && Emitted(systems, order, rest, pairs) && rest == {}
    ensures forall k :: 0 <= k < |order| ==> order[k] < |systems|
    ensures IdsAt(systems, order) == LeastOrder(Ids(systems), pairs)
    ensures Acyclic(Ids(systems), pairs) && IsPermutation(order, |systems|)
  {
    assert Ready(rest, pairs) == {} && LeastOrder(rest, pairs) == [];
    assert IdsAt(systems, order) + [] == IdsAt(systems, order);
    CompleteIffAcyclic(Ids(systems), pairs);
    hide LeastOrder, Acyclic, Ready;
    PermutationOfIds(systems, order, pairs);
  }

  lemma PermutationOfIds(systems: seq<System>, order: seq<nat>, pairs: set<Edge>)
    requires UniqueIds(systems) && forall k :: 0 <= k < |order| ==> order[k] < |systems|
    requires IsTopologicalOrder(IdsAt(systems, order), Ids(systems), pairs)
    ensures IsPermutation(order, |systems|)
  {
    var ids := IdsAt(systems, order);
    forall x: nat | x < |systems|
      ensures x in order
    {
      assert IdOf(systems[x]) in Ids(systems);
      assert IdOf(systems[x]) in ids;
      var k :| 0 <= k < |ids| && ids[k] == IdOf(systems[x]);
      assert order[k] == x;
    }
    forall i, j | 0 <= i < j < |order|
      ensures order[i] != order[j]
    {
      assert ids[i] != ids[j];
    }
  }

  lemma NothingEmitted(systems: seq<System>, visited: seq<bool>, pairs: set<Edge>)
    requires UniqueIds(systems) && |visited| == |systems| && forall i :: 0 <= i < |visited| ==> !visited[i]
    ensures Visits(systems, visited, Ids(systems)) && Emitted(systems, [], Ids(systems), pairs)
    ensures |Ids(systems)| == |systems|
  {
    IdCount(systems);
    AllIdsIn(systems);
    assert IdsAt(systems, []) == [];
  }

  /** Emits the systems in canonical order, or finds a cycle. */
  method OrderSystems(systems: seq<System>, ordered: seq<nat>, edges: array2<bool>, ghost pairs: set<Edge>)
    returns (complete: bool, order: seq<nat>)
    requires UniqueIds(systems) && ById(systems, ordered, |systems|)
    requires IsMatrix(edges, |systems|) && Marks(systems, edges, pairs)
    ensures complete <==> Acyclic(Ids(systems), pairs)
    ensures complete ==> IsPermutation(order, |systems|) && forall k :: 0 <= k < |order| ==> order[k] < |systems|
    ensures complete ==> IdsAt(systems, order) == LeastOrder(Ids(systems), pairs)
  {
    hide *;
    var incoming := CountIncoming(systems, edges, pairs);
    var visited := new bool[|systems|](_ => false);
    order := [];
    ghost var rest := Ids(systems);
    NothingEmitted(systems, visited[..], pairs);
    for position := 0 to |systems|
      invariant |order| == position && |rest| == |systems| - position
      invariant Visits(systems, visited[..], rest) && Counts(systems, incoming[..], rest, pairs)
      invariant Emitted(systems, order, rest, pairs)
    {
      var next := SelectNext(systems, ordered, visited, incoming, rest, pairs);
      assert rest != {};
      if next.None? {
        StuckIsIncomplete(systems, order, rest, pairs);
        return false, order;
      }
      var index := next.value;
      EmitNext(systems, order, rest, pairs, index);
      MarkVisited(systems, visited[..], rest, index);
      ReadyIsThere(rest, pairs, IdOf(systems[index]));
      ghost var before := visited[..];
      visited[index] := true;
      assert visited[..] == before[index := true];
      order := order + [index];
      ReleaseTargets(systems, edges, incoming, index, rest, pairs);
      rest := rest - {IdOf(systems[index])};
    }
    AllEmitted(systems, order, rest, pairs);
    return true, order;
  }

  // ---------------------------------------------------- conflicts and result

  method Conflicts(a: System, b: System) returns (conflict: bool)
    ensures conflict <==> SystemsConflict(a, b)
  {
    for i := 0 to |a.access|
      invariant forall x, y :: 0 <= x < i && 0 <= y < |b.access| ==> !AccessesConflict(a.access[x], b.access[y])
    {
      for j := 0 to |b.access|
        invariant forall y :: 0 <= y < j ==> !AccessesConflict(a.access[i], b.access[y])
      {
        if AccessesConflict(a.access[i], b.access[j]) {
          return true;
        }
      }
    }
    return false;
  }

  /** The matrix holds the dependencies on the first positions of the order, and only constraints elsewhere. */
  ghost predicate HoldsConflicts(systems: seq<System>, order: seq<nat>, edges: array2<bool>, left: nat, right: nat)
    requires IsMatrix(edges, |systems|) && forall k :: 0 <= k < |order| ==> order[k] < |systems|
    reads edges
  {
    forall l: nat, r: nat :: l < |order| && r < |order| ==>
      (edges[order[l], order[r]] <==> EdgeAt(systems, order, left, right, l, r))
  }

  ghost predicate EdgeAt(systems: seq<System>, order: seq<nat>, left: nat, right: nat, l: nat, r: nat)
    requires l < |order| && r < |order| && forall k :: 0 <= k < |order| ==> order[k] < |systems|
  {
    || (IdOf(systems[order[l]]), IdOf(systems[order[r]])) in Constraints(systems)
    || (l < r && (l < left || (l == left && r < right)) &&
        SystemsConflict(systems[order[l]], systems[order[r]]) && !(systems[order[l]].scoped && systems[order[r]].scoped))
  }

  lemma RowStarts(systems: seq<System>, order: seq<nat>, edges: array2<bool>, left: nat)
    requires IsMatrix(edges, |systems|) && (forall k :: 0 <= k < |order| ==> order[k] < |systems|) && left < |order|
    ensures HoldsConflicts(systems, order, edges, left, 0) ==> HoldsConflicts(systems, order, edges, left, left + 1)
    ensures HoldsConflicts(systems, order, edges, left, |order|) ==> HoldsConflicts(systems, order, edges, left + 1, 0)
  {
    hide SystemsConflict, Constraints, IdOf;
    assert forall l: nat, r: nat :: l < |order| && r < |order| ==>
      (EdgeAt(systems, order, left, 0, l, r) <==> EdgeAt(systems, order, left, left + 1, l, r));
    assert forall l: nat, r: nat :: l < |order| && r < |order| ==>
      (EdgeAt(systems, order, left, |order|, l, r) <==> EdgeAt(systems, order, left + 1, 0, l, r));
    hide EdgeAt;
  }

  method AddConflicts(systems: seq<System>, order: seq<nat>, edges: array2<bool>)
    requires IsPermutation(order, |systems|) && forall k :: 0 <= k < |order| ==> order[k] < |systems|
    requires IsMatrix(edges, |systems|) && HoldsConflicts(systems, order, edges, 0, 0)
    modifies edges
    ensures HoldsConflicts(systems, order, edges, |order|, 0)
  {
    hide SystemsConflict, Constraints, HoldsConflicts, IsPermutation;
    for left := 0 to |order|
      invariant HoldsConflicts(systems, order, edges, left, 0)
    {
      var before := order[left];
      RowStarts(systems, order, edges, left);
      for right := left + 1 to |order|
        invariant HoldsConflicts(systems, order, edges, left, right)
      {
        var after := order[right];
        var conflict := Conflicts(systems[before], systems[after]);
        AddConflict(systems, order, edges, left, right, conflict);
      }
      RowStarts(systems, order, edges, left);
    }
  }

  method AddConflict(systems: seq<System>, order: seq<nat>, edges: array2<bool>, left: nat, right: nat, conflict: bool)
    requires IsPermutation(order, |systems|) && forall k :: 0 <= k < |order| ==> order[k] < |systems|
    requires left < right < |order| && conflict == SystemsConflict(systems[order[left]], systems[order[right]])
    requires IsMatrix(edges, |systems|) && HoldsConflicts(systems, order, edges, left, right)
    modifies edges
    ensures HoldsConflicts(systems, order, edges, left, right + 1)
  {
    hide SystemsConflict, Constraints;
    var before, after := order[left], order[right];
    edges[before, after] :=
      edges[before, after] || (conflict && !(systems[before].scoped && systems[after].scoped));
    forall l: nat, r: nat | l < |order| && r < |order|
      ensures edges[order[l], order[r]] <==> EdgeAt(systems, order, left, right + 1, l, r)
    {
      assert EdgeAt(systems, order, left, right, l, r) <==> old(edges[order[l], order[r]]);
    }
  }

  /** Lists the dependencies of every system in the order's order. */
  method ListDependencies(systems: seq<System>, order: seq<nat>, edges: array2<bool>) returns (dependencies: seq<seq<nat>>)
    requires IsPermutation(order, |systems|) && forall k :: 0 <= k < |order| ==> order[k] < |systems|
    requires IsMatrix(edges, |systems|) && HoldsConflicts(systems, order, edges, |order|, 0)
    ensures |dependencies| == |systems|
    ensures forall a: nat, b: nat :: a < |systems| && b in dependencies[a] ==> b < |systems|
    ensures forall a: nat, b: nat :: a < |systems| && b < |systems| ==>
      (b in dependencies[a] <==> DependsOn(systems, order, b, a))
  {
    hide HoldsConflicts, DependsOn;
    var lists := new seq<nat>[|systems|](_ => []);
    for r := 0 to |order|
      invariant forall k: nat :: r <= k < |order| ==> lists[order[k]] == []
      invariant forall k: nat, b: nat :: k < r ==> (b in lists[order[k]] <==> b < |systems| && edges[b, order[k]])
    {
      var after := order[r];
      for l := 0 to |order|
        invariant forall k: nat :: r < k < |order| ==> lists[order[k]] == []
        invariant forall k: nat, b: nat :: k < r ==> (b in lists[order[k]] <==> b < |systems| && edges[b, order[k]])
        invariant forall b: nat :: b in lists[after] <==> b in order[..l] && edges[b, after]
      {
        var before := order[l];
        assert order[..l + 1] == order[..l] + [before];
        if edges[before, after] {
          lists[after] := lists[after] + [before];
        }
      }
      assert order[..|order|] == order;
    }
    dependencies := lists[..];
    ListedAreDependencies(systems, order, edges, dependencies);
  }

  lemma ListedAreDependencies(systems: seq<System>, order: seq<nat>, edges: array2<bool>, dependencies: seq<seq<nat>>)
    requires IsPermutation(order, |systems|) && forall k :: 0 <= k < |order| ==> order[k] < |systems|
    requires IsMatrix(edges, |systems|) && HoldsConflicts(systems, order, edges, |order|, 0)
    requires |dependencies| == |systems|
    requires forall k: nat, b: nat :: k < |order| ==>
      (b in dependencies[order[k]] <==> b < |systems| && edges[b, order[k]])
    ensures forall a: nat, b: nat :: a < |systems| && b in dependencies[a] ==> b < |systems|
    ensures forall a: nat, b: nat :: a < |systems| && b < |systems| ==>
      (b in dependencies[a] <==> DependsOn(systems, order, b, a))
  {
    hide DependsOn, EdgeAt;
    forall a: nat, b: nat | a < |systems| && b < |systems|
      ensures b in dependencies[a] <==> DependsOn(systems, order, b, a)
    {
      assert a in order && b in order;
      var r: nat :| r < |order| && order[r] == a;
      var l: nat :| l < |order| && order[l] == b;
      DependsAt(systems, order, l, r);
    }
    forall a: nat, b: nat | a < |systems| && b in dependencies[a]
      ensures b < |systems|
    {
      assert a in order;
      var r: nat :| r < |order| && order[r] == a;
    }
  }

  lemma DependsAt(systems: seq<System>, order: seq<nat>, l: nat, r: nat)
    requires Distinct(order) && l < |order| && r < |order| && forall k :: 0 <= k < |order| ==> order[k] < |systems|
    ensures EdgeAt(systems, order, |order|, 0, l, r) <==> DependsOn(systems, order, order[l], order[r])
  {
    assert Precedes(order, order[l], order[r]) <==> l < r;
  }

  lemma ConstraintsHold(systems: seq<System>, order: seq<nat>, edges: array2<bool>)
    requires IsMatrix(edges, |systems|) && Marks(systems, edges, Constraints(systems))
    requires forall k :: 0 <= k < |order| ==> order[k] < |systems|
    ensures HoldsConflicts(systems, order, edges, 0, 0)
  {
  }

  /**
   * The graph of the registered systems. When none of them is scheduled and schedules are not required
   * they run in registration order with no dependencies; otherwise every system needs a schedule.
   */
  method BuildSystemExecutionGraph(systems: seq<System>, requireSchedules: bool)
    returns (result: Result<ExecutionGraph, GraphError>)
    requires UniqueIds(systems) || !AllScheduled(systems)
    ensures var unscheduled := !requireSchedules && forall i :: 0 <= i < |systems| ==> systems[i].schedule.None?;
            if unscheduled then
              result == Ok(ExecutionGraph(Counting(0, |systems|), seq(|systems|, _ => [])))
            else if Verdict(systems).Some? then result == Err(Verdict(systems).value)
            else result.Ok? && IsExecutionGraph(systems, result.value)
    ensures result.Ok? ==>
      && |result.value.dependencies| == |systems|
      && forall a, b ::
           0 <= a < |systems| && 0 <= b < |systems| && systems[a].schedule.Some? && systems[b].schedule.Some? ==>
           && (systems[b].schedule.value.id in systems[a].schedule.value.before ==>
                 Precedes(result.value.order, a, b) && a in result.value.dependencies[b])
           && (systems[b].schedule.value.id in systems[a].schedule.value.after ==>
                 Precedes(result.value.order, b, a) && b in result.value.dependencies[a])
  {
    hide Verdict, IsExecutionGraph, UniqueIds;
    var hasSchedules := false;
    var missing := false;
    for index := 0 to |systems|
      invariant hasSchedules <==> exists i :: 0 <= i < index && systems[i].schedule.Some?
      invariant missing <==> exists i :: 0 <= i < index && systems[i].schedule.None?
    {
      if systems[index].schedule.Some? {
        hasSchedules := true;
      } else {
        missing := true;
      }
    }
    if !requireSchedules && !hasSchedules {
      return Ok(ExecutionGraph(Counting(0, |systems|), seq(|systems|, _ => [])));
    }
    UnscheduledVerdict(systems);
    if missing {
      return Err(UNSCHEDULED);
    }
    result := BuildScheduledGraph(systems);
    if result.Ok? {
      DeclaredOrdersHold(systems, result.value);
    }
  }

  lemma UnscheduledVerdict(systems: seq<System>)
    ensures !AllScheduled(systems) ==> Verdict(systems) == Some(UNSCHEDULED)
  {
  }

  lemma DeclaredOrdersHold(systems: seq<System>, graph: ExecutionGraph)
    requires UniqueIds(systems) && Verdict(systems) == None && IsExecutionGraph(systems, graph)
    ensures |graph.dependencies| == |systems|
    ensures forall a, b ::
      0 <= a < |systems| && 0 <= b < |systems| && systems[a].schedule.Some? && systems[b].schedule.Some? ==>
      && (systems[b].schedule.value.id in systems[a].schedule.value.before ==>
            Precedes(graph.order, a, b) && a in graph.dependencies[b])
      && (systems[b].schedule.value.id in systems[a].schedule.value.after ==>
            Precedes(graph.order, b, a) && b in graph.dependencies[a])
  {
    hide Verdict, UniqueIds;
    forall a, b | 0 <= a < |systems| && 0 <= b < |systems| && systems[a].schedule.Some? && systems[b].schedule.Some?
      ensures systems[b].schedule.value.id in systems[a].schedule.value.before ==>
                Precedes(graph.order, a, b) && a in graph.dependencies[b]
      ensures systems[b].schedule.value.id in systems[a].schedule.value.after ==>
                Precedes(graph.order, b, a) && b in graph.dependencies[a]
    {
      DeclaredOrderHolds(systems, graph, a, b);
    }
  }

  method BuildScheduledGraph(systems: seq<System>) returns (result: Result<ExecutionGraph, GraphError>)
    requires UniqueIds(systems) && AllScheduled(systems)
    ensures if Verdict(systems).Some? then result == Err(Verdict(systems).value)
            else result.Ok? && IsExecutionGraph(systems, result.value)
  {
    hide Acyclic, UniqueIds, AllScheduled, Marks, HoldsConflicts, DependsOn, LeastOrder, Constraints;
    var indices, ordered := IndexById(systems);
    var valid, edges := CollectConstraints(systems, indices);
    if !valid {
      return Err(INVALID_CONSTRAINT);
    }
    var complete, order := OrderSystems(systems, ordered, edges, Constraints(systems));
    if !complete {
      return Err(CYCLE);
    }
    ConstraintsHold(systems, order, edges);
    AddConflicts(systems, order, edges);
    var dependencies := ListDependencies(systems, order, edges);
    return Ok(ExecutionGraph(order, dependencies));
  }
}

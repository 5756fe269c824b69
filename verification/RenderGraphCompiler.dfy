// The render graph compiler itself (RenderGraphBuilder in renderer/render_graph.cpp):
// hazard edges from the last writer and the readers since, a worklist over incoming
// counts that always takes the smallest ready pass, and the defined-contents tracking.
module RenderGraphCompiler {
  import opened Wrappers
  import opened Reordering
  import opened TopologicalOrder
  import opened RenderGraphSpec
  import opened RenderGraphContents

  datatype CompiledGraph = CompiledGraph(passes: seq<nat>, dependencies: seq<Edge>)

  // --------------------------------------------------------------- edges

  predicate EdgeBefore(a: Edge, b: Edge) { a.0 < b.0 || (a.0 == b.0 && a.1 < b.1) }

  ghost predicate StrictlySorted(edges: seq<Edge>) {
    forall i, j :: 0 <= i < j < |edges| ==> EdgeBefore(edges[i], edges[j])
  }

  lemma EdgeInserted(sorted: seq<Edge>, k: nat, e: Edge)
    requires StrictlySorted(sorted) && k <= |sorted|
    requires forall j :: 0 <= j < k ==> EdgeBefore(sorted[j], e)
    requires k < |sorted| ==> sorted[k] != e && !EdgeBefore(sorted[k], e)
    ensures StrictlySorted(sorted[..k] + [e] + sorted[k..])
    ensures forall x :: x in sorted[..k] + [e] + sorted[k..] <==> x in sorted || x == e
  {
    assert sorted == sorted[..k] + sorted[k..];
  }

  /** Sorts the edges and drops repetitions. */
  method SortUnique(edges: seq<Edge>) returns (sorted: seq<Edge>)
    ensures StrictlySorted(sorted)
    ensures forall e :: e in sorted <==> e in edges
  {
    sorted := [];
    for i := 0 to |edges|
      invariant StrictlySorted(sorted)
      invariant forall e :: e in sorted <==> e in edges[..i]
    {
      var e, k := edges[i], 0;
      while k < |sorted| && EdgeBefore(sorted[k], e)
        invariant 0 <= k <= |sorted|
        invariant forall j :: 0 <= j < k ==> EdgeBefore(sorted[j], e)
      {
        k := k + 1;
      }
      assert edges[..i + 1] == edges[..i] + [e];
      if k == |sorted| || sorted[k] != e {
        EdgeInserted(sorted, k, e);
        sorted := sorted[..k] + [e] + sorted[k..];
      }
    }
    assert edges[..|edges|] == edges;
  }

  // ------------------------------------------------------ incoming counts

  ghost function EdgeSet(edges: seq<Edge>): set<Edge> { set e | e in edges }

  ghost predicate CountsIncoming(incoming: seq<nat>, rest: set<nat>, edges: set<Edge>) {
    forall x: nat :: x < |incoming| ==> incoming[x] == |Predecessors(rest, edges, x)|
  }

  ghost predicate ListsOutgoing(outgoing: seq<seq<nat>>, edges: set<Edge>) {
    && (forall x: nat, y :: x < |outgoing| ==> (y in outgoing[x] <==> (x, y) in edges))
    && (forall x: nat :: x < |outgoing| ==> Distinct(outgoing[x]))
  }

  lemma CountOneEdge(outgoing: seq<seq<nat>>, incoming: seq<nat>, nodes: set<nat>, seen: set<Edge>, e: Edge)
    requires ListsOutgoing(outgoing, seen) && CountsIncoming(incoming, nodes, seen)
    requires e !in seen && e.0 in nodes && e.0 < |outgoing| && e.1 < |incoming|
    ensures ListsOutgoing(outgoing[e.0 := outgoing[e.0] + [e.1]], seen + {e})
    ensures CountsIncoming(incoming[e.1 := incoming[e.1] + 1], nodes, seen + {e})
  {
    assert (e.0, e.1) == e;
    var outgoing' := outgoing[e.0 := outgoing[e.0] + [e.1]];
    forall x: nat, y | x < |outgoing'|
      ensures y in outgoing'[x] <==> (x, y) in seen + {e}
    {
      assert y in outgoing[x] <==> (x, y) in seen;
    }
    forall x: nat | x < |outgoing'|
      ensures Distinct(outgoing'[x])
    {
      assert Distinct(outgoing[x]);
      assert e.1 !in outgoing[e.0];
    }
    forall x: nat | x < |incoming|
      ensures incoming[e.1 := incoming[e.1] + 1][x] == |Predecessors(nodes, seen + {e}, x)|
    {
      AddEdgeCounts(nodes, seen, e, x);
    }
  }

  lemma NoEdges(outgoing: seq<seq<nat>>, incoming: seq<nat>, nodes: set<nat>)
    requires forall x :: 0 <= x < |outgoing| ==> outgoing[x] == []
    requires forall x :: 0 <= x < |incoming| ==> incoming[x] == 0
    ensures ListsOutgoing(outgoing, {}) && CountsIncoming(incoming, nodes, {})
  {
    forall x: nat
      ensures Predecessors(nodes, {}, x) == {}
    {
    }
  }

  lemma NextEdge(edges: seq<Edge>, k: nat)
    requires StrictlySorted(edges) && k < |edges|
    ensures edges[k] !in EdgeSet(edges[..k])
    ensures EdgeSet(edges[..k + 1]) == EdgeSet(edges[..k]) + {edges[k]}
  {
    assert edges[..k + 1] == edges[..k] + [edges[k]];
    assert forall j :: 0 <= j < k ==> EdgeBefore(edges[j], edges[k]);
  }

  lemma NoEdgeYet(edges: seq<Edge>)
    ensures EdgeSet(edges[..0]) == {}
  {
  }

  lemma EdgesWithin(count: nat, edges: seq<Edge>)
    requires forall e :: e in edges ==> e.0 < count
    ensures forall e :: e in edges ==> e.0 in Below(count)
  {
  }

  /** Fills the successor lists and the incoming counts. */
  method CountEdges(count: nat, edges: seq<Edge>) returns (outgoing: array<seq<nat>>, incoming: array<nat>)
    requires StrictlySorted(edges)
    requires forall e :: e in edges ==> e.0 < count && e.1 < count
    ensures fresh(outgoing) && fresh(incoming) && outgoing.Length == incoming.Length == count
    ensures ListsOutgoing(outgoing[..], EdgeSet(edges))
    ensures CountsIncoming(incoming[..], Below(count), EdgeSet(edges))
  {
    hide EdgeSet, ListsOutgoing, CountsIncoming, Below, StrictlySorted;
    NoEdgeYet(edges);
    EdgesWithin(count, edges);
    outgoing, incoming := new seq<nat>[count](_ => []), new nat[count](_ => 0);
    NoEdges(outgoing[..], incoming[..], Below(count));
    for k := 0 to |edges|
      invariant ListsOutgoing(outgoing[..], EdgeSet(edges[..k]))
      invariant CountsIncoming(incoming[..], Below(count), EdgeSet(edges[..k]))
    {
      var (before, after) := edges[k];
      assert edges[k] in edges;
      NextEdge(edges, k);
      CountOneEdge(outgoing[..], incoming[..], Below(count), EdgeSet(edges[..k]), edges[k]);
      ghost var out0, in0 := outgoing[..], incoming[..];
      outgoing[before] := outgoing[before] + [after];
      incoming[after] := incoming[after] + 1;
      assert outgoing[..] == out0[before := out0[before] + [after]];
      assert incoming[..] == in0[after := in0[after] + 1];
    }
    assert edges[..|edges|] == edges;
  }

  // ------------------------------------------------- declarations of a pass

  /** r is among the first k uses of the pass from position lo on. */
  ghost predicate UsedBetween(pass: Pass, lo: nat, k: nat, r: nat) {
    exists j :: lo <= j < k && j < |pass.Uses()| && pass.Uses()[j].resource == r
  }

  lemma UsedBetweenAll(pass: Pass, r: nat)
    ensures UsedBetween(pass, 0, |pass.Uses()|, r) <==> pass.Touches(r)
    ensures UsedBetween(pass, |pass.readUses|, |pass.Uses()|, r) <==> pass.Writes(r)
  {
    var uses, n := pass.Uses(), |pass.readUses|;
    if pass.Writes(r) {
      var i :| 0 <= i < |pass.writeUses| && pass.writeUses[i].resource == r;
      assert uses[n + i].resource == r;
    }
    if pass.Reads(r) {
      var i :| 0 <= i < |pass.readUses| && pass.readUses[i].resource == r;
      assert uses[i].resource == r;
    }
    if UsedBetween(pass, n, |uses|, r) {
      var j :| n <= j < |uses| && uses[j].resource == r;
      assert pass.writeUses[j - n].resource == r;
    }
    if UsedBetween(pass, 0, |uses|, r) {
      var j :| 0 <= j < |uses| && uses[j].resource == r;
      if j < n { assert pass.readUses[j].resource == r; } else { assert pass.writeUses[j - n].resource == r; }
    }
  }

  /** The first k declared uses are in range, unrepeated and fit their list. */
  ghost predicate ValidFirstUses(pass: Pass, resources: seq<Resource>, k: nat)
    requires k <= |pass.Uses()|
  {
    && (forall i :: 0 <= i < k ==> pass.Uses()[i].resource < |resources|)
    && (forall i, j :: 0 <= i < j < k ==> pass.Uses()[i].resource != pass.Uses()[j].resource)
    && (forall i :: 0 <= i < k ==>
          if i < |pass.readUses| then IsRead(pass.Uses()[i].usage) else IsWrite(pass.Uses()[i].usage))
  }

  lemma ValidFirstUsesAll(pass: Pass, resources: seq<Resource>)
    ensures ValidFirstUses(pass, resources, |pass.Uses()|) <==> pass.ValidUses(resources)
  {
    var n := |pass.readUses|;
    assert forall i :: 0 <= i < n ==> pass.Uses()[i] == pass.readUses[i];
    assert forall i :: 0 <= i < |pass.writeUses| ==> pass.Uses()[n + i] == pass.writeUses[i];
    assert forall i :: n <= i < |pass.Uses()| ==> pass.Uses()[i] == pass.writeUses[i - n];
  }

  /** The edges into a pass that its k first uses ask for. */
  ghost predicate UseEdge(pass: Pass, k: nat, none: nat, writers: seq<nat>, readers: seq<seq<nat>>, a: nat) {
    exists j :: 0 <= j < k && j < |pass.Uses()| && UseEdgeAt(pass, j, none, writers, readers, a)
  }

  ghost predicate UseEdgeAt(pass: Pass, j: nat, none: nat, writers: seq<nat>, readers: seq<seq<nat>>, a: nat)
    requires j < |pass.Uses()|
  {
    var r := pass.Uses()[j].resource;
    || (r < |writers| && a != none && a == writers[r])
    || (r < |readers| && j >= |pass.readUses| && a in readers[r])
  }

  method EdgesFrom(before: seq<nat>, after: nat, edges: seq<Edge>) returns (out: seq<Edge>)
    ensures forall e :: e in out <==> e in edges || (e.1 == after && e.0 in before)
  {
    out := edges;
    for i := 0 to |before|
      invariant forall e :: e in out <==> e in edges || (e.1 == after && e.0 in before[..i])
    {
      out := out + [(before[i], after)];
      assert before[..i + 1] == before[..i] + [before[i]];
    }
    assert before[..|before|] == before;
  }

  /** The last writer and the readers since it, per resource. */
  datatype Tracking = Tracking(writers: seq<nat>, readers: seq<seq<nat>>)

  /** Where the tracking stands after the first k uses of a pass. */
  ghost predicate TracksFirstUses(pass: Pass, k: nat, index: nat, before: Tracking, now: Tracking) {
    && |now.writers| == |before.writers| == |now.readers| == |before.readers|
    && (forall r: nat :: r < |now.writers| ==>
          && now.writers[r] == (if UsedBetween(pass, |pass.readUses|, k, r) then index else before.writers[r])
          && now.readers[r] == (if UsedBetween(pass, |pass.readUses|, k, r) then []
                                else if UsedBetween(pass, 0, k, r) then before.readers[r] + [index]
                                else before.readers[r]))
  }

  ghost predicate EdgesOfFirstUses(pass: Pass, k: nat, index: nat, none: nat, before: Tracking, edges: seq<Edge>, out: seq<Edge>) {
    forall e :: e in out <==>
      e in edges || (e.1 == index && UseEdge(pass, k, none, before.writers, before.readers, e.0))
  }

  /** The effect of registering one use. */
  ghost predicate UseRegistered(use: ResourceUse, isWrite: bool, index: nat, none: nat,
                                t: Tracking, edges: seq<Edge>, t': Tracking, edges': seq<Edge>)
  {
    var r := use.resource;
    && r < |t.writers| == |t.readers|
    && t'.writers == (if isWrite then t.writers[r := index] else t.writers)
    && t'.readers == t.readers[r := if isWrite then [] else t.readers[r] + [index]]
    && forall e :: e in edges' <==>
         || e in edges
         || (e.1 == index && ((t.writers[r] != none && e.0 == t.writers[r]) || (isWrite && e.0 in t.readers[r])))
  }

  ghost function TrackingOf(writers: array<nat>, readers: array<seq<nat>>): (t: Tracking)
    reads writers, readers
    ensures |t.writers| == writers.Length && |t.readers| == readers.Length
  {
    Tracking(writers[..], readers[..])
  }

  /** The use is in range, new to the pass and fits its list. */
  ghost predicate Acceptable(use: ResourceUse, isWrite: bool, used: seq<bool>) {
    && use.resource < |used| && !used[use.resource]
    && if isWrite then IsWrite(use.usage) else IsRead(use.usage)
  }

  /** Registers one use; refused when the pass has used the resource before. */
  method RegisterUse(use: ResourceUse, isWrite: bool, index: nat, none: nat,
                     writers: array<nat>, readers: array<seq<nat>>, used: array<bool>, edges: seq<Edge>)
    returns (valid: bool, out: seq<Edge>)
    requires writers.Length == readers.Length == used.Length
    modifies writers, readers, used
    ensures valid <==> Acceptable(use, isWrite, old(used[..]))
    ensures valid ==> used[..] == old(used[..])[use.resource := true]
    ensures valid ==> UseRegistered(use, isWrite, index, none,
                                    old(TrackingOf(writers, readers)), edges, TrackingOf(writers, readers), out)
  {
    var r := use.resource;
    if r >= used.Length || used[r] || !(if isWrite then IsWrite(use.usage) else IsRead(use.usage)) {
      return false, [];
    }
    used[r] := true;
    out := edges;
    if writers[r] != none {
      out := EdgesFrom([writers[r]], index, out);
    }
    if isWrite {
      out := EdgesFrom(readers[r], index, out);
      readers[r] := [];
      writers[r] := index;
    } else {
      readers[r] := readers[r] + [index];
    }
    valid := true;
  }

  ghost predicate MarksUsed(pass: Pass, k: nat, used: seq<bool>) {
    forall r: nat :: r < |used| ==> used[r] == UsedBetween(pass, 0, k, r)
  }

  lemma UsedAfterNext(pass: Pass, k: nat, x: nat)
    requires k < |pass.Uses()|
    ensures UsedBetween(pass, 0, k + 1, x) <==> UsedBetween(pass, 0, k, x) || x == pass.Uses()[k].resource
    ensures UsedBetween(pass, |pass.readUses|, k + 1, x) <==>
      UsedBetween(pass, |pass.readUses|, k, x) || (x == pass.Uses()[k].resource && k >= |pass.readUses|)
  {
  }

  lemma ValidNextUse(pass: Pass, k: nat, resources: seq<Resource>, used: seq<bool>)
    requires k < |pass.Uses()| && |used| == |resources|
    requires ValidFirstUses(pass, resources, k) && MarksUsed(pass, k, used)
    requires Acceptable(pass.Uses()[k], k >= |pass.readUses|, used)
    ensures ValidFirstUses(pass, resources, k + 1)
    ensures MarksUsed(pass, k + 1, used[pass.Uses()[k].resource := true])
  {
    assert !UsedBetween(pass, 0, k, pass.Uses()[k].resource);
    forall x: nat { UsedAfterNext(pass, k, x); }
  }

  lemma TracksNextUse(pass: Pass, k: nat, index: nat, none: nat, before: Tracking, edges: seq<Edge>,
                      t: Tracking, out: seq<Edge>, used: seq<bool>, t': Tracking, out': seq<Edge>)
    requires k < |pass.Uses()| && MarksUsed(pass, k, used) && TracksFirstUses(pass, k, index, before, t)
    requires Acceptable(pass.Uses()[k], k >= |pass.readUses|, used) && |used| == |t.writers|
    requires UseRegistered(pass.Uses()[k], k >= |pass.readUses|, index, none, t, out, t', out')
    ensures TracksFirstUses(pass, k + 1, index, before, t')
    ensures var r := pass.Uses()[k].resource;
      t.writers[r] == before.writers[r] && t.readers[r] == before.readers[r]
  {
    var r, n := pass.Uses()[k].resource, |pass.readUses|;
    assert !UsedBetween(pass, 0, k, r) && !UsedBetween(pass, n, k, r);
    forall x: nat { UsedAfterNext(pass, k, x); }
  }

  lemma EdgesOfNextUse(pass: Pass, k: nat, index: nat, none: nat, before: Tracking, edges: seq<Edge>,
                       t: Tracking, out: seq<Edge>, t': Tracking, out': seq<Edge>)
    requires k < |pass.Uses()| && EdgesOfFirstUses(pass, k, index, none, before, edges, out)
    requires UseRegistered(pass.Uses()[k], k >= |pass.readUses|, index, none, t, out, t', out')
    requires var r := pass.Uses()[k].resource;
      && r < |before.writers| == |before.readers| == |t.writers|
      && t.writers[r] == before.writers[r] && t.readers[r] == before.readers[r]
    ensures EdgesOfFirstUses(pass, k + 1, index, none, before, edges, out')
  {
    forall a
      ensures UseEdge(pass, k + 1, none, before.writers, before.readers, a) <==>
           || UseEdge(pass, k, none, before.writers, before.readers, a)
           || UseEdgeAt(pass, k, none, before.writers, before.readers, a)
    {
    }
  }

  lemma RefusedUse(pass: Pass, k: nat, resources: seq<Resource>, used: seq<bool>)
    requires k < |pass.Uses()| && |used| == |resources| && MarksUsed(pass, k, used)
    requires !Acceptable(pass.Uses()[k], k >= |pass.readUses|, used)
    ensures !pass.ValidUses(resources)
  {
    ValidFirstUsesAll(pass, resources);
    assert !ValidFirstUses(pass, resources, k + 1);
  }

  lemma NothingRegistered(pass: Pass, index: nat, none: nat, resources: seq<Resource>,
                          before: Tracking, used: seq<bool>, edges: seq<Edge>)
    requires |before.writers| == |before.readers| && forall r: nat :: r < |used| ==> !used[r]
    ensures ValidFirstUses(pass, resources, 0) && MarksUsed(pass, 0, used)
    ensures TracksFirstUses(pass, 0, index, before, before)
    ensures EdgesOfFirstUses(pass, 0, index, none, before, edges, edges)
  {
  }

  /** Registers the reads of a pass, then its writes. */
  method RegisterUses(pass: Pass, index: nat, none: nat, resources: seq<Resource>,
                      writers: array<nat>, readers: array<seq<nat>>, edges: seq<Edge>)
    returns (valid: bool, out: seq<Edge>)
    requires writers.Length == readers.Length == |resources|
    modifies writers, readers
    ensures valid <==> pass.ValidUses(resources)
    ensures valid ==> TracksFirstUses(pass, |pass.Uses()|, index, old(TrackingOf(writers, readers)), TrackingOf(writers, readers))
    ensures valid ==> EdgesOfFirstUses(pass, |pass.Uses()|, index, none, old(TrackingOf(writers, readers)), edges, out)
  {
    hide *;
    var uses, n := pass.Uses(), |pass.readUses|;
    var used := new bool[|resources|](_ => false);
    out := edges;
    ValidFirstUsesAll(pass, resources);
    ghost var before := TrackingOf(writers, readers);
    NothingRegistered(pass, index, none, resources, before, used[..], edges);
    for k := 0 to |uses|
      invariant ValidFirstUses(pass, resources, k)
      invariant MarksUsed(pass, k, used[..])
      invariant TracksFirstUses(pass, k, index, before, TrackingOf(writers, readers))
      invariant EdgesOfFirstUses(pass, k, index, none, before, edges, out)
    {
      ghost var t, out0, used0 := TrackingOf(writers, readers), out, used[..];
      valid, out := RegisterUse(uses[k], k >= n, index, none, writers, readers, used, out);
      if !valid {
        RefusedUse(pass, k, resources, used0);
        return;
      }
      ValidNextUse(pass, k, resources, used0);
      TracksNextUse(pass, k, index, none, before, edges, t, out0, used0, TrackingOf(writers, readers), out);
      EdgesOfNextUse(pass, k, index, none, before, edges, t, out0, TrackingOf(writers, readers), out);
    }
    valid := true;
  }

  // ---------------------------------------------------------- attachments

  ghost predicate ValidFirstAttachments(pass: Pass, resources: seq<Resource>, k: nat)
    requires k <= |pass.Attachments()|
  {
    && (forall i :: 0 <= i < k ==>
          && pass.Attachments()[i].resource < |resources|
          && resources[pass.Attachments()[i].resource].kind != BUFFER
          && pass.WriteOf(i) in pass.writeUses)
    && (forall i, j :: 0 <= i < j < k ==> pass.Attachments()[i].resource != pass.Attachments()[j].resource)
  }

  lemma NothingAttached(pass: Pass, resources: seq<Resource>)
    ensures ValidFirstAttachments(pass, resources, 0) && forall r: nat :: !pass.AttachesFirst(0, r)
  {
  }

  lemma FewerAttachments(pass: Pass, resources: seq<Resource>, k: nat)
    requires k <= |pass.Attachments()|
    ensures ValidFirstAttachments(pass, resources, |pass.Attachments()|) ==> ValidFirstAttachments(pass, resources, k)
  {
    hide Pass.WriteOf, Pass.Attachments;
  }

  lemma OneMoreAttachment(pass: Pass, resources: seq<Resource>, k: nat)
    requires k < |pass.Attachments()| && ValidFirstAttachments(pass, resources, k)
    ensures var r := pass.Attachments()[k].resource;
            && (forall x: nat :: pass.AttachesFirst(k + 1, x) <==> pass.AttachesFirst(k, x) || x == r)
            && (ValidFirstAttachments(pass, resources, k + 1) <==>
                  && r < |resources| && resources[r].kind != BUFFER && !pass.AttachesFirst(k, r)
                  && pass.WriteOf(k) in pass.writeUses)
  {
    hide Pass.WriteOf, Pass.Attachments;
    var r := pass.Attachments()[k].resource;
    forall x: nat
      ensures pass.AttachesFirst(k + 1, x) <==> pass.AttachesFirst(k, x) || x == r
    {
    }
    if ValidFirstAttachments(pass, resources, k + 1) {
      assert forall i :: 0 <= i < k ==> pass.Attachments()[i].resource != r;
    }
  }

  /** Every attachment names an image once and comes with its write. */
  method MarkAttached(pass: Pass, resources: seq<Resource>) returns (valid: bool, attached: array<bool>)
    ensures fresh(attached) && attached.Length == |resources|
    ensures valid <==> ValidFirstAttachments(pass, resources, |pass.Attachments()|)
    ensures valid ==> forall r: nat :: r < |resources| ==> attached[r] == pass.Attaches(r)
  {
    hide ValidFirstAttachments, Pass.AttachesFirst, Pass.WriteOf;
    var attachments := pass.Attachments();
    attached := new bool[|resources|](_ => false);
    NothingAttached(pass, resources);
    for k := 0 to |attachments|
      invariant ValidFirstAttachments(pass, resources, k)
      invariant forall r: nat :: r < |resources| ==> attached[r] == pass.AttachesFirst(k, r)
    {
      OneMoreAttachment(pass, resources, k);
      var r := attachments[k].resource;
      if r >= |resources| || resources[r].kind == BUFFER || attached[r] || pass.WriteOf(k) !in pass.writeUses {
        FewerAttachments(pass, resources, k + 1);
        return false, attached;
      }
      attached[r] := true;
    }
    valid := true;
  }

  /** Attachments as above, and every declared write is attached. */
  method ValidateAttachments(pass: Pass, resources: seq<Resource>) returns (valid: bool)
    requires pass.ValidUses(resources)
    ensures valid <==> pass.ValidAttachments(resources)
  {
    var attached;
    valid, attached := MarkAttached(pass, resources);
    if !valid {
      return;
    }
    for i := 0 to |pass.writeUses|
      invariant forall j :: 0 <= j < i ==> pass.Attaches(pass.writeUses[j].resource)
    {
      assert pass.Uses()[|pass.readUses| + i] == pass.writeUses[i];
      if !attached[pass.writeUses[i].resource] {
        return false;
      }
    }
  }

  // ------------------------------------------------------- hazard edges

  ghost predicate TracksPasses(passes: seq<Pass>, index: nat, t: Tracking)
    requires index <= |passes|
  {
    && |t.writers| == |t.readers|
    && forall r: nat :: r < |t.writers| ==>
         t.writers[r] == LastWriter(passes, r, index) && t.readers[r] == ReadersSince(passes, r, index)
  }

  ghost predicate EdgesUpTo(passes: seq<Pass>, dependencies: seq<Edge>, index: nat, edges: seq<Edge>) {
    forall e :: e in edges <==> e in dependencies || (e.1 < index && AdjacentHazard(passes, e.0, e.1))
  }

  lemma UseEdgeIsAdjacentHazard(passes: seq<Pass>, index: nat, resources: seq<Resource>, t: Tracking, a: nat)
    requires index < |passes| && TracksPasses(passes, index, t)
    requires |t.writers| == |resources| && passes[index].ValidUses(resources)
    ensures UseEdge(passes[index], |passes[index].Uses()|, |passes|, t.writers, t.readers, a)
       <==> AdjacentHazard(passes, a, index)
  {
    var pass := passes[index];
    var uses := pass.Uses();
    if UseEdge(pass, |uses|, |passes|, t.writers, t.readers, a) {
      var j :| 0 <= j < |uses| && UseEdgeAt(pass, j, |passes|, t.writers, t.readers, a);
      var r := uses[j].resource;
      assert UsedBetween(pass, 0, |uses|, r);
      assert j >= |pass.readUses| ==> UsedBetween(pass, |pass.readUses|, |uses|, r);
      UsedBetweenAll(pass, r);
      assert AdjacentHazardOn(passes, a, index, r);
    }
    if AdjacentHazard(passes, a, index) {
      var r :| AdjacentHazardOn(passes, a, index, r);
      UsedBetweenAll(pass, r);
      var lo := if pass.Writes(r) then |pass.readUses| else 0;
      assert UsedBetween(pass, lo, |uses|, r);
      var j :| lo <= j < |uses| && uses[j].resource == r;
      assert UseEdgeAt(pass, j, |passes|, t.writers, t.readers, a);
    }
  }

  lemma PassRegistered(passes: seq<Pass>, index: nat, resources: seq<Resource>, dependencies: seq<Edge>,
                       t: Tracking, edges: seq<Edge>, t': Tracking, out: seq<Edge>)
    requires index < |passes| && passes[index].ValidUses(resources)
    requires |t.writers| == |resources| && TracksPasses(passes, index, t)
    requires EdgesUpTo(passes, dependencies, index, edges)
    requires TracksFirstUses(passes[index], |passes[index].Uses()|, index, t, t')
    requires EdgesOfFirstUses(passes[index], |passes[index].Uses()|, index, |passes|, t, edges, out)
    ensures TracksPasses(passes, index + 1, t') && EdgesUpTo(passes, dependencies, index + 1, out)
  {
    var pass := passes[index];
    forall r: nat | r < |t'.writers|
      ensures t'.writers[r] == LastWriter(passes, r, index + 1)
      ensures t'.readers[r] == ReadersSince(passes, r, index + 1)
    {
      UsedBetweenAll(pass, r);
    }
    forall e: Edge
      ensures e in out <==> e in dependencies || (e.1 < index + 1 && AdjacentHazard(passes, e.0, e.1))
    {
      UseEdgeIsAdjacentHazard(passes, index, resources, t, e.0);
    }
  }

  /** Checks every declaration and collects the edges the worklist has to respect. */
  method CollectEdges(passes: seq<Pass>, resources: seq<Resource>, dependencies: seq<Edge>)
    returns (valid: bool, edges: seq<Edge>)
    ensures valid <==> AllValid(passes, resources)
    ensures valid ==> IsEdgeSet(passes, dependencies, EdgeSet(edges))
  {
    var writers, readers := new nat[|resources|](_ => |passes|), new seq<nat>[|resources|](_ => []);
    edges := dependencies;
    for index := 0 to |passes|
      invariant forall i :: 0 <= i < index ==> passes[i].Valid(resources)
      invariant TracksPasses(passes, index, TrackingOf(writers, readers))
      invariant EdgesUpTo(passes, dependencies, index, edges)
    {
      ghost var t, edges0 := TrackingOf(writers, readers), edges;
      valid, edges := RegisterUses(passes[index], index, |passes|, resources, writers, readers, edges);
      if !valid {
        return;
      }
      PassRegistered(passes, index, resources, dependencies, t, edges0, TrackingOf(writers, readers), edges);
      valid := ValidateAttachments(passes[index], resources);
      if !valid {
        return;
      }
    }
    valid := true;
  }

  // ---------------------------------------------------- contents of a pass

  ghost function AsMap(initialized: seq<bool>): map<nat, bool> {
    map r: nat | r < |initialized| :: initialized[r]
  }

  /** Looks at what the pass reads, then at what it loads. */
  method CheckContents(pass: Pass, resources: seq<Resource>, initialized: array<bool>) returns (failure: Option<CompileError>)
    requires pass.Valid(resources) && initialized.Length == |resources|
    ensures failure == CheckPass(pass, AsMap(initialized[..]))
  {
    ghost var s := AsMap(initialized[..]);
    for i := 0 to |pass.readUses|
      invariant forall j :: 0 <= j < i ==> IsDefined(s, pass.readUses[j].resource)
    {
      var r := pass.readUses[i].resource;
      assert pass.Uses()[i] == pass.readUses[i];
      if !initialized[r] {
        assert pass.Reads(r) && !IsDefined(s, r);
        return Some(READ_BEFORE_PRODUCE);
      }
    }
    var attachments := pass.Attachments();
    for i := 0 to |attachments|
      invariant forall j :: 0 <= j < i && attachments[j].load == LOAD ==> IsDefined(s, attachments[j].resource)
    {
      if attachments[i].load == LOAD && !initialized[attachments[i].resource] {
        assert AttachedAs(pass, attachments[i].resource, attachments[i]);
        assert Loads(pass, attachments[i].resource) && !IsDefined(s, attachments[i].resource);
        return Some(LOAD_BEFORE_PRODUCE);
      }
    }
    failure := None;
  }

  /** Applies the attachments' policies, colors first. */
  method ApplyStores(pass: Pass, resources: seq<Resource>, initialized: array<bool>)
    requires pass.Valid(resources) && initialized.Length == |resources|
    modifies initialized
    ensures forall r: nat :: r < initialized.Length ==> initialized[r] == DefinedAfter(pass, r, old(initialized[r]))
  {
    var attachments := pass.Attachments();
    for i := 0 to |attachments|
      invariant forall r: nat :: r < initialized.Length && !pass.AttachesFirst(i, r) ==> initialized[r] == old(initialized[r])
      invariant forall j :: 0 <= j < i ==>
        initialized[attachments[j].resource] == StoresDefined(attachments[j], old(initialized[attachments[j].resource]))
    {
      var a := attachments[i];
      assert !pass.AttachesFirst(i, a.resource);
      initialized[a.resource] :=
        a.store == STORE && (a.load == CLEAR || (a.load == LOAD && initialized[a.resource]));
    }
    forall r: nat | r < initialized.Length
      ensures initialized[r] == DefinedAfter(pass, r, old(initialized[r]))
    {
      if a :| AttachedAs(pass, r, a) {
        AttachedIsWritten(pass, resources, r, a);
        var j :| 0 <= j < |attachments| && attachments[j] == a;
      } else {
        assert !pass.AttachesFirst(|attachments|, r) by {
          if j :| 0 <= j < |attachments| && attachments[j].resource == r {
            assert AttachedAs(pass, r, attachments[j]);
          }
        }
      }
    }
  }

  // ----------------------------------------------------------- the worklist

  /** Takes one edge away from every successor and adds the ones that wait no more. */
  method ReleaseSuccessors(successors: seq<nat>, incoming: array<nat>, ready: set<nat>) returns (ready': set<nat>)
    requires Distinct(successors)
    requires forall x :: x in successors ==> x < incoming.Length && incoming[x] > 0
    modifies incoming
    ensures forall x: nat :: x < incoming.Length ==>
      incoming[x] == old(incoming[x]) - if x in successors then 1 else 0
    ensures forall x :: x in ready' <==> x in ready || (x in successors && incoming[x] == 0)
  {
    ready' := ready;
    for j := 0 to |successors|
      invariant forall x: nat :: x < incoming.Length ==>
        incoming[x] == old(incoming[x]) - if x in successors[..j] then 1 else 0
      invariant forall x: nat :: x in ready' <==>
        x in ready || (x in successors[..j] && x < incoming.Length && incoming[x] == 0)
    {
      var next := successors[j];
      assert next in successors && next !in successors[..j];
      assert successors[..j + 1] == successors[..j] + [next];
      incoming[next] := incoming[next] - 1;
      if incoming[next] == 0 {
        ready' := ready' + {next};
      }
    }
    assert successors[..|successors|] == successors;
  }

  lemma SuccessorsReleased(rest: set<nat>, edges: set<Edge>, m: nat, successors: seq<nat>,
                           incoming: seq<nat>, incoming': seq<nat>, ready': set<nat>)
    requires m in Ready(rest, edges) && |incoming| == |incoming'|
    requires forall x: nat :: x in successors <==> (m, x) in edges
    requires forall x :: x in rest ==> x < |incoming|
    requires CountsIncoming(incoming, rest, edges)
    requires forall x: nat :: x < |incoming| ==> incoming'[x] + (if x in successors then 1 else 0) == incoming[x]
    requires forall x :: x in successors ==> x < |incoming| && x in rest
    requires forall x :: x in ready' <==> x in Ready(rest, edges) - {m} || (x in successors && incoming'[x] == 0)
    ensures CountsIncoming(incoming', rest - {m}, edges)
    ensures ready' == Ready(rest - {m}, edges)
  {
    forall x: nat | x < |incoming|
      ensures incoming'[x] == |Predecessors(rest - {m}, edges, x)|
    {
      DropNodeCounts(rest, edges, m, x);
    }
    forall x: nat
      ensures x in ready' <==> x in Ready(rest - {m}, edges)
    {
      ReadyIffNoPredecessors(rest, edges, x);
      ReadyIffNoPredecessors(rest - {m}, edges, x);
    }
  }

  /** Every edge out of a waiting pass leads to a waiting pass. */
  ghost predicate ClosedUnderEdges(rest: set<nat>, edges: set<Edge>) {
    forall e :: e in edges && e.0 in rest ==> e.1 in rest
  }

  /** What the worklist still has to do, seen from what it has done. */
  ghost predicate Remaining(passes: seq<Pass>, full: seq<nat>, start: map<nat, bool>, order: seq<nat>,
                            tail: seq<nat>, now: map<nat, bool>)
  {
    && full == order + tail
    && FirstFailure(passes, full, start) == FirstFailure(passes, tail, now)
    && Run(TrackDefined(passes), full, start) == Run(TrackDefined(passes), tail, now)
  }

  lemma NothingDone(passes: seq<Pass>, full: seq<nat>, start: map<nat, bool>)
    ensures Remaining(passes, full, start, [], full, start)
  {
  }

  lemma AllDone(passes: seq<Pass>, full: seq<nat>, start: map<nat, bool>, order: seq<nat>, now: map<nat, bool>)
    requires Remaining(passes, full, start, order, [], now)
    ensures order == full && FirstFailure(passes, full, start) == None && now == Run(TrackDefined(passes), full, start)
  {
  }

  lemma RemainingStep(passes: seq<Pass>, full: seq<nat>, start: map<nat, bool>, order: seq<nat>,
                      m: nat, tail: seq<nat>, now: map<nat, bool>)
    requires Remaining(passes, full, start, order, [m] + tail, now) && m < |passes|
    ensures CheckPass(passes[m], now) == None ==>
      Remaining(passes, full, start, order + [m], tail, TrackDefined(passes)(m, now))
    ensures CheckPass(passes[m], now) != None ==> FirstFailure(passes, full, start) == CheckPass(passes[m], now)
  {
    assert ([m] + tail)[1..] == tail;
    assert order + ([m] + tail) == order + [m] + tail;
  }

  lemma TrackedStep(passes: seq<Pass>, m: nat, before: seq<bool>, after: seq<bool>)
    requires m < |passes| && |before| == |after|
    requires forall r: nat :: r < |after| ==> after[r] == DefinedAfter(passes[m], r, before[r])
    ensures AsMap(after) == TrackDefined(passes)(m, AsMap(before))
  {
  }

  method PopMin(ready: set<nat>) returns (m: nat)
    requires ready != {}
    ensures m == Min(ready)
  {
    MinExists(ready);
    m :| m in ready && forall x :: x in ready ==> m <= x;
    MinIs(ready, m);
  }

  lemma SuccessorsWait(rest: set<nat>, edges: set<Edge>, m: nat, successors: seq<nat>, incoming: seq<nat>)
    requires m in Ready(rest, edges) && ClosedUnderEdges(rest, edges)
    requires forall x: nat :: x in successors <==> (m, x) in edges
    requires forall x :: x in rest ==> x < |incoming|
    requires CountsIncoming(incoming, rest, edges)
    ensures forall x :: x in successors ==> x in rest && x < |incoming| && incoming[x] > 0
    ensures ClosedUnderEdges(rest - {m}, edges)
  {
    forall x | x in successors
      ensures x in rest && x < |incoming| && incoming[x] > 0
    {
      assert (m, x) in edges && (m, x).1 in rest;
      assert m in Predecessors(rest, edges, x);
    }
    forall e | e in edges && e.0 in rest - {m}
      ensures e.1 in rest - {m}
    {
      assert (e.0, e.1) == e;
    }
  }

  /** The state of the worklist while the passes in rest are still waiting. */
  ghost predicate Waiting(count: nat, edges: set<Edge>, rest: set<nat>, ready: set<nat>,
                          outgoing: seq<seq<nat>>, incoming: seq<nat>)
  {
    && |outgoing| == |incoming| == count
    && (forall x :: x in rest ==> x < count)
    && ready == Ready(rest, edges)
    && ClosedUnderEdges(rest, edges)
    && ListsOutgoing(outgoing, edges)
    && CountsIncoming(incoming, rest, edges)
  }

  lemma ZeroCountsAreReady(count: nat, edges: set<Edge>, incoming: seq<nat>, ready: set<nat>)
    requires |incoming| == count && CountsIncoming(incoming, Below(count), edges)
    requires forall x: nat :: x in ready <==> x < count && incoming[x] == 0
    ensures ready == Ready(Below(count), edges)
  {
    forall x: nat
      ensures x in ready <==> x in Ready(Below(count), edges)
    {
      ReadyIffNoPredecessors(Below(count), edges, x);
    }
  }

  method InitialReady(incoming: array<nat>) returns (ready: set<nat>)
    ensures forall x: nat :: x in ready <==> x < incoming.Length && incoming[x] == 0
  {
    ready := {};
    for index := 0 to incoming.Length
      invariant forall x: nat :: x in ready <==> x < index && incoming[x] == 0
    {
      if incoming[index] == 0 {
        ready := ready + {index};
      }
    }
  }

  lemma NextOfOrder(count: nat, rest: set<nat>, edges: set<Edge>, ready: set<nat>,
                    outgoing: seq<seq<nat>>, incoming: seq<nat>)
    requires Waiting(count, edges, rest, ready, outgoing, incoming)
    ensures ready == {} ==> LeastOrder(rest, edges) == []
    ensures ready != {} ==>
      Min(ready) in rest && Min(ready) < count && LeastOrder(rest, edges) == [Min(ready)] + LeastOrder(rest - {Min(ready)}, edges)
  {
  }

  /** Takes the emitted pass out and releases its successors. */
  method Retire(ghost count: nat, ghost edges: set<Edge>, ghost rest: set<nat>, ready: set<nat>, index: nat,
                outgoing: array<seq<nat>>, incoming: array<nat>) returns (ready': set<nat>)
    requires Waiting(count, edges, rest, ready, outgoing[..], incoming[..])
    requires index in ready
    modifies incoming
    ensures Waiting(count, edges, rest - {index}, ready', outgoing[..], incoming[..])
  {
    ghost var incoming0 := incoming[..];
    SuccessorsWait(rest, edges, index, outgoing[index], incoming0);
    ready' := ReleaseSuccessors(outgoing[index], incoming, ready - {index});
    SuccessorsReleased(rest, edges, index, outgoing[index], incoming0, incoming[..], ready');
  }

  /** Checks the contents a pass needs and applies what it leaves. */
  method EmitPass(passes: seq<Pass>, resources: seq<Resource>, index: nat, initialized: array<bool>,
                  ghost full: seq<nat>, ghost start: map<nat, bool>, ghost order: seq<nat>, ghost tail: seq<nat>)
    returns (failure: Option<CompileError>)
    requires AllValid(passes, resources) && initialized.Length == |resources| && index < |passes|
    requires Remaining(passes, full, start, order, [index] + tail, AsMap(initialized[..]))
    modifies initialized
    ensures failure == None ==> Remaining(passes, full, start, order + [index], tail, AsMap(initialized[..]))
    ensures failure != None ==> failure == FirstFailure(passes, full, start)
  {
    ghost var before := initialized[..];
    RemainingStep(passes, full, start, order, index, tail, AsMap(before));
    failure := CheckContents(passes[index], resources, initialized);
    if failure == None {
      ApplyStores(passes[index], resources, initialized);
      TrackedStep(passes, index, before, initialized[..]);
    }
  }

  method StartWorklist(count: nat, edges: seq<Edge>)
    returns (outgoing: array<seq<nat>>, incoming: array<nat>, ready: set<nat>)
    requires StrictlySorted(edges)
    requires forall e :: e in edges ==> e.0 < count && e.1 < count
    ensures fresh(outgoing) && fresh(incoming)
    ensures Waiting(count, EdgeSet(edges), Below(count), ready, outgoing[..], incoming[..])
  {
    outgoing, incoming := CountEdges(count, edges);
    ready := InitialReady(incoming);
    ZeroCountsAreReady(count, EdgeSet(edges), incoming[..], ready);
  }

  /** Emits the smallest ready pass, checks and applies its contents, releases its successors. */
  method RunWorklist(passes: seq<Pass>, resources: seq<Resource>, edges: seq<Edge>, initialized: array<bool>)
    returns (failure: Option<CompileError>, order: seq<nat>)
    requires AllValid(passes, resources) && initialized.Length == |resources|
    requires StrictlySorted(edges) && forall e :: e in edges ==> e.0 < |passes| && e.1 < |passes|
    modifies initialized
    ensures failure == FirstFailure(passes, LeastOrder(Below(|passes|), EdgeSet(edges)), old(AsMap(initialized[..])))
    ensures failure == None ==> order == LeastOrder(Below(|passes|), EdgeSet(edges))
    ensures failure == None ==>
      AsMap(initialized[..]) == Run(TrackDefined(passes), order, old(AsMap(initialized[..])))
  {
    hide *;
    var outgoing, incoming, ready := StartWorklist(|passes|, edges);
    ghost var edgeSet, rest, start := EdgeSet(edges), Below(|passes|), AsMap(initialized[..]);
    ghost var full := LeastOrder(rest, edgeSet);
    order := [];
    NothingDone(passes, full, start);
    while ready != {}
      invariant Waiting(|passes|, edgeSet, rest, ready, outgoing[..], incoming[..])
      invariant Remaining(passes, full, start, order, LeastOrder(rest, edgeSet), AsMap(initialized[..]))
      decreases |rest|
    {
      var index := PopMin(ready);
      NextOfOrder(|passes|, rest, edgeSet, ready, outgoing[..], incoming[..]);
      failure := EmitPass(passes, resources, index, initialized, full, start, order, LeastOrder(rest - {index}, edgeSet));
      if failure != None {
        return;
      }
      ready := Retire(|passes|, edgeSet, rest, ready, index, outgoing, incoming);
      order, rest := order + [index], rest - {index};
    }
    NextOfOrder(|passes|, rest, edgeSet, ready, outgoing[..], incoming[..]);
    AllDone(passes, full, start, order, AsMap(initialized[..]));
    failure := None;
  }

  // --------------------------------------------------------------- builder

  /** What the tracking starts from: everything not imported as UNDEFINED. */
  ghost function InitiallyDefined(resources: seq<Resource>): map<nat, bool> {
    map r: nat | r < |resources| :: resources[r].initialUsage != UNDEFINED
  }

  ghost function HazardEdges(passes: seq<Pass>): (edges: set<Edge>)
    ensures forall e :: e in edges <==> AdjacentHazard(passes, e.0, e.1)
  {
    var n := Below(|passes|);
    var edges := set a, b | a in n && b in n && AdjacentHazard(passes, a, b) :: (a, b);
    assert forall e: Edge :: AdjacentHazard(passes, e.0, e.1) ==> e.0 in n && e.1 in n && (e.0, e.1) in edges;
    edges
  }

  /** The combined edges the builder has recorded. */
  ghost function GraphEdges(passes: seq<Pass>, dependencies: seq<Edge>): (edges: set<Edge>)
    ensures IsEdgeSet(passes, dependencies, edges)
  {
    EdgeSet(dependencies) + HazardEdges(passes)
  }

  lemma SameEdges(passes: seq<Pass>, dependencies: seq<Edge>, edges: set<Edge>)
    requires IsEdgeSet(passes, dependencies, edges)
    ensures edges == GraphEdges(passes, dependencies)
  {
  }

  ghost function CompiledOrder(passes: seq<Pass>, dependencies: seq<Edge>): seq<nat> {
    LeastOrder(Below(|passes|), GraphEdges(passes, dependencies))
  }

  /** What Compile has to answer for these declarations. */
  ghost predicate IsCompileResult(passes: seq<Pass>, resources: seq<Resource>, dependencies: seq<Edge>,
                                  result: Result<CompiledGraph, CompileError>)
  {
    if !AllValid(passes, resources) then result == Err(INVALID_DECLARATION)
    else
      var order, start := CompiledOrder(passes, dependencies), InitiallyDefined(resources);
      var failure := FirstFailure(passes, order, start);
      if failure != None then result == Err(failure.value)
      else if !Acyclic(Below(|passes|), GraphEdges(passes, dependencies)) then result == Err(CYCLE)
      else if !Accepts(passes, order, start) then result == Err(UNDEFINED_AT_END)
      else
        && result.Ok? && result.value.passes == order
        && StrictlySorted(result.value.dependencies)
        && EdgeSet(result.value.dependencies) == GraphEdges(passes, dependencies)
  }

  /** The edges the worklist is given, sorted and without repetitions. */
  method CompileEdges(passes: seq<Pass>, resources: seq<Resource>, dependencies: seq<Edge>)
    returns (valid: bool, sorted: seq<Edge>)
    requires forall e :: e in dependencies ==> e.0 < |passes| && e.1 < |passes|
    ensures valid <==> AllValid(passes, resources)
    ensures valid ==> StrictlySorted(sorted) && EdgeSet(sorted) == GraphEdges(passes, dependencies)
    ensures valid ==> forall e :: e in sorted ==> e.0 < |passes| && e.1 < |passes|
  {
    var edges;
    valid, edges := CollectEdges(passes, resources, dependencies);
    sorted := [];
    if valid {
      sorted := SortUnique(edges);
      assert EdgeSet(sorted) == EdgeSet(edges);
      SameEdges(passes, dependencies, EdgeSet(sorted));
      forall e | e in sorted
        ensures e.0 < |passes| && e.1 < |passes|
      {
        assert e in EdgeSet(sorted);
      }
    }
  }

  method InitialContents(resources: seq<Resource>) returns (initialized: array<bool>)
    ensures fresh(initialized) && initialized.Length == |resources|
    ensures AsMap(initialized[..]) == InitiallyDefined(resources)
  {
    initialized := new bool[|resources|](r requires 0 <= r < |resources| => resources[r].initialUsage != UNDEFINED);
  }

  method EndsDefined(initialized: array<bool>) returns (defined: bool)
    ensures defined <==> forall r :: r in AsMap(initialized[..]) ==> IsDefined(AsMap(initialized[..]), r)
  {
    for r := 0 to initialized.Length
      invariant forall x: nat :: x < r ==> initialized[x]
    {
      if !initialized[r] {
        assert !IsDefined(AsMap(initialized[..]), r);
        return false;
      }
    }
    defined := true;
  }

  lemma InvalidDeclarations(passes: seq<Pass>, resources: seq<Resource>, dependencies: seq<Edge>)
    requires !AllValid(passes, resources)
    ensures IsCompileResult(passes, resources, dependencies, Err(INVALID_DECLARATION))
  {
  }

  lemma FailedContents(passes: seq<Pass>, resources: seq<Resource>, dependencies: seq<Edge>, failure: CompileError)
    requires AllValid(passes, resources)
    requires Some(failure) == FirstFailure(passes, LeastOrder(Below(|passes|), GraphEdges(passes, dependencies)), InitiallyDefined(resources))
    ensures IsCompileResult(passes, resources, dependencies, Err(failure))
  {
  }

  lemma PassesLeft(passes: seq<Pass>, resources: seq<Resource>, dependencies: seq<Edge>)
    requires AllValid(passes, resources)
    requires var order := LeastOrder(Below(|passes|), GraphEdges(passes, dependencies));
      |order| != |passes| && FirstFailure(passes, order, InitiallyDefined(resources)) == None
    ensures IsCompileResult(passes, resources, dependencies, Err(CYCLE))
  {
    CompleteIffAcyclic(Below(|passes|), GraphEdges(passes, dependencies));
  }

  lemma EverythingEmitted(passes: seq<Pass>, resources: seq<Resource>, dependencies: seq<Edge>, order: seq<nat>,
                          final: map<nat, bool>, defined: bool, sorted: seq<Edge>)
    requires AllValid(passes, resources)
    requires order == LeastOrder(Below(|passes|), GraphEdges(passes, dependencies)) && |order| == |passes|
    requires FirstFailure(passes, order, InitiallyDefined(resources)) == None
    requires final == Run(TrackDefined(passes), order, InitiallyDefined(resources))
    requires defined <==> forall r :: r in final ==> IsDefined(final, r)
    requires StrictlySorted(sorted) && EdgeSet(sorted) == GraphEdges(passes, dependencies)
    ensures IsCompileResult(passes, resources, dependencies,
                            if defined then Ok(CompiledGraph(order, sorted)) else Err(UNDEFINED_AT_END))
  {
    CompleteIffAcyclic(Below(|passes|), GraphEdges(passes, dependencies));
    TrackKeepsKeys(passes, order, InitiallyDefined(resources));
  }

  lemma {:induction false} TrackKeepsKeys(passes: seq<Pass>, order: seq<nat>, s: map<nat, bool>)
    ensures Run(TrackDefined(passes), order, s).Keys == s.Keys
  {
    if order != [] {
      TrackKeepsKeys(passes, order[1..], TrackDefined(passes)(order[0], s));
    }
  }

  // --------------------------------------------------------------- theorems

  /** Whatever the draws cover, no read and no LOAD touches an undefined texel, and all resources end defined. */
  ghost predicate AlwaysSafe(passes: seq<Pass>, order: seq<nat>, texels: map<nat, seq<bool>>) {
    forall cover :: SafeRun(passes, order, cover, texels)
  }

  /** An order in which the edges of the compiled graph all point forward. */
  ghost predicate RespectsEdges(passes: seq<Pass>, dependencies: seq<Edge>, order: seq<nat>) {
    IsTopologicalOrder(order, Below(|passes|), GraphEdges(passes, dependencies))
  }

  /** The analysis starts from exactly what the texels say. */
  lemma ImportsAreExact(resources: seq<Resource>, texels: map<nat, seq<bool>>)
    requires forall r: nat :: r in texels <==> r < |resources|
    requires forall r :: r in texels ==> |texels[r]| > 0
    requires forall r, i :: r in texels && 0 <= i < |texels[r]| ==>
      texels[r][i] == (resources[r].initialUsage != UNDEFINED)
    ensures Exact(InitiallyDefined(resources), texels)
  {
    forall r | r in texels
      ensures AllTexelsDefined(texels[r]) == (resources[r].initialUsage != UNDEFINED)
    {
      assert texels[r][0] == (resources[r].initialUsage != UNDEFINED);
    }
  }

  lemma AcceptedInEveryOrder(passes: seq<Pass>, resources: seq<Resource>, dependencies: seq<Edge>,
                             p: seq<nat>, q: seq<nat>, texels: map<nat, seq<bool>>)
    requires AllValid(passes, resources) && Exact(InitiallyDefined(resources), texels)
    requires RespectsEdges(passes, dependencies, p) && RespectsEdges(passes, dependencies, q)
    ensures Accepts(passes, p, InitiallyDefined(resources)) <==> AlwaysSafe(passes, q, texels)
  {
    var start := InitiallyDefined(resources);
    hide AllValid, Exact, Accepts, SafeRun, IsTopologicalOrder, GraphEdges;
    VerdictIndependentOfOrder(passes, resources, dependencies, GraphEdges(passes, dependencies), p, q, start);
    AcceptsIffEveryRunIsSafe(passes, resources, q, start, texels);
  }

  /**
   * Compile answers with a graph if and only if the declarations are valid, the edges have no cycle, and in every
   * order that respects the edges every run is safe, whatever texels its draws cover. A run starts with all texels of
   * the resources defined, but for those imported with undefined contents.
   */
  lemma CompilesIffSafe(passes: seq<Pass>, resources: seq<Resource>, dependencies: seq<Edge>,
                        result: Result<CompiledGraph, CompileError>, texels: map<nat, seq<bool>>)
    requires IsCompileResult(passes, resources, dependencies, result)
    requires forall r: nat :: r in texels <==> r < |resources|
    requires forall r :: r in texels ==> |texels[r]| > 0
    requires forall r, i :: r in texels && 0 <= i < |texels[r]| ==>
      texels[r][i] == (resources[r].initialUsage != UNDEFINED)
    ensures result.Ok? <==>
      && AllValid(passes, resources) && Acyclic(Below(|passes|), GraphEdges(passes, dependencies))
      && forall order :: RespectsEdges(passes, dependencies, order) ==> AlwaysSafe(passes, order, texels)
  {
    ImportsAreExact(resources, texels);
    var compiled := CompiledOrder(passes, dependencies);
    if AllValid(passes, resources) && Acyclic(Below(|passes|), GraphEdges(passes, dependencies)) {
      CompleteIffAcyclic(Below(|passes|), GraphEdges(passes, dependencies));
      assert RespectsEdges(passes, dependencies, compiled);
      forall order | RespectsEdges(passes, dependencies, order)
        ensures Accepts(passes, compiled, InitiallyDefined(resources)) <==> AlwaysSafe(passes, order, texels)
      {
        hide IsCompileResult;
        AcceptedInEveryOrder(passes, resources, dependencies, compiled, order, texels);
      }
      hide AllValid, Exact, AlwaysSafe, IsTopologicalOrder, GraphEdges, InitiallyDefined;
    }
  }

  /**
   * A compiled graph lists all passes in an order that respects its edges, and whatever the passes compute inside
   * their declared footprints, every order that respects these edges, the compiled one among them, shows each pass the
   * contents it sees in declaration order and leaves every resource with the same contents.
   */
  lemma CompiledGraphKeepsMeaning<Contents(!new)>(
      passes: seq<Pass>, resources: seq<Resource>, dependencies: seq<Edge>, graph: CompiledGraph, order: seq<nat>,
      draw: (nat, map<nat, Contents>) -> map<nat, Contents>, initial: map<nat, Contents>)
    requires IsCompileResult(passes, resources, dependencies, Ok(graph)) && AllConfined(draw, PassFootprint(passes))
    requires IsTopologicalOrder(order, Below(|passes|), EdgeSet(graph.dependencies))
    ensures IsTopologicalOrder(graph.passes, Below(|passes|), EdgeSet(graph.dependencies))
    ensures Run(draw, order, initial) == Run(draw, graph.passes, initial) == Run(draw, Counting(0, |passes|), initial)
    ensures forall k :: 0 <= k < |order| ==>
      order[k] < |passes| &&
      Seen(PassFootprint(passes))(order[k], Run(draw, order[..k], initial))
        == Seen(PassFootprint(passes))(order[k], Run(draw, Counting(0, |passes|)[..order[k]], initial))
  {
    var edges := GraphEdges(passes, dependencies);
    CompleteIffAcyclic(Below(|passes|), edges);
    assert EdgeSet(graph.dependencies) == edges;
    OrderKeepsMeaning(passes, dependencies, edges, order, draw, initial);
    OrderKeepsMeaning(passes, dependencies, edges, graph.passes, draw, initial);
  }

  class RenderGraphBuilder {
    var resources: seq<Resource>
    var passes: seq<Pass>
    var dependencies: seq<Edge>

    constructor ()
      ensures Valid() && resources == [] && passes == [] && dependencies == []
    {
      resources, passes, dependencies := [], [], [];
    }

    /** Explicit dependencies join two different known passes. */
    ghost predicate Valid()
      reads this
    {
      forall e :: e in dependencies ==> e.0 < |passes| && e.1 < |passes| && e.0 != e.1
    }

    method AddGraphicsPass(pass: Pass) returns (id: nat)
      requires Valid()
      modifies this`passes
      ensures Valid() && id == |old(passes)| && passes == old(passes) + [pass]
    {
      id := |passes|;
      passes := passes + [pass];
    }

    method AddDependency(before: nat, after: nat) returns (ok: bool)
      requires Valid()
      modifies this`dependencies
      ensures Valid() && ok == (before < |passes| && after < |passes| && before != after)
      ensures dependencies == if ok then old(dependencies) + [(before, after)] else old(dependencies)
    {
      ok := before < |passes| && after < |passes| && before != after;
      if ok {
        dependencies := dependencies + [(before, after)];
      }
    }

    /** Compiles the declarations into an order of passes, or names the first complaint. */
    method Compile() returns (result: Result<CompiledGraph, CompileError>)
      requires Valid()
      ensures IsCompileResult(passes, resources, dependencies, result)
    {
      var valid, sorted := CompileEdges(passes, resources, dependencies);
      hide *;
      if !valid {
        InvalidDeclarations(passes, resources, dependencies);
        return Err(INVALID_DECLARATION);
      }
      var initialized := InitialContents(resources);
      var failure, order := RunWorklist(passes, resources, sorted, initialized);
      if failure != None {
        FailedContents(passes, resources, dependencies, failure.value);
        return Err(failure.value);
      }
      if |order| != |passes| {
        PassesLeft(passes, resources, dependencies);
        return Err(CYCLE);
      }
      var defined := EndsDefined(initialized);
      EverythingEmitted(passes, resources, dependencies, order, AsMap(initialized[..]), defined, sorted);
      result := if defined then Ok(CompiledGraph(order, sorted)) else Err(UNDEFINED_AT_END);
    }
  }
}

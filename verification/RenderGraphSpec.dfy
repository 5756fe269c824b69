// What the render graph compiler has to achieve (renderer/render_graph.cpp).
//
// A pass declares which resources it reads and writes and how its attachments are
// loaded and stored.  Resources are versioned in declaration order; the compiler may
// reorder passes but must not change what any of them sees.
module RenderGraphSpec {
  import opened Wrappers
  import opened Reordering
  import opened TopologicalOrder

  datatype ResourceUsage =
    | UNDEFINED
    | COLOR_ATTACHMENT_WRITE
    | DEPTH_STENCIL_WRITE
    | SAMPLED_READ
    | VERTEX_READ
    | INDEX_READ
    | UNIFORM_READ
    | TRANSFER_SOURCE
    | TRANSFER_DESTINATION
    | PRESENT

  predicate IsRead(usage: ResourceUsage) {
    usage in {SAMPLED_READ, VERTEX_READ, INDEX_READ, UNIFORM_READ, TRANSFER_SOURCE}
  }

  predicate IsWrite(usage: ResourceUsage) {
    usage == COLOR_ATTACHMENT_WRITE || usage == DEPTH_STENCIL_WRITE
  }

  datatype ResourceUse = ResourceUse(resource: nat, usage: ResourceUsage)

  datatype LoadPolicy = LOAD | CLEAR | DISCARD_LOAD
  datatype StorePolicy = STORE | DISCARD_STORE
  datatype Attachment = Attachment(resource: nat, load: LoadPolicy, store: StorePolicy)

  datatype ResourceKind = IMAGE | BUFFER | SWAPCHAIN
  datatype Resource = Resource(kind: ResourceKind, initialUsage: ResourceUsage)

  datatype Pass = Pass(readUses: seq<ResourceUse>, writeUses: seq<ResourceUse>,
                       colors: seq<Attachment>, depth: Option<Attachment>)
  {
    function Uses(): seq<ResourceUse> { readUses + writeUses }

    function Attachments(): seq<Attachment> {
      colors + match depth case None => [] case Some(attachment) => [attachment]
    }

    ghost predicate Reads(resource: nat) {
      exists i :: 0 <= i < |readUses| && readUses[i].resource == resource
    }

    ghost predicate Writes(resource: nat) {
      exists i :: 0 <= i < |writeUses| && writeUses[i].resource == resource
    }

    ghost predicate Touches(resource: nat) { Reads(resource) || Writes(resource) }

    /** Every resource is used once, and for what its list says. */
    ghost predicate ValidUses(resources: seq<Resource>) {
      && (forall i :: 0 <= i < |Uses()| ==> Uses()[i].resource < |resources|)
      && (forall i, j :: 0 <= i < j < |Uses()| ==> Uses()[i].resource != Uses()[j].resource)
      && (forall i :: 0 <= i < |readUses| ==> IsRead(readUses[i].usage))
      && (forall i :: 0 <= i < |writeUses| ==> IsWrite(writeUses[i].usage))
    }

    /** The write declaration the i-th attachment has to come with. */
    function WriteOf(i: nat): ResourceUse
      requires i < |Attachments()|
    {
      ResourceUse(Attachments()[i].resource, if i < |colors| then COLOR_ATTACHMENT_WRITE else DEPTH_STENCIL_WRITE)
    }

    ghost predicate AttachesFirst(k: nat, r: nat) {
      exists j :: 0 <= j < k && j < |Attachments()| && Attachments()[j].resource == r
    }

    ghost predicate Attaches(r: nat) { AttachesFirst(|Attachments()|, r) }

    /** Attachments and declared writes match one to one. */
    ghost predicate ValidAttachments(resources: seq<Resource>) {
      && (forall i :: 0 <= i < |Attachments()| ==>
            && Attachments()[i].resource < |resources|
            && resources[Attachments()[i].resource].kind != BUFFER
            && WriteOf(i) in writeUses)
      && (forall i, j :: 0 <= i < j < |Attachments()| ==> Attachments()[i].resource != Attachments()[j].resource)
      && (forall i :: 0 <= i < |writeUses| ==> Attaches(writeUses[i].resource))
    }

    ghost predicate Valid(resources: seq<Resource>) {
      ValidUses(resources) && ValidAttachments(resources)
    }
  }

  ghost predicate AllValid(passes: seq<Pass>, resources: seq<Resource>) {
    forall i :: 0 <= i < |passes| ==> passes[i].Valid(resources)
  }

  // ------------------------------------------------------------- hazards

  /** Two passes that may not be exchanged: they share a resource and one writes it. */
  ghost predicate Hazard(passes: seq<Pass>, a: nat, b: nat) {
    && a < |passes| && b < |passes| && a != b
    && exists r :: (passes[a].Writes(r) && passes[b].Touches(r)) || (passes[a].Touches(r) && passes[b].Writes(r))
  }

  /** The last pass before upto that writes r; the number of passes when there is none. */
  ghost function LastWriter(passes: seq<Pass>, r: nat, upto: nat): (w: nat)
    requires upto <= |passes|
    ensures w == |passes| || (w < upto && passes[w].Writes(r))
    ensures forall k :: 0 <= k < upto && passes[k].Writes(r) ==> k <= w < upto
  {
    if upto == 0 then |passes|
    else if passes[upto - 1].Writes(r) then upto - 1
    else LastWriter(passes, r, upto - 1)
  }

  /** The passes before upto that read r after its last writer. */
  ghost function ReadersSince(passes: seq<Pass>, r: nat, upto: nat): (readers: seq<nat>)
    requires upto <= |passes|
    ensures forall k :: k in readers <==>
      0 <= k < upto && passes[k].Reads(r) && !passes[k].Writes(r) &&
      (LastWriter(passes, r, upto) == |passes| || LastWriter(passes, r, upto) < k)
  {
    if upto == 0 then []
    else if passes[upto - 1].Writes(r) then []
    else ReadersSince(passes, r, upto - 1) + if passes[upto - 1].Reads(r) then [upto - 1] else []
  }

  /** The edges the compiler adds: from the last writer to every later use, and from
      the readers since that writer to the next writer. */
  ghost predicate AdjacentHazard(passes: seq<Pass>, a: nat, b: nat) {
    b < |passes| && a < |passes| && exists r :: AdjacentHazardOn(passes, a, b, r)
  }

  ghost predicate AdjacentHazardOn(passes: seq<Pass>, a: nat, b: nat, r: nat)
    requires a < |passes| && b < |passes|
  {
    || (passes[b].Touches(r) && a == LastWriter(passes, r, b))
    || (passes[b].Writes(r) && a in ReadersSince(passes, r, b))
  }

  /** The edge set of the worklist: the explicit dependencies and the adjacent hazards. */
  ghost predicate IsEdgeSet(passes: seq<Pass>, dependencies: seq<Edge>, edges: set<Edge>) {
    forall e :: e in edges <==> e in dependencies || AdjacentHazard(passes, e.0, e.1)
  }

  ghost predicate AdjacentHazardsKept(passes: seq<Pass>, order: seq<nat>) {
    forall a, b :: AdjacentHazard(passes, a, b) ==> Precedes(order, a, b)
  }

  lemma PrecedesTransitive(order: seq<nat>, a: nat, b: nat, c: nat)
    requires Distinct(order) && Precedes(order, a, b) && Precedes(order, b, c)
    ensures Precedes(order, a, c)
  {
    var i, j :| 0 <= i < j < |order| && order[i] == a && order[j] == b;
    var k, l :| 0 <= k < l < |order| && order[k] == b && order[l] == c;
    assert j == k;
  }

  /** Adjacent hazards are enough: their closure orders every hazard. */
  lemma {:induction false} AdjacentHazardsOrderAll(passes: seq<Pass>, order: seq<nat>, a: nat, b: nat)
    requires Distinct(order) && AdjacentHazardsKept(passes, order)
    requires a < b && Hazard(passes, a, b)
    ensures Precedes(order, a, b)
    decreases b
  {
    var r :| (passes[a].Writes(r) && passes[b].Touches(r)) || (passes[a].Touches(r) && passes[b].Writes(r));
    var w := LastWriter(passes, r, b);
    if w < |passes| && a < w {
      assert Hazard(passes, a, w);
      AdjacentHazardsOrderAll(passes, order, a, w);
      assert AdjacentHazardOn(passes, w, b, r) && AdjacentHazard(passes, w, b);
      PrecedesTransitive(order, a, w, b);
    } else {
      assert AdjacentHazardOn(passes, a, b, r) && AdjacentHazard(passes, a, b);
    }
  }

  lemma EdgesKeepHazards(passes: seq<Pass>, dependencies: seq<Edge>, edges: set<Edge>, order: seq<nat>)
    requires IsEdgeSet(passes, dependencies, edges)
    requires IsTopologicalOrder(order, Below(|passes|), edges)
    ensures Reorders((a, b) => Hazard(passes, a, b), Counting(0, |passes|), order)
  {
    var declared, conflict := Counting(0, |passes|), (a, b) => Hazard(passes, a, b);
    forall a, b | AdjacentHazard(passes, a, b)
      ensures Precedes(order, a, b)
    {
      assert a in order && b in order;
      var i :| 0 <= i < |order| && order[i] == a;
      var j :| 0 <= j < |order| && order[j] == b;
      assert (order[i], order[j]) in edges;
    }
    forall i, j | 0 <= i < j < |declared| && conflict(declared[i], declared[j])
      ensures Precedes(order, declared[i], declared[j])
    {
      AdjacentHazardsOrderAll(passes, order, i, j);
    }
    forall x: nat
      ensures x in declared <==> x in order
    {
      if x < |passes| { assert declared[x] == x; }
    }
  }

  // ----------------------------------------------------- meaning preserved

  /** What a pass may look at and what it may change. */
  ghost function PassFootprint(passes: seq<Pass>): nat -> Footprint<nat> {
    (p: nat) => if p < |passes|
                then Footprint(iset r | passes[p].Touches(r), iset r | passes[p].Writes(r))
                else Footprint(iset{}, iset{})
  }

  lemma ClashIsHazard(passes: seq<Pass>)
    ensures ClashesConflict(PassFootprint(passes), (a, b) => Hazard(passes, a, b))
  {
    var foot := PassFootprint(passes);
    forall a: nat, b: nat | a != b && Clash(foot(a), foot(b))
      ensures Hazard(passes, a, b)
    {
      if foot(a).outputs * foot(b).All() != iset{} {
        var r :| r in foot(a).outputs * foot(b).All();
        assert passes[a].Writes(r) && passes[b].Touches(r);
      } else {
        var r :| r in foot(b).outputs * foot(a).All();
        assert passes[a].Touches(r) && passes[b].Writes(r);
      }
    }
  }

  /** Whatever the passes compute inside their declared footprints: in every order that
      respects the edges, each pass sees the same contents in each resource it touches,
      and every resource ends with the same contents, as in declaration order. */
  lemma OrderKeepsMeaning<Contents(!new)>(
      passes: seq<Pass>, dependencies: seq<Edge>, edges: set<Edge>, order: seq<nat>,
      draw: (nat, map<nat, Contents>) -> map<nat, Contents>, initial: map<nat, Contents>)
    requires IsEdgeSet(passes, dependencies, edges)
    requires IsTopologicalOrder(order, Below(|passes|), edges)
    requires AllConfined(draw, PassFootprint(passes))
    ensures Run(draw, order, initial) == Run(draw, Counting(0, |passes|), initial)
    ensures forall k :: 0 <= k < |order| ==>
      order[k] < |passes| &&
      Seen(PassFootprint(passes))(order[k], Run(draw, order[..k], initial))
        == Seen(PassFootprint(passes))(order[k], Run(draw, Counting(0, |passes|)[..order[k]], initial))
  {
    hide AllConfined, PassFootprint, IsEdgeSet, Reorders, ClashesConflict, Run;
    var conflict := (a, b) => Hazard(passes, a, b);
    EdgesKeepHazards(passes, dependencies, edges, order);
    ClashIsHazard(passes);
    var declared := Counting(0, |passes|);
    FootprintReordering(draw, PassFootprint(passes), conflict, declared, order, initial);
    forall k | 0 <= k < |order|
      ensures order[k] < |passes|
      ensures Seen(PassFootprint(passes))(order[k], Run(draw, order[..k], initial))
           == Seen(PassFootprint(passes))(order[k], Run(draw, declared[..order[k]], initial))
    {
      assert order[k] in order;
      assert declared[order[k]] == order[k];
    }
  }
}

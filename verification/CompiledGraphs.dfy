/** What the render graph compiler's answer says about the declared passes. */
module CompiledGraphs {
  import opened Wrappers
  import opened Reordering
  import opened TopologicalOrder
  import opened RenderGraphSpec
  import opened RenderGraphContents
  import opened RenderGraphCompiler

  // ------------------------------------------------------------ edges and order

  ghost predicate Interfering(a: Pass, b: Pass, u: ResourceUse, v: ResourceUse) {
    (u in a.writeUses && (v in b.readUses || v in b.writeUses)) || (u in a.readUses && v in b.writeUses)
  }

  /** One of the two passes writes a resource that the other reads or writes. */
  ghost predicate Interferes(a: Pass, b: Pass) {
    exists u: ResourceUse, v: ResourceUse :: u.resource == v.resource && Interfering(a, b, u, v)
  }

  lemma HazardMeans(passes: seq<Pass>, a: nat, b: nat)
    ensures Hazard(passes, a, b) <==> a < |passes| && b < |passes| && a != b && Interferes(passes[a], passes[b])
  {
    if a < |passes| && b < |passes| && a != b {
      if Interferes(passes[a], passes[b]) {
        var u: ResourceUse, v: ResourceUse :| u.resource == v.resource && Interfering(passes[a], passes[b], u, v);
        UsesTouch(passes[a], u);
        UsesTouch(passes[b], v);
      }
      if Hazard(passes, a, b) {
        var r :| (passes[a].Writes(r) && passes[b].Touches(r)) || (passes[a].Touches(r) && passes[b].Writes(r));
        TouchesUses(passes[a], r);
        TouchesUses(passes[b], r);
      }
    }
  }

  lemma UsesTouch(pass: Pass, u: ResourceUse)
    ensures u in pass.readUses ==> pass.Reads(u.resource)
    ensures u in pass.writeUses ==> pass.Writes(u.resource)
  {
  }

  lemma TouchesUses(pass: Pass, r: nat)
    ensures pass.Reads(r) ==> exists u :: u in pass.readUses && u.resource == r
    ensures pass.Writes(r) ==> exists u :: u in pass.writeUses && u.resource == r
  {
  }

  lemma AdjacentIsHazard(passes: seq<Pass>, a: nat, b: nat)
    requires AdjacentHazard(passes, a, b)
    ensures a < b && Hazard(passes, a, b)
  {
  }

  lemma CompiledParts(passes: seq<Pass>, resources: seq<Resource>, dependencies: seq<Edge>, graph: CompiledGraph)
    requires IsCompileResult(passes, resources, dependencies, Ok(graph))
    ensures IsTopologicalOrder(graph.passes, Below(|passes|), GraphEdges(passes, dependencies))
    ensures graph.passes == LeastOrder(Below(|passes|), GraphEdges(passes, dependencies))
    ensures forall e :: e in graph.dependencies <==> e in dependencies || AdjacentHazard(passes, e.0, e.1)
    ensures forall e :: e in GraphEdges(passes, dependencies) <==> e in dependencies || AdjacentHazard(passes, e.0, e.1)
  {
    hide AllValid, FirstFailure, Accepts, StrictlySorted;
    CompleteIffAcyclic(Below(|passes|), GraphEdges(passes, dependencies));
    forall e
      ensures e in graph.dependencies <==> e in EdgeSet(graph.dependencies)
    {
    }
  }

  /**
   * The compiled graph has the declared dependencies, and no other edge but from an earlier to a later declared pass one of
   * which writes what the other uses. All such passes come in the order in which they were declared, and so do all
   * declared dependencies.
   */
  lemma CompiledEdgesExactly(passes: seq<Pass>, resources: seq<Resource>, dependencies: seq<Edge>, graph: CompiledGraph,
                             a: nat, b: nat)
    requires IsCompileResult(passes, resources, dependencies, Ok(graph))
    requires a < |passes| && b < |passes|
    ensures (a, b) in dependencies ==> (a, b) in graph.dependencies && Precedes(graph.passes, a, b)
    ensures (a, b) in graph.dependencies ==> (a, b) in dependencies || (a < b && Interferes(passes[a], passes[b]))
    ensures a < b && Interferes(passes[a], passes[b]) ==> Precedes(graph.passes, a, b)
  {
    hide IsCompileResult, Interferes, AdjacentHazard, Hazard, IsTopologicalOrder, IsEdgeSet;
    CompiledParts(passes, resources, dependencies, graph);
    HazardMeans(passes, a, b);
    if AdjacentHazard(passes, a, b) { AdjacentIsHazard(passes, a, b); }
    if (a, b) in dependencies {
      EdgeKept(graph.passes, |passes|, GraphEdges(passes, dependencies), a, b);
    }
    if a < b && Hazard(passes, a, b) {
      HazardsKept(passes, dependencies, graph.passes, a, b);
    }
  }

  lemma HazardsKept(passes: seq<Pass>, dependencies: seq<Edge>, order: seq<nat>, a: nat, b: nat)
    requires IsTopologicalOrder(order, Below(|passes|), GraphEdges(passes, dependencies))
    requires a < b && Hazard(passes, a, b)
    ensures Precedes(order, a, b)
  {
    hide Interferes, AdjacentHazard, Hazard, IsTopologicalOrder;
    OrderIsDistinct(order, Below(|passes|), GraphEdges(passes, dependencies));
    forall x: nat, y: nat | AdjacentHazard(passes, x, y)
      ensures Precedes(order, x, y)
    {
      AdjacentIsHazard(passes, x, y);
      HazardMeans(passes, x, y);
      EdgeKept(order, |passes|, GraphEdges(passes, dependencies), x, y);
    }
    AdjacentHazardsOrderAll(passes, order, a, b);
  }

  lemma OrderIsDistinct(order: seq<nat>, nodes: set<nat>, edges: set<Edge>)
    requires IsTopologicalOrder(order, nodes, edges)
    ensures Distinct(order)
  {
  }

  lemma EdgeKept(order: seq<nat>, n: nat, edges: set<Edge>, a: nat, b: nat)
    requires IsTopologicalOrder(order, Below(n), edges) && (a, b) in edges && a < n && b < n
    ensures Precedes(order, a, b)
  {
    assert a in order && b in order;
    var i :| 0 <= i < |order| && order[i] == a;
    var j :| 0 <= j < |order| && order[j] == b;
    assert !(j <= i);
  }

  /** Every place of the order goes to the earliest declared pass that no pass still to come has to precede. */
  lemma EarliestPassFirst(passes: seq<Pass>, resources: seq<Resource>, dependencies: seq<Edge>, graph: CompiledGraph,
                          k: nat, m: nat)
    requires IsCompileResult(passes, resources, dependencies, Ok(graph)) && k < m < |graph.passes|
    requires forall e :: e in graph.dependencies && e.1 == graph.passes[m] ==> e.0 in graph.passes[..k]
    ensures graph.passes[k] < graph.passes[m]
  {
    hide IsCompileResult, AdjacentHazard, LeastOrder;
    CompiledParts(passes, resources, dependencies, graph);
    var nodes, edges, order := Below(|passes|), GraphEdges(passes, dependencies), graph.passes;
    assert order[m] in order && order[m] in nodes && order[k] != order[m];
    forall y | y in nodes && (y, order[m]) in edges
      ensures y in order[..k]
    {
      assert (y, order[m]) in graph.dependencies;
    }
    NextIsLeast(nodes, edges, k, order[m]);
  }

  // -------------------------------------------------------------- complaints

  /** The first pass that the check of contents complains about. */
  lemma {:induction false} FailsAt(passes: seq<Pass>, order: seq<nat>, s: map<nat, bool>) returns (k: nat)
    requires FirstFailure(passes, order, s) != None
    ensures k < |order|
    ensures CheckPass(PassAt(passes, order[k]), Run(TrackDefined(passes), order[..k], s)) == FirstFailure(passes, order, s)
    ensures EveryPassAccepted(passes, order[..k], s)
  {
    hide CheckPass, TrackDefined, EveryPassAccepted;
    if CheckPass(PassAt(passes, order[0]), s) != None {
      k := 0;
      NoFailureIffEveryPassAccepted(passes, [], s);
    } else {
      var next := TrackDefined(passes)(order[0], s);
      var rest := FailsAt(passes, order[1..], next);
      k := rest + 1;
      assert order[..k] == [order[0]] + order[1..][..rest];
      assert order[..k][1..] == order[1..][..rest];
      NoFailureIffEveryPassAccepted(passes, order[1..][..rest], next);
      NoFailureIffEveryPassAccepted(passes, order[..k], s);
    }
  }

  /** In a run whose draws cover nothing, from what the imports say, the resource is not fully defined before a pass. */
  ghost predicate BareBefore(passes: seq<Pass>, order: seq<nat>, k: nat, texels: map<nat, seq<bool>>, r: nat)
    requires k <= |order|
  {
    var now := Run(Render(passes, NO_COVER), order[..k], texels);
    r in now && exists i :: 0 <= i < |now[r]| && !now[r][i]
  }

  /** A pass reads, or loads as an attachment, what is bare before it. */
  ghost predicate ReadsBare(passes: seq<Pass>, order: seq<nat>, k: nat, texels: map<nat, seq<bool>>)
    requires k < |order|
  {
    order[k] < |passes| && exists u :: u in passes[order[k]].readUses && BareBefore(passes, order, k, texels, u.resource)
  }

  ghost predicate LoadsBare(passes: seq<Pass>, order: seq<nat>, k: nat, texels: map<nat, seq<bool>>)
    requires k < |order|
  {
    && order[k] < |passes|
    && exists a :: (a in passes[order[k]].colors || passes[order[k]].depth == Some(a)) && a.load == LOAD
                   && BareBefore(passes, order, k, texels, a.resource)
  }

  /** No pass before the k-th reads or loads anything bare. */
  ghost predicate FineUpTo(passes: seq<Pass>, order: seq<nat>, k: nat, texels: map<nat, seq<bool>>)
    requires k <= |order|
  {
    forall j :: 0 <= j < k ==> !ReadsBare(passes, order, j, texels) && !LoadsBare(passes, order, j, texels)
  }

  lemma BareMeansUndefined(passes: seq<Pass>, resources: seq<Resource>, order: seq<nat>, k: nat, texels: map<nat, seq<bool>>,
                           r: nat)
    requires AllValid(passes, resources) && k <= |order| && r < |resources|
    requires Exact(InitiallyDefined(resources), texels)
    ensures BareBefore(passes, order, k, texels, r) <==>
              !IsDefined(Run(TrackDefined(passes), order[..k], InitiallyDefined(resources)), r)
  {
    hide AllValid, TrackDefined, Render;
    var start := InitiallyDefined(resources);
    AnalysisFollowsTexels(passes, resources, order[..k], NO_COVER, start, texels);
    TrackKeepsKeys(passes, order[..k], start);
  }

  lemma ReadsBareMeans(passes: seq<Pass>, resources: seq<Resource>, order: seq<nat>, k: nat, texels: map<nat, seq<bool>>)
    requires AllValid(passes, resources) && Exact(InitiallyDefined(resources), texels) && k < |order|
    ensures var pass, now := PassAt(passes, order[k]), Run(TrackDefined(passes), order[..k], InitiallyDefined(resources));
      ReadsBare(passes, order, k, texels) <==> exists r :: pass.Reads(r) && !IsDefined(now, r)
  {
    hide AllValid, TrackDefined, Render, BareBefore, Exact, InitiallyDefined, IsDefined;
    var pass, now := PassAt(passes, order[k]), Run(TrackDefined(passes), order[..k], InitiallyDefined(resources));
    if r :| pass.Reads(r) && !IsDefined(now, r) {
      NeededResource(passes, resources, order[k], r);
      BareMeansUndefined(passes, resources, order, k, texels, r);
      var i :| 0 <= i < |pass.readUses| && pass.readUses[i].resource == r;
      assert pass.readUses[i] in passes[order[k]].readUses;
    }
    if ReadsBare(passes, order, k, texels) {
      var u :| u in pass.readUses && BareBefore(passes, order, k, texels, u.resource);
      assert pass.Reads(u.resource);
      NeededResource(passes, resources, order[k], u.resource);
      BareMeansUndefined(passes, resources, order, k, texels, u.resource);
    }
  }

  lemma LoadsBareMeans(passes: seq<Pass>, resources: seq<Resource>, order: seq<nat>, k: nat, texels: map<nat, seq<bool>>)
    requires AllValid(passes, resources) && Exact(InitiallyDefined(resources), texels) && k < |order|
    ensures var pass, now := PassAt(passes, order[k]), Run(TrackDefined(passes), order[..k], InitiallyDefined(resources));
      LoadsBare(passes, order, k, texels) <==> exists r :: Loads(pass, r) && !IsDefined(now, r)
  {
    hide AllValid, TrackDefined, Render, BareBefore, Exact, InitiallyDefined, IsDefined;
    var pass, now := PassAt(passes, order[k]), Run(TrackDefined(passes), order[..k], InitiallyDefined(resources));
    if r :| Loads(pass, r) && !IsDefined(now, r) {
      NeededResource(passes, resources, order[k], r);
      BareMeansUndefined(passes, resources, order, k, texels, r);
      var a :| AttachedAs(pass, r, a) && a.load == LOAD;
      assert a in passes[order[k]].colors || passes[order[k]].depth == Some(a);
    }
    if LoadsBare(passes, order, k, texels) {
      var a :| (a in pass.colors || pass.depth == Some(a)) && a.load == LOAD
               && BareBefore(passes, order, k, texels, a.resource);
      assert AttachedAs(pass, a.resource, a) && Loads(pass, a.resource);
      NeededResource(passes, resources, order[k], a.resource);
      BareMeansUndefined(passes, resources, order, k, texels, a.resource);
    }
  }

  /** What the check of a pass answers. */
  lemma CheckMeans(passes: seq<Pass>, resources: seq<Resource>, order: seq<nat>, k: nat, texels: map<nat, seq<bool>>)
    requires AllValid(passes, resources) && Exact(InitiallyDefined(resources), texels) && k < |order|
    ensures CheckPass(PassAt(passes, order[k]), Run(TrackDefined(passes), order[..k], InitiallyDefined(resources))) ==
            if ReadsBare(passes, order, k, texels) then Some(READ_BEFORE_PRODUCE)
            else if LoadsBare(passes, order, k, texels) then Some(LOAD_BEFORE_PRODUCE) else None
  {
    hide AllValid, TrackDefined, Exact, InitiallyDefined, IsDefined, ReadsBare, LoadsBare;
    ReadsBareMeans(passes, resources, order, k, texels);
    LoadsBareMeans(passes, resources, order, k, texels);
  }

  lemma NeededResource(passes: seq<Pass>, resources: seq<Resource>, p: nat, r: nat)
    requires AllValid(passes, resources) && NeedsDefined(PassAt(passes, p), r)
    ensures p < |passes| && r < |resources|
  {
    NeededIsResource(PassAt(passes, p), resources, r);
  }

  lemma FineMeansAccepted(passes: seq<Pass>, resources: seq<Resource>, order: seq<nat>, k: nat, texels: map<nat, seq<bool>>)
    requires AllValid(passes, resources) && Exact(InitiallyDefined(resources), texels) && k <= |order|
    ensures FineUpTo(passes, order, k, texels) <==> EveryPassAccepted(passes, order[..k], InitiallyDefined(resources))
  {
    hide AllValid, TrackDefined, Exact, InitiallyDefined, ReadsBare, LoadsBare, CheckPass;
    forall j | 0 <= j < k
      ensures order[..k][..j] == order[..j]
      ensures (!ReadsBare(passes, order, j, texels) && !LoadsBare(passes, order, j, texels)) <==>
        CheckPass(PassAt(passes, order[j]), Run(TrackDefined(passes), order[..j], InitiallyDefined(resources))) == None
    {
      CheckMeans(passes, resources, order, j, texels);
    }
  }

  /** The first complaint about contents along an order. */
  lemma FirstComplaint(passes: seq<Pass>, resources: seq<Resource>, order: seq<nat>, texels: map<nat, seq<bool>>)
    requires AllValid(passes, resources) && Exact(InitiallyDefined(resources), texels)
    ensures var failure := FirstFailure(passes, order, InitiallyDefined(resources));
      && (failure == None <==> FineUpTo(passes, order, |order|, texels))
      && (failure != None ==>
            exists k :: && 0 <= k < |order| && FineUpTo(passes, order, k, texels)
                        && (ReadsBare(passes, order, k, texels) || LoadsBare(passes, order, k, texels))
                        && failure == Some(if ReadsBare(passes, order, k, texels) then READ_BEFORE_PRODUCE else LOAD_BEFORE_PRODUCE))
  {
    hide AllValid, TrackDefined, Exact, InitiallyDefined, ReadsBare, LoadsBare, CheckPass, FirstFailure, EveryPassAccepted, FineUpTo;
    var start := InitiallyDefined(resources);
    assert order[..|order|] == order;
    NoFailureIffEveryPassAccepted(passes, order, start);
    FineMeansAccepted(passes, resources, order, |order|, texels);
    if FirstFailure(passes, order, start) != None {
      var k := FailsAt(passes, order, start);
      FineMeansAccepted(passes, resources, order, k, texels);
      CheckMeans(passes, resources, order, k, texels);
    }
  }

  /** One pass is the first to meet something bare, or none is. */
  lemma OneFirstComplaint(passes: seq<Pass>, order: seq<nat>, texels: map<nat, seq<bool>>, j: nat, k: nat)
    requires j < |order| && k < |order| && FineUpTo(passes, order, j, texels) && FineUpTo(passes, order, k, texels)
    requires ReadsBare(passes, order, j, texels) || LoadsBare(passes, order, j, texels)
    requires ReadsBare(passes, order, k, texels) || LoadsBare(passes, order, k, texels)
    ensures j == k
  {
    hide ReadsBare, LoadsBare;
  }

  lemma EndsBare(passes: seq<Pass>, resources: seq<Resource>, order: seq<nat>, texels: map<nat, seq<bool>>)
    requires AllValid(passes, resources) && Exact(InitiallyDefined(resources), texels)
    requires FirstFailure(passes, order, InitiallyDefined(resources)) == None
    ensures Accepts(passes, order, InitiallyDefined(resources)) <==>
      forall r :: 0 <= r < |resources| ==> !BareBefore(passes, order, |order|, texels, r)
  {
    hide AllValid, TrackDefined, Render, BareBefore, FirstFailure, Exact, IsDefined;
    var start := InitiallyDefined(resources);
    assert order[..|order|] == order;
    forall r: nat | r < |resources|
      ensures BareBefore(passes, order, |order|, texels, r) <==> !IsDefined(Run(TrackDefined(passes), order, start), r)
    {
      BareMeansUndefined(passes, resources, order, |order|, texels, r);
    }
  }

  lemma OrderIsComplete(passes: seq<Pass>, dependencies: seq<Edge>)
    ensures Acyclic(Below(|passes|), GraphEdges(passes, dependencies)) <==>
              |CompiledOrder(passes, dependencies)| == |passes|
  {
    hide GraphEdges, Acyclic, LeastOrder;
    CompleteIffAcyclic(Below(|passes|), GraphEdges(passes, dependencies));
    BelowSize(|passes|);
  }

  lemma {:induction false} BelowSize(n: nat)
    ensures |Below(n)| == n
  {
    if n == 0 {
      assert Below(0) == {};
    } else {
      BelowSize(n - 1);
      assert Below(n) == Below(n - 1) + {n - 1};
    }
  }

  /**
   * What compiling valid declarations answers, in terms of a run of the emitted passes whose draws cover nothing and of
   * the imports as they are declared: a read before produce exactly if the first pass that meets anything bare reads it, a
   * load before produce exactly if that pass only loads it; else a cycle exactly if some pass was not emitted; else an
   * undefined end exactly if some resource ends bare; and else a graph.
   */
  lemma AnswersExactly(passes: seq<Pass>, resources: seq<Resource>, dependencies: seq<Edge>,
                       result: Result<CompiledGraph, CompileError>, texels: map<nat, seq<bool>>)
    requires IsCompileResult(passes, resources, dependencies, result) && AllValid(passes, resources)
    requires forall r: nat :: r in texels <==> r < |resources|
    requires forall r :: r in texels ==> |texels[r]| > 0
    requires forall r, i :: r in texels && 0 <= i < |texels[r]| ==>
      texels[r][i] == (resources[r].initialUsage != UNDEFINED)
    ensures var order := CompiledOrder(passes, dependencies);
      && (result == Err(READ_BEFORE_PRODUCE) <==>
            exists k :: 0 <= k < |order| && FineUpTo(passes, order, k, texels) && ReadsBare(passes, order, k, texels))
      && (result == Err(LOAD_BEFORE_PRODUCE) <==>
            exists k :: 0 <= k < |order| && FineUpTo(passes, order, k, texels)
                        && !ReadsBare(passes, order, k, texels) && LoadsBare(passes, order, k, texels))
      && (result == Err(CYCLE) <==> FineUpTo(passes, order, |order|, texels) && |order| != |passes|)
      && (result == Err(UNDEFINED_AT_END) <==>
            && FineUpTo(passes, order, |order|, texels) && |order| == |passes|
            && exists r :: 0 <= r < |resources| && BareBefore(passes, order, |order|, texels, r))
      && (result.Err? ==> result.error != INVALID_DECLARATION)
  {
    hide AllValid, TrackDefined, BareBefore, ReadsBare, LoadsBare, FineUpTo, GraphEdges, Exact, InitiallyDefined,
      FirstFailure, Accepts, Acyclic, CompiledOrder;
    ImportsAreExact(resources, texels);
    var order, start := CompiledOrder(passes, dependencies), InitiallyDefined(resources);
    FirstComplaint(passes, resources, order, texels);
    OrderIsComplete(passes, dependencies);
    if FirstFailure(passes, order, start) != None {
      var k :| && 0 <= k < |order| && FineUpTo(passes, order, k, texels)
               && (ReadsBare(passes, order, k, texels) || LoadsBare(passes, order, k, texels));
      forall j | 0 <= j < |order| && FineUpTo(passes, order, j, texels)
                 && (ReadsBare(passes, order, j, texels) || LoadsBare(passes, order, j, texels))
        ensures j == k
      {
        OneFirstComplaint(passes, order, texels, j, k);
      }
    } else {
      EndsBare(passes, resources, order, texels);
      NoneBare(passes, order, texels);
    }
  }

  lemma NoneBare(passes: seq<Pass>, order: seq<nat>, texels: map<nat, seq<bool>>)
    requires FineUpTo(passes, order, |order|, texels)
    ensures forall k :: 0 <= k < |order| ==> !ReadsBare(passes, order, k, texels) && !LoadsBare(passes, order, k, texels)
  {
    hide ReadsBare, LoadsBare;
  }

  // ------------------------------------------------------------- declarations

  /** No two uses name the same resource, neither two reads, two writes, nor a read and a write. */
  ghost predicate UsesOnce(pass: Pass) {
    && (forall i, j :: 0 <= i < j < |pass.readUses| ==> pass.readUses[i].resource != pass.readUses[j].resource)
    && (forall i, j :: 0 <= i < j < |pass.writeUses| ==> pass.writeUses[i].resource != pass.writeUses[j].resource)
    && forall i, j :: 0 <= i < |pass.readUses| && 0 <= j < |pass.writeUses| ==>
         pass.readUses[i].resource != pass.writeUses[j].resource
  }

  /** The attachment is an image or the swapchain and is declared to be written with the usage. */
  ghost predicate IsAttached(pass: Pass, resources: seq<Resource>, a: Attachment, usage: ResourceUsage) {
    && a.resource < |resources| && resources[a.resource].kind in {IMAGE, SWAPCHAIN}
    && exists i :: 0 <= i < |pass.writeUses| && pass.writeUses[i] == ResourceUse(a.resource, usage)
  }

  /** No two attachments, of colour or of depth, are the same resource. */
  ghost predicate AttachesOnce(pass: Pass) {
    && (forall i, j :: 0 <= i < j < |pass.colors| ==> pass.colors[i].resource != pass.colors[j].resource)
    && (pass.depth.Some? ==> forall i :: 0 <= i < |pass.colors| ==> pass.colors[i].resource != pass.depth.value.resource)
  }

  /** Some attachment, of colour or of depth, is the resource. */
  ghost predicate IsAttachedAnywhere(pass: Pass, r: nat) {
    || (exists k :: 0 <= k < |pass.colors| && pass.colors[k].resource == r)
    || (pass.depth.Some? && pass.depth.value.resource == r)
  }

  lemma UsesOnceMeans(pass: Pass)
    ensures UsesOnce(pass) <==>
      forall i, j :: 0 <= i < j < |pass.Uses()| ==> pass.Uses()[i].resource != pass.Uses()[j].resource
  {
    var n, uses := |pass.readUses|, pass.Uses();
    assert forall i :: 0 <= i < n ==> pass.readUses[i] == uses[i];
    assert forall j :: 0 <= j < |pass.writeUses| ==> pass.writeUses[j] == uses[n + j];
    assert forall i :: 0 <= i < |uses| ==> uses[i] == if i < n then pass.readUses[i] else pass.writeUses[i - n];
  }

  lemma AttachesOnceMeans(pass: Pass)
    ensures AttachesOnce(pass) <==>
      forall i, j :: 0 <= i < j < |pass.Attachments()| ==> pass.Attachments()[i].resource != pass.Attachments()[j].resource
  {
    var n, all := |pass.colors|, pass.Attachments();
    assert forall i :: 0 <= i < n ==> pass.colors[i] == all[i];
    assert pass.depth.Some? ==> |all| == n + 1 && all[n] == pass.depth.value;
    assert pass.depth.None? ==> all == pass.colors;
  }

  lemma ImagesMean(kind: ResourceKind)
    ensures kind != BUFFER <==> kind in {IMAGE, SWAPCHAIN}
  {
    assert kind.IMAGE? || kind.BUFFER? || kind.SWAPCHAIN?;
  }

  lemma AttachedMeans(pass: Pass, resources: seq<Resource>, i: nat)
    requires i < |pass.Attachments()|
    ensures var a := pass.Attachments()[i];
      (a.resource < |resources| && resources[a.resource].kind != BUFFER && pass.WriteOf(i) in pass.writeUses) <==>
      IsAttached(pass, resources, a, if i < |pass.colors| then COLOR_ATTACHMENT_WRITE else DEPTH_STENCIL_WRITE)
  {
    var a := pass.Attachments()[i];
    if a.resource < |resources| { ImagesMean(resources[a.resource].kind); }
  }

  /**
   * A pass is well declared exactly when it reads known resources with reading usages and writes known ones with
   * attachment usages, uses none twice, attaches images only, none twice, each written with the usage of its
   * attachment, and writes nothing that it does not attach.
   */
  lemma DeclaredExactly(pass: Pass, resources: seq<Resource>)
    ensures pass.Valid(resources) <==>
      && (forall i :: 0 <= i < |pass.readUses| ==>
            && pass.readUses[i].resource < |resources|
            && pass.readUses[i].usage in {SAMPLED_READ, VERTEX_READ, INDEX_READ, UNIFORM_READ, TRANSFER_SOURCE})
      && (forall i :: 0 <= i < |pass.writeUses| ==>
            && pass.writeUses[i].resource < |resources|
            && pass.writeUses[i].usage in {COLOR_ATTACHMENT_WRITE, DEPTH_STENCIL_WRITE})
      && UsesOnce(pass) && AttachesOnce(pass)
      && (forall i :: 0 <= i < |pass.colors| ==> IsAttached(pass, resources, pass.colors[i], COLOR_ATTACHMENT_WRITE))
      && (pass.depth.Some? ==> IsAttached(pass, resources, pass.depth.value, DEPTH_STENCIL_WRITE))
      && forall i :: 0 <= i < |pass.writeUses| ==>
           IsAttachedAnywhere(pass, pass.writeUses[i].resource)
  {
    hide UsesOnce, AttachesOnce, IsAttached, IsAttachedAnywhere;
    UsesMean(pass, resources);
    AttachmentsMean(pass, resources);
  }

  lemma UsesMean(pass: Pass, resources: seq<Resource>)
    ensures pass.ValidUses(resources) <==>
      && (forall i :: 0 <= i < |pass.readUses| ==>
            && pass.readUses[i].resource < |resources|
            && pass.readUses[i].usage in {SAMPLED_READ, VERTEX_READ, INDEX_READ, UNIFORM_READ, TRANSFER_SOURCE})
      && (forall i :: 0 <= i < |pass.writeUses| ==>
            && pass.writeUses[i].resource < |resources|
            && pass.writeUses[i].usage in {COLOR_ATTACHMENT_WRITE, DEPTH_STENCIL_WRITE})
      && UsesOnce(pass)
  {
    hide UsesOnce;
    UsesOnceMeans(pass);
    DeclaredUses(pass, resources);
  }

  lemma AttachmentsMean(pass: Pass, resources: seq<Resource>)
    ensures pass.ValidAttachments(resources) <==>
      && AttachesOnce(pass)
      && (forall i :: 0 <= i < |pass.colors| ==> IsAttached(pass, resources, pass.colors[i], COLOR_ATTACHMENT_WRITE))
      && (pass.depth.Some? ==> IsAttached(pass, resources, pass.depth.value, DEPTH_STENCIL_WRITE))
      && forall i :: 0 <= i < |pass.writeUses| ==>
           IsAttachedAnywhere(pass, pass.writeUses[i].resource)
  {
    hide AttachesOnce, IsAttached, IsAttachedAnywhere;
    AttachesOnceMeans(pass);
    DeclaredAttachments(pass, resources);
    forall i | 0 <= i < |pass.writeUses|
      ensures pass.Attaches(pass.writeUses[i].resource) <==>
        IsAttachedAnywhere(pass, pass.writeUses[i].resource)
    {
      AttachesMeans(pass, pass.writeUses[i].resource);
    }
  }

  lemma AttachesMeans(pass: Pass, r: nat)
    ensures pass.Attaches(r) <==> IsAttachedAnywhere(pass, r)
  {
    var n, all := |pass.colors|, pass.Attachments();
    assert forall i :: 0 <= i < n ==> pass.colors[i] == all[i];
    assert pass.depth.Some? ==> |all| == n + 1 && all[n] == pass.depth.value;
    assert pass.depth.None? ==> all == pass.colors;
  }

  lemma DeclaredUses(pass: Pass, resources: seq<Resource>)
    ensures (forall i :: 0 <= i < |pass.Uses()| ==> pass.Uses()[i].resource < |resources|) <==>
      && (forall i :: 0 <= i < |pass.readUses| ==> pass.readUses[i].resource < |resources|)
      && (forall i :: 0 <= i < |pass.writeUses| ==> pass.writeUses[i].resource < |resources|)
  {
    var n, uses := |pass.readUses|, pass.Uses();
    assert forall i :: 0 <= i < n ==> pass.readUses[i] == uses[i];
    assert forall j :: 0 <= j < |pass.writeUses| ==> pass.writeUses[j] == uses[n + j];
    assert forall i :: 0 <= i < |uses| ==> uses[i] == if i < n then pass.readUses[i] else pass.writeUses[i - n];
  }

  lemma DeclaredAttachments(pass: Pass, resources: seq<Resource>)
    ensures (forall i :: 0 <= i < |pass.Attachments()| ==>
               && pass.Attachments()[i].resource < |resources|
               && resources[pass.Attachments()[i].resource].kind != BUFFER
               && pass.WriteOf(i) in pass.writeUses) <==>
      && (forall i :: 0 <= i < |pass.colors| ==> IsAttached(pass, resources, pass.colors[i], COLOR_ATTACHMENT_WRITE))
      && (pass.depth.Some? ==> IsAttached(pass, resources, pass.depth.value, DEPTH_STENCIL_WRITE))
  {
    var n, all := |pass.colors|, pass.Attachments();
    assert forall i :: 0 <= i < n ==> pass.colors[i] == all[i];
    assert pass.depth.Some? ==> |all| == n + 1 && all[n] == pass.depth.value;
    assert pass.depth.None? ==> all == pass.colors;
    forall i | 0 <= i < |all|
      ensures (all[i].resource < |resources| && resources[all[i].resource].kind != BUFFER && pass.WriteOf(i) in pass.writeUses)
        <==> IsAttached(pass, resources, all[i], if i < n then COLOR_ATTACHMENT_WRITE else DEPTH_STENCIL_WRITE)
    {
      AttachedMeans(pass, resources, i);
    }
    hide IsAttached;
  }
}

// The defined-contents analysis of the render graph compiler, checked against what
// happens to the texels of each resource.
module RenderGraphContents {
  import opened Wrappers
  import opened Reordering
  import opened TopologicalOrder
  import opened RenderGraphSpec

  datatype CompileError =
    | INVALID_DECLARATION
    | READ_BEFORE_PRODUCE
    | LOAD_BEFORE_PRODUCE
    | CYCLE
    | UNDEFINED_AT_END

  /** The pass with this index; an empty one outside the graph. */
  ghost function PassAt(passes: seq<Pass>, p: nat): Pass {
    if p < |passes| then passes[p] else Pass([], [], [], None)
  }

  // ------------------------------------------------------- the analysis

  ghost predicate AttachedAs(pass: Pass, r: nat, a: Attachment) {
    a in pass.Attachments() && a.resource == r
  }

  ghost predicate Loads(pass: Pass, r: nat) {
    exists a :: AttachedAs(pass, r, a) && a.load == LOAD
  }

  /** The pass looks at the old contents of r. */
  ghost predicate NeedsDefined(pass: Pass, r: nat) { pass.Reads(r) || Loads(pass, r) }

  predicate StoresDefined(a: Attachment, before: bool) {
    a.store == STORE && (a.load == CLEAR || (a.load == LOAD && before))
  }

  /** Whether the analysis takes r for defined after the pass. */
  ghost function DefinedAfter(pass: Pass, r: nat, before: bool): bool {
    if a :| AttachedAs(pass, r, a) then StoresDefined(a, before) else before
  }

  ghost function TrackDefined(passes: seq<Pass>): (nat, map<nat, bool>) -> map<nat, bool> {
    (p: nat, s: map<nat, bool>) =>
      map r | r in s :: DefinedAfter(PassAt(passes, p), r, s[r])
  }

  ghost predicate IsDefined(s: map<nat, bool>, r: nat) { r in s && s[r] }

  /** The first complaint about a pass: reads are looked at before attachment loads. */
  ghost function CheckPass(pass: Pass, s: map<nat, bool>): Option<CompileError> {
    if exists r :: pass.Reads(r) && !IsDefined(s, r) then Some(READ_BEFORE_PRODUCE)
    else if exists r :: Loads(pass, r) && !IsDefined(s, r) then Some(LOAD_BEFORE_PRODUCE)
    else None
  }

  ghost function FirstFailure(passes: seq<Pass>, order: seq<nat>, s: map<nat, bool>): Option<CompileError>
  {
    if order == [] then None
    else match CheckPass(PassAt(passes, order[0]), s)
      case Some(error) => Some(error)
      case None => FirstFailure(passes, order[1..], TrackDefined(passes)(order[0], s))
  }

  /** The analysis accepts: no pass is complained about and everything ends defined. */
  ghost predicate Accepts(passes: seq<Pass>, order: seq<nat>, s: map<nat, bool>)
  {
    && FirstFailure(passes, order, s) == None
    && forall r :: r in s ==> IsDefined(Run(TrackDefined(passes), order, s), r)
  }

  /** The same verdict, said of every pass at once. */
  ghost predicate EveryPassAccepted(passes: seq<Pass>, order: seq<nat>, s: map<nat, bool>)
  {
    forall k :: 0 <= k < |order| ==> CheckPass(PassAt(passes, order[k]), Run(TrackDefined(passes), order[..k], s)) == None
  }

  lemma {:induction false} NoFailureIffEveryPassAccepted(passes: seq<Pass>, order: seq<nat>, s: map<nat, bool>)
    ensures FirstFailure(passes, order, s) == None <==> EveryPassAccepted(passes, order, s)
  {
    if order != [] {
      var step := TrackDefined(passes);
      var tail, next := order[1..], step(order[0], s);
      NoFailureIffEveryPassAccepted(passes, tail, next);
      assert Run(step, order[..0], s) == s;
      forall k | 0 <= k < |tail|
        ensures Run(step, order[..k + 1], s) == Run(step, tail[..k], next)
      {
        assert order[..k + 1] == [order[0]] + tail[..k];
        assert order[..k + 1][1..] == tail[..k];
      }
      if EveryPassAccepted(passes, order, s) {
        forall k | 0 <= k < |tail|
          ensures CheckPass(PassAt(passes, tail[k]), Run(step, tail[..k], next)) == None
        {
          assert CheckPass(PassAt(passes, order[k + 1]), Run(step, order[..k + 1], s)) == None;
        }
      }
      if FirstFailure(passes, order, s) == None {
        forall k | 0 <= k < |order|
          ensures CheckPass(PassAt(passes, order[k]), Run(step, order[..k], s)) == None
        {
          if k > 0 {
            assert CheckPass(PassAt(passes, tail[k - 1]), Run(step, tail[..k - 1], next)) == None;
          }
        }
      }
    }
  }

  // ----------------------------------- the verdict does not depend on the order

  lemma AttachedIsWritten(pass: Pass, resources: seq<Resource>, r: nat, a: Attachment)
    requires pass.Valid(resources) && AttachedAs(pass, r, a)
    ensures pass.Writes(r) && r < |resources|
    ensures forall b :: AttachedAs(pass, r, b) ==> a == b
  {
    var i :| 0 <= i < |pass.Attachments()| && pass.Attachments()[i] == a;
    assert pass.WriteOf(i) in pass.writeUses;
    var j :| 0 <= j < |pass.writeUses| && pass.writeUses[j] == pass.WriteOf(i);
    assert pass.writeUses[j].resource == r;
    forall b | AttachedAs(pass, r, b)
      ensures a == b
    {
      var k :| 0 <= k < |pass.Attachments()| && pass.Attachments()[k] == b;
      assert k == i;
    }
  }

  lemma UnwrittenKeepsVerdict(pass: Pass, resources: seq<Resource>, r: nat, before: bool)
    requires pass.Valid(resources) && !pass.Writes(r)
    ensures DefinedAfter(pass, r, before) == before
  {
    forall a
      ensures !AttachedAs(pass, r, a)
    {
      if AttachedAs(pass, r, a) { AttachedIsWritten(pass, resources, r, a); }
    }
  }

  lemma TrackDefinedConfined(passes: seq<Pass>, resources: seq<Resource>)
    requires AllValid(passes, resources)
    ensures AllConfined(TrackDefined(passes), PassFootprint(passes))
  {
    var act, foot := TrackDefined(passes), PassFootprint(passes);
    forall p: nat
      ensures Confined(act, p, foot(p))
    {
      forall s
        ensures KeepsRest(act, p, foot(p), s)
      {
        forall r | r in s && r !in foot(p).outputs
          ensures act(p, s)[r] == s[r]
        {
          UnwrittenKeepsVerdict(PassAt(passes, p), resources, r, s[r]);
        }
      }
    }
  }

  lemma SeenDecidesCheck(passes: seq<Pass>, resources: seq<Resource>, p: nat, s: map<nat, bool>, t: map<nat, bool>)
    requires AllValid(passes, resources) && p < |passes|
    requires Seen(PassFootprint(passes))(p, s) == Seen(PassFootprint(passes))(p, t)
    ensures CheckPass(passes[p], s) == CheckPass(passes[p], t)
  {
    var pass := passes[p];
    forall r: nat | NeedsDefined(pass, r)
      ensures IsDefined(s, r) == IsDefined(t, r)
    {
      if a :| AttachedAs(pass, r, a) { AttachedIsWritten(pass, resources, r, a); }
      assert r in PassFootprint(passes)(p).All();
      assert r in s <==> r in Seen(PassFootprint(passes))(p, s);
      assert r in t <==> r in Seen(PassFootprint(passes))(p, t);
    }
  }

  /** Any two orders that respect the edges get the same verdict. */
  lemma VerdictIndependentOfOrder(
      passes: seq<Pass>, resources: seq<Resource>, dependencies: seq<Edge>, edges: set<Edge>,
      p: seq<nat>, q: seq<nat>, s: map<nat, bool>)
    requires AllValid(passes, resources) && IsEdgeSet(passes, dependencies, edges)
    requires IsTopologicalOrder(p, Below(|passes|), edges) && IsTopologicalOrder(q, Below(|passes|), edges)
    ensures Accepts(passes, p, s) <==> Accepts(passes, q, s)
  {
    var step, foot := TrackDefined(passes), PassFootprint(passes);
    TrackDefinedConfined(passes, resources);
    OrderKeepsMeaning(passes, dependencies, edges, p, step, s);
    OrderKeepsMeaning(passes, dependencies, edges, q, step, s);
    NoFailureIffEveryPassAccepted(passes, p, s);
    NoFailureIffEveryPassAccepted(passes, q, s);
    SameVerdictOneWay(passes, resources, p, q, s);
    SameVerdictOneWay(passes, resources, q, p, s);
  }

  /** Every pass sees the tracked contents it would see in declaration order. */
  ghost predicate SeesWhatItDeclares(passes: seq<Pass>, order: seq<nat>, s: map<nat, bool>) {
    forall k :: 0 <= k < |order| ==> (
      && order[k] < |passes|
      && Seen(PassFootprint(passes))(order[k], Run(TrackDefined(passes), order[..k], s))
         == Seen(PassFootprint(passes))(order[k], Run(TrackDefined(passes), Counting(0, |passes|)[..order[k]], s)))
  }

  lemma SameVerdictOneWay(passes: seq<Pass>, resources: seq<Resource>, p: seq<nat>, q: seq<nat>, s: map<nat, bool>)
    requires AllValid(passes, resources)
    requires forall x :: x in q ==> x in p
    requires SeesWhatItDeclares(passes, p, s) && SeesWhatItDeclares(passes, q, s)
    ensures EveryPassAccepted(passes, p, s) ==> EveryPassAccepted(passes, q, s)
  {
    if EveryPassAccepted(passes, p, s) {
      var step := TrackDefined(passes);
      forall k | 0 <= k < |q|
        ensures CheckPass(PassAt(passes, q[k]), Run(step, q[..k], s)) == None
      {
        assert q[k] in q;
        var i :| 0 <= i < |p| && p[i] == q[k];
        SeenDecidesCheck(passes, resources, q[k], Run(step, p[..i], s), Run(step, q[..k], s));
      }
    }
  }

  // ------------------------------------------------ what the texels go through

  ghost predicate AllTexelsDefined(texels: seq<bool>) {
    forall i :: 0 <= i < |texels| ==> texels[i]
  }

  function AllTexels(count: nat, defined: bool): seq<bool> { seq(count, i requires 0 <= i < count => defined) }

  /** The load policy prepares the texels, the draw defines the ones it covers, the
      store policy keeps them or leaves nothing that may be relied on. */
  function TexelsAfter(a: Attachment, before: seq<bool>, covered: set<nat>): seq<bool> {
    var loaded := match a.load
      case LOAD => before
      case CLEAR => AllTexels(|before|, true)
      case DISCARD_LOAD => AllTexels(|before|, false);
    var drawn := seq(|before|, i requires 0 <= i < |before| => loaded[i] || i in covered);
    if a.store == STORE then drawn else AllTexels(|before|, false)
  }

  ghost function TexelsAfterPass(pass: Pass, r: nat, before: seq<bool>, covered: set<nat>): seq<bool> {
    if a :| AttachedAs(pass, r, a) then TexelsAfter(a, before, covered) else before
  }

  ghost predicate FullyDefined(s: map<nat, seq<bool>>, r: nat) { r in s && AllTexelsDefined(s[r]) }

  /** Runs a pass whose draws cover the given texels of each attachment. */
  ghost function Render(passes: seq<Pass>, cover: (nat, nat) -> set<nat>): (nat, map<nat, seq<bool>>) -> map<nat, seq<bool>> {
    (p: nat, s: map<nat, seq<bool>>) =>
      map r | r in s :: TexelsAfterPass(PassAt(passes, p), r, s[r], cover(p, r))
  }

  ghost predicate SafeRun(passes: seq<Pass>, order: seq<nat>, cover: (nat, nat) -> set<nat>, s: map<nat, seq<bool>>)
  {
    && (forall k, r :: 0 <= k < |order| && NeedsDefined(PassAt(passes, order[k]), r) && r in s ==>
          FullyDefined(Run(Render(passes, cover), order[..k], s), r))
    && (forall r :: r in s ==> FullyDefined(Run(Render(passes, cover), order, s), r))
  }

  /** The analysis never takes a resource for defined that is not. */
  ghost predicate Sound(tracked: map<nat, bool>, texels: map<nat, seq<bool>>) {
    tracked.Keys == texels.Keys && forall r :: r in tracked && tracked[r] ==> AllTexelsDefined(texels[r])
  }

  /** It is exact when no draw covers anything. */
  ghost predicate Exact(tracked: map<nat, bool>, texels: map<nat, seq<bool>>) {
    && tracked.Keys == texels.Keys
    && forall r :: r in tracked ==> |texels[r]| > 0 && tracked[r] == AllTexelsDefined(texels[r])
  }

  const NO_COVER: (nat, nat) -> set<nat> := (p: nat, r: nat) => {}

  lemma ExactStep(a: Attachment, before: bool, texels: seq<bool>, covered: set<nat>)
    requires |texels| > 0
    ensures |TexelsAfter(a, texels, covered)| == |texels|
    ensures (before ==> AllTexelsDefined(texels)) && StoresDefined(a, before)
        ==> AllTexelsDefined(TexelsAfter(a, texels, covered))
    ensures before == AllTexelsDefined(texels) && covered == {}
        ==> StoresDefined(a, before) == AllTexelsDefined(TexelsAfter(a, texels, covered))
  {
    var after := TexelsAfter(a, texels, covered);
    if covered == {} && !StoresDefined(a, before) && before == AllTexelsDefined(texels) {
      if a.store == STORE && a.load == LOAD {
        var i :| 0 <= i < |texels| && !texels[i];
        assert !after[i];
      } else {
        assert !after[0];
      }
    }
  }

  ghost predicate SameShape(s: map<nat, bool>, texels: map<nat, seq<bool>>) {
    s.Keys == texels.Keys && forall r :: r in s ==> |texels[r]| > 0
  }

  lemma FollowsOneResource(
      pass: Pass, resources: seq<Resource>, r: nat, before: bool, texels: seq<bool>, covered: set<nat>, after: seq<bool>)
    requires pass.Valid(resources) && |texels| > 0 && after == TexelsAfterPass(pass, r, texels, covered)
    ensures |after| == |texels|
    ensures (before ==> AllTexelsDefined(texels)) && DefinedAfter(pass, r, before) ==> AllTexelsDefined(after)
    ensures before == AllTexelsDefined(texels) && covered == {}
        ==> DefinedAfter(pass, r, before) == AllTexelsDefined(after)
  {
    if a :| AttachedAs(pass, r, a) {
      AttachedIsWritten(pass, resources, r, a);
      ExactStep(a, before, texels, covered);
    }
  }

  lemma FollowsOnePass(
      passes: seq<Pass>, resources: seq<Resource>, p: nat, cover: (nat, nat) -> set<nat>,
      s: map<nat, bool>, texels: map<nat, seq<bool>>)
    requires AllValid(passes, resources) && SameShape(s, texels)
    ensures SameShape(TrackDefined(passes)(p, s), Render(passes, cover)(p, texels))
    ensures Sound(s, texels) ==> Sound(TrackDefined(passes)(p, s), Render(passes, cover)(p, texels))
    ensures Exact(s, texels) && cover == NO_COVER
        ==> Exact(TrackDefined(passes)(p, s), Render(passes, cover)(p, texels))
  {
    var s', texels' := TrackDefined(passes)(p, s), Render(passes, cover)(p, texels);
    forall r | r in s
      ensures r in s' && r in texels' && |texels'[r]| > 0
      ensures (s[r] ==> AllTexelsDefined(texels[r])) && s'[r] ==> AllTexelsDefined(texels'[r])
      ensures s[r] == AllTexelsDefined(texels[r]) && cover == NO_COVER ==> s'[r] == AllTexelsDefined(texels'[r])
    {
      FollowsOneResource(PassAt(passes, p), resources, r, s[r], texels[r], cover(p, r), texels'[r]);
    }
  }

  lemma {:induction false} AnalysisFollowsTexels(
      passes: seq<Pass>, resources: seq<Resource>, order: seq<nat>, cover: (nat, nat) -> set<nat>,
      s: map<nat, bool>, texels: map<nat, seq<bool>>)
    requires AllValid(passes, resources)
    requires SameShape(s, texels)
    ensures Sound(s, texels) ==>
      Sound(Run(TrackDefined(passes), order, s), Run(Render(passes, cover), order, texels))
    ensures Exact(s, texels) && cover == NO_COVER ==>
      Exact(Run(TrackDefined(passes), order, s), Run(Render(passes, cover), order, texels))
  {
    if order != [] {
      var p := order[0];
      FollowsOnePass(passes, resources, p, cover, s, texels);
      AnalysisFollowsTexels(passes, resources, order[1..], cover,
                            TrackDefined(passes)(p, s), Render(passes, cover)(p, texels));
    }
  }

  lemma NeededIsResource(pass: Pass, resources: seq<Resource>, r: nat)
    requires pass.Valid(resources) && NeedsDefined(pass, r)
    ensures r < |resources|
  {
    if pass.Reads(r) {
      var i :| 0 <= i < |pass.readUses| && pass.readUses[i].resource == r;
      assert pass.Uses()[i].resource == r;
    } else {
      var a :| AttachedAs(pass, r, a) && a.load == LOAD;
      AttachedIsWritten(pass, resources, r, a);
    }
  }

  /** The analysis accepts an order exactly when, whatever part of its attachments each
      pass covers, no read and no LOAD touches an undefined texel and every resource ends
      with all its texels defined. */
  lemma AcceptsIffEveryRunIsSafe(
      passes: seq<Pass>, resources: seq<Resource>, order: seq<nat>, s: map<nat, bool>, texels: map<nat, seq<bool>>)
    requires AllValid(passes, resources)
    requires Exact(s, texels) && forall r: nat :: r < |resources| ==> r in s
    ensures Accepts(passes, order, s) <==> forall cover :: SafeRun(passes, order, cover, texels)
  {
    NoFailureIffEveryPassAccepted(passes, order, s);
    if Accepts(passes, order, s) {
      forall cover
        ensures SafeRun(passes, order, cover, texels)
      {
        AcceptedRunIsSafe(passes, resources, order, cover, s, texels);
      }
    }
    if SafeRun(passes, order, NO_COVER, texels) {
      BareRunIsExact(passes, resources, order, s, texels);
    }
  }

  lemma AcceptedPassIsSafe(
      passes: seq<Pass>, resources: seq<Resource>, order: seq<nat>, k: nat, r: nat, cover: (nat, nat) -> set<nat>,
      s: map<nat, bool>, texels: map<nat, seq<bool>>)
    requires AllValid(passes, resources)
    requires SameShape(s, texels) && Sound(s, texels) && EveryPassAccepted(passes, order, s)
    requires k < |order| && NeedsDefined(PassAt(passes, order[k]), r)
    ensures FullyDefined(Run(Render(passes, cover), order[..k], texels), r)
  {
    var tracked, now := Run(TrackDefined(passes), order[..k], s), Run(Render(passes, cover), order[..k], texels);
    AnalysisFollowsTexels(passes, resources, order[..k], cover, s, texels);
    assert CheckPass(PassAt(passes, order[k]), tracked) == None;
    assert IsDefined(tracked, r);
  }

  lemma AcceptedRunIsSafe(
      passes: seq<Pass>, resources: seq<Resource>, order: seq<nat>, cover: (nat, nat) -> set<nat>,
      s: map<nat, bool>, texels: map<nat, seq<bool>>)
    requires AllValid(passes, resources)
    requires SameShape(s, texels) && Sound(s, texels) && EveryPassAccepted(passes, order, s)
    requires Accepts(passes, order, s)
    ensures SafeRun(passes, order, cover, texels)
  {
    forall k, r: nat | 0 <= k < |order| && NeedsDefined(PassAt(passes, order[k]), r) && r in texels
      ensures FullyDefined(Run(Render(passes, cover), order[..k], texels), r)
    {
      AcceptedPassIsSafe(passes, resources, order, k, r, cover, s, texels);
    }
    var tracked, now := Run(TrackDefined(passes), order, s), Run(Render(passes, cover), order, texels);
    AnalysisFollowsTexels(passes, resources, order, cover, s, texels);
    forall r | r in texels
      ensures FullyDefined(now, r)
    {
      assert IsDefined(tracked, r);
    }
  }

  lemma BarePassIsExact(
      passes: seq<Pass>, resources: seq<Resource>, order: seq<nat>, k: nat, r: nat,
      s: map<nat, bool>, texels: map<nat, seq<bool>>)
    requires AllValid(passes, resources)
    requires SameShape(s, texels) && Exact(s, texels) && r in s
    requires SafeRun(passes, order, NO_COVER, texels)
    requires k < |order| && NeedsDefined(PassAt(passes, order[k]), r)
    ensures IsDefined(Run(TrackDefined(passes), order[..k], s), r)
  {
    AnalysisFollowsTexels(passes, resources, order[..k], NO_COVER, s, texels);
    assert FullyDefined(Run(Render(passes, NO_COVER), order[..k], texels), r);
  }

  lemma BareRunIsExact(
      passes: seq<Pass>, resources: seq<Resource>, order: seq<nat>, s: map<nat, bool>, texels: map<nat, seq<bool>>)
    requires AllValid(passes, resources)
    requires SameShape(s, texels) && Exact(s, texels) && forall r: nat :: r < |resources| ==> r in s
    requires SafeRun(passes, order, NO_COVER, texels)
    ensures EveryPassAccepted(passes, order, s)
    ensures forall r :: r in s ==> IsDefined(Run(TrackDefined(passes), order, s), r)
  {
    forall k | 0 <= k < |order|
      ensures CheckPass(PassAt(passes, order[k]), Run(TrackDefined(passes), order[..k], s)) == None
    {
      forall r: nat | NeedsDefined(PassAt(passes, order[k]), r)
        ensures IsDefined(Run(TrackDefined(passes), order[..k], s), r)
      {
        NeededIsResource(PassAt(passes, order[k]), resources, r);
        BarePassIsExact(passes, resources, order, k, r, s, texels);
      }
    }
    AnalysisFollowsTexels(passes, resources, order, NO_COVER, s, texels);
    forall r | r in s
      ensures IsDefined(Run(TrackDefined(passes), order, s), r)
    {
      assert FullyDefined(Run(Render(passes, NO_COVER), order, texels), r);
    }
  }
}

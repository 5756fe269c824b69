/** Equality and hashing of pipeline descriptors (graphics/graphics_pipeline.cpp). */
module PipelineKey {
  import opened Wrappers
  import opened Sorting
  import opened KeyedLists

  datatype VertexBinding = VertexBinding(binding: nat, stride: nat, inputRate: nat)

  datatype VertexAttribute = VertexAttribute(location: nat, binding: nat, format: nat, offset: nat)

  datatype VertexLayout = VertexLayout(bindings: seq<VertexBinding>, attributes: seq<VertexAttribute>)

  datatype Stage = VERTEX | FRAGMENT | COMPUTE

  datatype Artifact = Artifact(stage: Stage, words: seq<nat>)

  datatype Shader = Shader(resourceClass: string, resourceKey: string, entryPoint: string, artifact: Option<Artifact>)

  datatype MaterialBinding = MaterialBinding(binding: nat, kind: nat, visibility: nat, count: nat)

  datatype Blend = Blend(
    enabled: bool,
    sourceColor: nat,
    destinationColor: nat,
    colorOperation: nat,
    sourceAlpha: nat,
    destinationAlpha: nat,
    alphaOperation: nat,
    writeMask: nat)

  /** The parts of a descriptor that are compared and hashed field by field. */
  datatype FixedState = FixedState(
    pushConstantBytes: nat,
    materialBindings: seq<MaterialBinding>,
    topology: nat,
    polygonMode: nat,
    cullMode: nat,
    frontFace: nat,
    depthTest: bool,
    depthWrite: bool,
    depthCompare: nat,
    colorFormats: seq<nat>,
    blends: seq<Blend>,
    depthFormat: nat,
    samples: nat)

  datatype Descriptor = Descriptor(shaders: seq<Shader>, layout: VertexLayout, fixed: FixedState)

  function BindingKey(b: VertexBinding): nat { b.binding }

  function LocationKey(a: VertexAttribute): nat { a.location }

  // -------------------------------------------------------- vertex layouts

  predicate IsCanonicalLayout(l: VertexLayout) {
    UniqueKeysIn(BindingKey, l.bindings) && UniqueKeysIn(LocationKey, l.attributes)
  }

  predicate LayoutsEqual(l: VertexLayout, r: VertexLayout) {
    if |l.bindings| != |r.bindings| || |l.attributes| != |r.attributes| then false
    else if IsCanonicalLayout(l) != IsCanonicalLayout(r) then false
    else if !IsCanonicalLayout(l) then l == r
    else SameByKey(BindingKey, l.bindings, r.bindings) && SameByKey(LocationKey, l.attributes, r.attributes)
  }

  ghost predicate RearrangedLayout(l: VertexLayout, r: VertexLayout) {
    multiset(l.bindings) == multiset(r.bindings) && multiset(l.attributes) == multiset(r.attributes)
  }

  /** Layouts are equal when they are the same, or when both have unique keys and one rearranges the other. */
  lemma LayoutsEqualMeans(l: VertexLayout, r: VertexLayout)
    ensures LayoutsEqual(l, r) <==> l == r || (IsCanonicalLayout(l) && RearrangedLayout(l, r))
  {
    if IsCanonicalLayout(l) && (RearrangedLayout(l, r) || IsCanonicalLayout(r)) {
      if RearrangedLayout(l, r) {
        UniqueInAnyOrder(BindingKey, l.bindings, r.bindings);
        UniqueInAnyOrder(LocationKey, l.attributes, r.attributes);
        SameMembers(l.bindings, r.bindings);
        SameMembers(l.attributes, r.attributes);
      }
      SameByKeyIsRearranged(BindingKey, l.bindings, r.bindings);
      SameByKeyIsRearranged(LocationKey, l.attributes, r.attributes);
    }
  }

  // ---------------------------------------------------------- shader stages

  datatype Stages = Stages(vertex: Option<Shader>, fragment: Option<Shader>, canonical: bool)

  /** Sorts the shaders of a descriptor into stages; a missing artifact, a second shader of a stage, or another stage ends it. */
  method GetCanonicalStages(shaders: seq<Shader>) returns (s: Stages)
    ensures s.canonical <==> IsCanonicalShaders(shaders)
    ensures s.canonical ==> s.vertex == FindByKey(StageKey, shaders, 1) && s.fragment == FindByKey(StageKey, shaders, 2)
  {
    s := Stages(None, None, true);
    for k := 0 to |shaders|
      invariant s.canonical && IsCanonicalShaders(shaders[..k])
      invariant s.vertex == FindByKey(StageKey, shaders[..k], 1) && s.fragment == FindByKey(StageKey, shaders[..k], 2)
    {
      var shader := shaders[k];
      OneMoreShader(shaders, k);
      if shader.artifact.None? || StageKey(shader) == 0 {
        NotCanonicalPrefix(shaders, k + 1);
        s := s.(canonical := false);
        return;
      }
      if shader.artifact.value.stage == VERTEX {
        if s.vertex.Some? {
          NotCanonicalPrefix(shaders, k + 1);
          s := s.(canonical := false);
          return;
        }
        s := s.(vertex := Some(shader));
      } else {
        if s.fragment.Some? {
          NotCanonicalPrefix(shaders, k + 1);
          s := s.(canonical := false);
          return;
        }
        s := s.(fragment := Some(shader));
      }
    }
    assert shaders[..|shaders|] == shaders;
  }

  /** 1 and 2 for the two graphics stages, 0 for anything else. */
  function StageKey(s: Shader): nat {
    if s.artifact.None? then 0
    else match s.artifact.value.stage case VERTEX => 1 case FRAGMENT => 2 case COMPUTE => 0
  }

  /** At most one shader of each graphics stage, and nothing else. */
  predicate IsCanonicalShaders(shaders: seq<Shader>) {
    UniqueKeysIn(StageKey, shaders) && forall i :: 0 <= i < |shaders| ==> StageKey(shaders[i]) != 0
  }

  lemma NotCanonicalPrefix(shaders: seq<Shader>, k: nat)
    requires k <= |shaders| && !IsCanonicalShaders(shaders[..k])
    ensures !IsCanonicalShaders(shaders)
  {
    assert forall i :: 0 <= i < k ==> shaders[..k][i] == shaders[i];
  }

  lemma {:induction false} FindInLonger<T>(key: T -> nat, xs: seq<T>, x: T, k: nat)
    ensures FindByKey(key, xs + [x], k) ==
            if FindByKey(key, xs, k).Some? then FindByKey(key, xs, k) else if key(x) == k then Some(x) else None
  {
    if xs == [] {
      assert xs + [x] == [x];
      assert [x][1..] == [];
    } else {
      assert (xs + [x])[1..] == xs[1..] + [x];
      FindInLonger(key, xs[1..], x, k);
    }
  }

  lemma OneMoreShader(shaders: seq<Shader>, k: nat)
    requires k < |shaders|
    ensures IsCanonicalShaders(shaders[..k + 1]) <==>
            IsCanonicalShaders(shaders[..k]) && StageKey(shaders[k]) != 0 &&
            FindByKey(StageKey, shaders[..k], StageKey(shaders[k])).None?
    ensures FindByKey(StageKey, shaders[..k + 1], 1) ==
            if FindByKey(StageKey, shaders[..k], 1).Some? then FindByKey(StageKey, shaders[..k], 1)
            else if StageKey(shaders[k]) == 1 then Some(shaders[k]) else None
    ensures FindByKey(StageKey, shaders[..k + 1], 2) ==
            if FindByKey(StageKey, shaders[..k], 2).Some? then FindByKey(StageKey, shaders[..k], 2)
            else if StageKey(shaders[k]) == 2 then Some(shaders[k]) else None
  {
    hide FindByKey, StageKey;
    var p, q := shaders[..k], shaders[..k + 1];
    assert q == p + [shaders[k]];
    FindInLonger(StageKey, p, shaders[k], 1);
    FindInLonger(StageKey, p, shaders[k], 2);
    FoundIsThere(StageKey, p, StageKey(shaders[k]));
    assert forall i :: 0 <= i < k ==> q[i] == p[i] && p[i] in p;
    if FindByKey(StageKey, p, StageKey(shaders[k])).Some? {
      var x := FindByKey(StageKey, p, StageKey(shaders[k])).value;
      var i :| 0 <= i < k && p[i] == x;
      assert StageKey(q[i]) == StageKey(q[k]);
    }
  }

  predicate ShadersEqual(l: seq<Shader>, r: seq<Shader>) {
    if IsCanonicalShaders(l) != IsCanonicalShaders(r) then false
    else if !IsCanonicalShaders(l) then l == r
    else FindByKey(StageKey, l, 1) == FindByKey(StageKey, r, 1) && FindByKey(StageKey, l, 2) == FindByKey(StageKey, r, 2)
  }

  lemma StagesDetermineShaders(l: seq<Shader>, r: seq<Shader>)
    requires IsCanonicalShaders(l) && IsCanonicalShaders(r) && ShadersEqual(l, r)
    ensures forall x :: x in l ==> x in r
  {
    forall x | x in l
      ensures x in r
    {
      var i :| 0 <= i < |l| && l[i] == x;
      FindsUnique(StageKey, l, x);
      FoundIsThere(StageKey, r, StageKey(x));
    }
  }

  /** There are only two stages to tell three shaders apart. */
  lemma ThreeShadersClash(l: seq<Shader>)
    requires |l| > 2 && forall i :: 0 <= i < |l| ==> StageKey(l[i]) != 0
    ensures !UniqueKeysIn(StageKey, l)
  {
    assert StageKey(l[0]) == StageKey(l[1]) || StageKey(l[0]) == StageKey(l[2]) || StageKey(l[1]) == StageKey(l[2]);
  }

  lemma AtMostTwoShaders(l: seq<Shader>)
    requires IsCanonicalShaders(l)
    ensures |l| <= 2
  {
    if |l| > 2 {
      ThreeShadersClash(l);
    }
  }

  /** A canonical list has just its vertex and its fragment shader. */
  lemma CanonicalLength(l: seq<Shader>)
    requires IsCanonicalShaders(l)
    ensures |l| == (if FindByKey(StageKey, l, 1).Some? then 1 else 0) + if FindByKey(StageKey, l, 2).Some? then 1 else 0
  {
    AtMostTwoShaders(l);
    FoundIsThere(StageKey, l, 1);
    FoundIsThere(StageKey, l, 2);
    assert |l| > 0 ==> l[0] in l && (StageKey(l[0]) == 1 || StageKey(l[0]) == 2);
    assert |l| > 1 ==> l[1] in l && StageKey(l[0]) != StageKey(l[1]);
  }

  /** Shader lists are equal when they are the same, or when both are canonical and one rearranges the other. */
  lemma ShadersEqualMeans(l: seq<Shader>, r: seq<Shader>)
    ensures ShadersEqual(l, r) <==> l == r || (IsCanonicalShaders(l) && multiset(l) == multiset(r))
  {
    if IsCanonicalShaders(l) && IsCanonicalShaders(r) && ShadersEqual(l, r) {
      StagesDetermineShaders(l, r);
      StagesDetermineShaders(r, l);
      CanonicalLength(l);
      CanonicalLength(r);
      IncludedIsRearranged(StageKey, l, r);
    }
    if IsCanonicalShaders(l) && multiset(l) == multiset(r) {
      UniqueInAnyOrder(StageKey, l, r);
      SameMembers(l, r);
      forall i | 0 <= i < |r|
        ensures StageKey(r[i]) != 0
      {
        assert r[i] in l;
        var j :| 0 <= j < |l| && l[j] == r[i];
      }
      SameFinds(l, r, 1);
      SameFinds(l, r, 2);
    }
  }

  lemma SameFinds(l: seq<Shader>, r: seq<Shader>, k: nat)
    requires UniqueKeysIn(StageKey, l) && UniqueKeysIn(StageKey, r) && multiset(l) == multiset(r)
    ensures FindByKey(StageKey, l, k) == FindByKey(StageKey, r, k)
  {
    SameMembers(l, r);
    FoundIsThere(StageKey, l, k);
    FoundIsThere(StageKey, r, k);
    if FindByKey(StageKey, l, k).Some? {
      FindsUnique(StageKey, r, FindByKey(StageKey, l, k).value);
    }
  }

  // ------------------------------------------------------------ descriptors

  predicate DescriptorsEqual(l: Descriptor, r: Descriptor) {
    ShadersEqual(l.shaders, r.shaders) && l.fixed == r.fixed && LayoutsEqual(l.layout, r.layout)
  }

  /** Equality of descriptors is an equivalence relation. */
  lemma DescriptorEqualityIsEquivalence(a: Descriptor, b: Descriptor, c: Descriptor)
    ensures DescriptorsEqual(a, a)
    ensures DescriptorsEqual(a, b) ==> DescriptorsEqual(b, a)
    ensures DescriptorsEqual(a, b) && DescriptorsEqual(b, c) ==> DescriptorsEqual(a, c)
  {
    ShadersEqualMeans(a.shaders, a.shaders);
    ShadersEqualMeans(a.shaders, b.shaders);
    ShadersEqualMeans(b.shaders, a.shaders);
    ShadersEqualMeans(b.shaders, c.shaders);
    ShadersEqualMeans(a.shaders, c.shaders);
    LayoutsEqualMeans(a.layout, a.layout);
    LayoutsEqualMeans(a.layout, b.layout);
    LayoutsEqualMeans(b.layout, a.layout);
    LayoutsEqualMeans(b.layout, c.layout);
    LayoutsEqualMeans(a.layout, c.layout);
    RearrangedShaders(a.shaders, b.shaders);
    RearrangedCanonical(a.layout, b.layout);
    hide LayoutsEqual, ShadersEqual, IsCanonicalLayout, IsCanonicalShaders;
  }

  lemma RearrangedCanonical(l: VertexLayout, r: VertexLayout)
    ensures RearrangedLayout(l, r) ==> (IsCanonicalLayout(l) <==> IsCanonicalLayout(r))
  {
    if RearrangedLayout(l, r) {
      if IsCanonicalLayout(l) {
        UniqueInAnyOrder(BindingKey, l.bindings, r.bindings);
        UniqueInAnyOrder(LocationKey, l.attributes, r.attributes);
      }
      if IsCanonicalLayout(r) {
        UniqueInAnyOrder(BindingKey, r.bindings, l.bindings);
        UniqueInAnyOrder(LocationKey, r.attributes, l.attributes);
      }
    }
  }

  lemma RearrangedShaders(l: seq<Shader>, r: seq<Shader>)
    ensures multiset(l) == multiset(r) ==> (IsCanonicalShaders(l) <==> IsCanonicalShaders(r))
  {
    if multiset(l) == multiset(r) {
      ShadersEqualMeans(l, r);
      ShadersEqualMeans(r, l);
      if IsCanonicalShaders(l) {
        assert ShadersEqual(l, r);
      }
      if IsCanonicalShaders(r) {
        assert ShadersEqual(r, l);
      }
    }
  }

  /**
   * Listing bindings, attributes or shaders in another order gives an equal descriptor exactly when the part that
   * was rearranged has unique keys, or was not really rearranged.
   */
  lemma OrderIsIgnored(d: Descriptor, shaders: seq<Shader>, layout: VertexLayout)
    requires multiset(shaders) == multiset(d.shaders) && RearrangedLayout(d.layout, layout)
    ensures DescriptorsEqual(d, d.(shaders := shaders, layout := layout)) <==>
            (IsCanonicalShaders(d.shaders) || shaders == d.shaders) &&
            (IsCanonicalLayout(d.layout) || layout == d.layout)
  {
    ShadersEqualMeans(d.shaders, shaders);
    LayoutsEqualMeans(d.layout, layout);
  }

  // ---------------------------------------------------------------- hashing

  /** The accumulator takes in one number after another, by whatever mixing function. */
  function Fold(mix: (nat, nat) -> nat, h: nat, tokens: seq<nat>): nat
    decreases |tokens|
  {
    if tokens == [] then h else Fold(mix, mix(h, tokens[0]), tokens[1..])
  }

  lemma {:induction false} FoldConcat(mix: (nat, nat) -> nat, h: nat, a: seq<nat>, b: seq<nat>)
    ensures Fold(mix, h, a + b) == Fold(mix, Fold(mix, h, a), b)
    decreases |a|
  {
    if a == [] {
      assert a + b == b;
    } else {
      assert (a + b)[1..] == a[1..] + b;
      FoldConcat(mix, mix(h, a[0]), a[1..], b);
    }
  }

  function BindingTokens(b: VertexBinding): seq<nat> { [b.binding, b.stride, b.inputRate] }

  function AttributeTokens(a: VertexAttribute): seq<nat> { [a.location, a.binding, a.format, a.offset] }

  function StringTokens(s: string): seq<nat> {
    [|s|] + seq(|s|, k requires 0 <= k < |s| => s[k] as nat)
  }

  function StageToken(s: Stage): nat { match s case VERTEX => 0 case FRAGMENT => 1 case COMPUTE => 2 }

  function ShaderTokens(s: Shader): seq<nat> {
    StringTokens(s.resourceClass) + StringTokens(s.resourceKey) + StringTokens(s.entryPoint) +
    match s.artifact
    case None => [0]
    case Some(a) => [1, StageToken(a.stage), |a.words|] + a.words
  }

  function OptionalShaderTokens(s: Option<Shader>): seq<nat> {
    if s.None? then [0] else [1] + ShaderTokens(s.value)
  }

  function Join<T>(part: T -> seq<nat>, xs: seq<T>): seq<nat> {
    if xs == [] then [] else Join(part, xs[..|xs| - 1]) + part(xs[|xs| - 1])
  }

  ghost function SortedForm<T(!new)>(key: T -> nat, xs: seq<T>): (sorted: seq<T>)
    requires UniqueKeysIn(key, xs)
    ensures IsSortedForm(key, xs, sorted)
  {
    assert exists s :: IsSortedForm(key, xs, s) by {
      var s := SortedFormExists(key, xs);
    }
    var s :| IsSortedForm(key, xs, s);
    s
  }

  /** What hashing a layout takes in: a canonical layout by ascending binding and location, any other as it stands. */
  ghost function LayoutTokens(l: VertexLayout): seq<nat> {
    if IsCanonicalLayout(l) then
      [1] + [|l.bindings|] + Join(BindingTokens, SortedForm(BindingKey, l.bindings)) +
      [|l.attributes|] + Join(AttributeTokens, SortedForm(LocationKey, l.attributes))
    else
      [0] + [|l.bindings|] + Join(BindingTokens, l.bindings) + [|l.attributes|] + Join(AttributeTokens, l.attributes)
  }

  function MaterialTokens(m: MaterialBinding): seq<nat> { [m.binding, m.kind, m.visibility, m.count] }

  function Bit(b: bool): nat { if b then 1 else 0 }

  function BlendTokens(b: Blend): seq<nat> {
    [Bit(b.enabled), b.sourceColor, b.destinationColor, b.colorOperation, b.sourceAlpha, b.destinationAlpha,
     b.alphaOperation, b.writeMask]
  }

  function MaterialPart(f: FixedState): seq<nat> {
    [f.pushConstantBytes, |f.materialBindings|] + Join(MaterialTokens, f.materialBindings)
  }

  function RasterTokens(f: FixedState): seq<nat> {
    [f.topology, f.polygonMode, f.cullMode, f.frontFace, Bit(f.depthTest), Bit(f.depthWrite), f.depthCompare,
     |f.colorFormats|]
  }

  function StatePart(f: FixedState): seq<nat> {
    RasterTokens(f) + f.colorFormats + [|f.blends|] + Join(BlendTokens, f.blends) + [f.depthFormat, f.samples]
  }

  ghost function ShaderPart(shaders: seq<Shader>): seq<nat> {
    [if IsCanonicalShaders(shaders) then 1 else 0, |shaders|] +
    if IsCanonicalShaders(shaders)
    then OptionalShaderTokens(FindByKey(StageKey, shaders, 1)) + OptionalShaderTokens(FindByKey(StageKey, shaders, 2))
    else Join(ShaderTokens, shaders)
  }

  /** What hashing a descriptor takes in. */
  ghost function DescriptorTokens(d: Descriptor): seq<nat> {
    MaterialPart(d.fixed) + ShaderPart(d.shaders) + LayoutTokens(d.layout) + StatePart(d.fixed)
  }

  /** Equal layouts hash the same numbers in the same order. */
  lemma EqualLayoutsHashAlike(l: VertexLayout, r: VertexLayout)
    requires LayoutsEqual(l, r)
    ensures LayoutTokens(l) == LayoutTokens(r)
  {
    LayoutsEqualMeans(l, r);
    if IsCanonicalLayout(l) && RearrangedLayout(l, r) {
      RearrangedCanonical(l, r);
      SortedFormIsUnique(BindingKey, l.bindings, r.bindings, SortedForm(BindingKey, l.bindings),
                         SortedForm(BindingKey, r.bindings));
      SortedFormIsUnique(LocationKey, l.attributes, r.attributes, SortedForm(LocationKey, l.attributes),
                         SortedForm(LocationKey, r.attributes));
      SameMembers(l.bindings, r.bindings);
      SameMembers(l.attributes, r.attributes);
    }
  }

  lemma EqualDescriptorsSameTokens(l: Descriptor, r: Descriptor)
    requires DescriptorsEqual(l, r)
    ensures DescriptorTokens(l) == DescriptorTokens(r)
  {
    hide LayoutTokens, LayoutsEqual, MaterialPart, StatePart;
    EqualLayoutsHashAlike(l.layout, r.layout);
    ShadersEqualMeans(l.shaders, r.shaders);
    if multiset(l.shaders) == multiset(r.shaders) {
      SameMembers(l.shaders, r.shaders);
    }
  }

  /** Equal descriptors have the same hash, whatever the mixing function. */
  lemma EqualDescriptorsHashAlike(mix: (nat, nat) -> nat, h: nat, l: Descriptor, r: Descriptor)
    requires DescriptorsEqual(l, r)
    ensures Fold(mix, h, DescriptorTokens(l)) == Fold(mix, h, DescriptorTokens(r))
  {
    hide *;
    EqualDescriptorsSameTokens(l, r);
  }

  /** Takes the numbers of some elements in, one element after another. */
  method HashAll<T>(mix: (nat, nat) -> nat, start: nat, part: T -> seq<nat>, xs: seq<T>) returns (h: nat)
    ensures h == Fold(mix, start, Join(part, xs))
  {
    h := start;
    for k := 0 to |xs|
      invariant h == Fold(mix, start, Join(part, xs[..k]))
    {
      assert xs[..k + 1][..k] == xs[..k];
      FoldConcat(mix, start, Join(part, xs[..k]), part(xs[k]));
      h := HashTokens(mix, h, part(xs[k]));
    }
    assert xs[..|xs|] == xs;
  }

  method HashTokens(mix: (nat, nat) -> nat, start: nat, tokens: seq<nat>) returns (h: nat)
    ensures h == Fold(mix, start, tokens)
  {
    h := start;
    for k := 0 to |tokens|
      invariant Fold(mix, h, tokens[k..]) == Fold(mix, start, tokens)
    {
      assert tokens[k..][1..] == tokens[k + 1..];
      h := mix(h, tokens[k]);
    }
  }

  /** Takes the elements in by ascending key, each found by its rank. */
  method HashByRank<T(!new)>(mix: (nat, nat) -> nat, start: nat, key: T -> nat, part: T -> seq<nat>, xs: seq<T>)
    returns (h: nat)
    requires UniqueKeysIn(key, xs)
    ensures h == Fold(mix, start, Join(part, SortedForm(key, xs)))
  {
    ghost var sorted := SortedForm(key, xs);
    SameMembers(sorted, xs);
    h := start;
    for rank := 0 to |xs|
      invariant h == Fold(mix, start, Join(part, sorted[..rank]))
    {
      var found := FindByRank(key, xs, rank, sorted);
      assert sorted[..rank + 1][..rank] == sorted[..rank];
      FoldConcat(mix, start, Join(part, sorted[..rank]), part(sorted[rank]));
      h := HashTokens(mix, h, part(found.value));
    }
    assert sorted[..|xs|] == sorted;
  }

  method HashVertexLayout(mix: (nat, nat) -> nat, start: nat, l: VertexLayout) returns (h: nat)
    ensures h == Fold(mix, start, LayoutTokens(l))
  {
    hide Fold, Join, SortedForm;
    var canonical := IsCanonicalLayout(l);
    h := HashTokens(mix, start, [if canonical then 1 else 0]);
    h := HashTokens(mix, h, [|l.bindings|]);
    if canonical {
      h := HashByRank(mix, h, BindingKey, BindingTokens, l.bindings);
      h := HashTokens(mix, h, [|l.attributes|]);
      h := HashByRank(mix, h, LocationKey, AttributeTokens, l.attributes);
      FoldFive(mix, start, [1], [|l.bindings|], Join(BindingTokens, SortedForm(BindingKey, l.bindings)),
               [|l.attributes|], Join(AttributeTokens, SortedForm(LocationKey, l.attributes)));
    } else {
      h := HashAll(mix, h, BindingTokens, l.bindings);
      h := HashTokens(mix, h, [|l.attributes|]);
      h := HashAll(mix, h, AttributeTokens, l.attributes);
      FoldFive(mix, start, [0], [|l.bindings|], Join(BindingTokens, l.bindings), [|l.attributes|],
               Join(AttributeTokens, l.attributes));
    }
  }

  lemma FoldFive(mix: (nat, nat) -> nat, h: nat, a: seq<nat>, b: seq<nat>, c: seq<nat>, d: seq<nat>, e: seq<nat>)
    ensures Fold(mix, Fold(mix, Fold(mix, Fold(mix, Fold(mix, h, a), b), c), d), e) == Fold(mix, h, a + b + c + d + e)
  {
    FoldConcat(mix, h, a, b);
    FoldConcat(mix, h, a + b, c);
    FoldConcat(mix, h, a + b + c, d);
    FoldConcat(mix, h, a + b + c + d, e);
  }

  method HashMaterials(mix: (nat, nat) -> nat, start: nat, f: FixedState) returns (h: nat)
    ensures h == Fold(mix, start, MaterialPart(f))
  {
    hide Fold, Join;
    h := HashTokens(mix, start, [f.pushConstantBytes, |f.materialBindings|]);
    h := HashAll(mix, h, MaterialTokens, f.materialBindings);
    FoldConcat(mix, start, [f.pushConstantBytes, |f.materialBindings|], Join(MaterialTokens, f.materialBindings));
  }

  method HashState(mix: (nat, nat) -> nat, start: nat, f: FixedState) returns (h: nat)
    ensures h == Fold(mix, start, StatePart(f))
  {
    hide Fold, Join, RasterTokens;
    h := HashTokens(mix, start, RasterTokens(f));
    h := HashTokens(mix, h, f.colorFormats);
    h := HashTokens(mix, h, [|f.blends|]);
    h := HashAll(mix, h, BlendTokens, f.blends);
    h := HashTokens(mix, h, [f.depthFormat, f.samples]);
    FoldFive(mix, start, RasterTokens(f), f.colorFormats, [|f.blends|], Join(BlendTokens, f.blends),
             [f.depthFormat, f.samples]);
  }

  /** The vertex and the fragment shader of a canonical list, any other list as it stands. */
  method HashShaders(mix: (nat, nat) -> nat, start: nat, shaders: seq<Shader>) returns (h: nat)
    ensures h == Fold(mix, start, ShaderPart(shaders))
  {
    hide Fold, Join, IsCanonicalShaders, ShaderTokens, OptionalShaderTokens;
    var stages := GetCanonicalStages(shaders);
    var head := [if stages.canonical then 1 else 0, |shaders|];
    h := HashTokens(mix, start, head);
    if stages.canonical {
      h := HashTokens(mix, h, OptionalShaderTokens(stages.vertex));
      h := HashTokens(mix, h, OptionalShaderTokens(stages.fragment));
      FoldConcat(mix, start, head, OptionalShaderTokens(stages.vertex));
      FoldConcat(mix, start, head + OptionalShaderTokens(stages.vertex), OptionalShaderTokens(stages.fragment));
      assert head + OptionalShaderTokens(stages.vertex) + OptionalShaderTokens(stages.fragment) ==
             head + (OptionalShaderTokens(stages.vertex) + OptionalShaderTokens(stages.fragment));
    } else {
      h := HashAll(mix, h, ShaderTokens, shaders);
      FoldConcat(mix, start, head, Join(ShaderTokens, shaders));
    }
  }

  /** The hash of a descriptor. */
  method HashDescriptor(mix: (nat, nat) -> nat, start: nat, d: Descriptor) returns (h: nat)
    ensures h == Fold(mix, start, DescriptorTokens(d))
  {
    hide Fold, MaterialPart, ShaderPart, LayoutTokens, StatePart;
    h := HashMaterials(mix, start, d.fixed);
    h := HashShaders(mix, h, d.shaders);
    h := HashVertexLayout(mix, h, d.layout);
    h := HashState(mix, h, d.fixed);
    FoldConcat(mix, start, MaterialPart(d.fixed), ShaderPart(d.shaders));
    FoldConcat(mix, start, MaterialPart(d.fixed) + ShaderPart(d.shaders), LayoutTokens(d.layout));
    FoldConcat(mix, start, MaterialPart(d.fixed) + ShaderPart(d.shaders) + LayoutTokens(d.layout), StatePart(d.fixed));
  }
}

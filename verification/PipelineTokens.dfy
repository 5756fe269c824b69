/** What is hashed of a pipeline descriptor tells unequal descriptors apart. */
module PipelineTokens {
  import opened Wrappers
  import opened Sorting
  import opened KeyedLists
  import opened PipelineKey

  /** Followed by anything at all, the numbers of a part tell it from every other part. */
  ghost predicate Unambiguous<T(!new)>(part: T -> seq<nat>) {
    forall x, y, s, t :: part(x) + s == part(y) + t ==> x == y && s == t
  }

  lemma Regroup(a: seq<nat>, b: seq<nat>, s: seq<nat>)
    ensures a + b + s == a + (b + s)
  {
  }

  lemma SameFront(a: seq<nat>, b: seq<nat>, s: seq<nat>, t: seq<nat>)
    requires |a| == |b| && a + s == b + t
    ensures a == b && s == t
  {
    assert a == (a + s)[..|a|] && b == (b + t)[..|b|];
    assert s == (a + s)[|a|..] && t == (b + t)[|b|..];
  }

  lemma {:induction false} JoinFirst<T>(part: T -> seq<nat>, xs: seq<T>)
    requires xs != []
    ensures Join(part, xs) == part(xs[0]) + Join(part, xs[1..])
  {
    var n := |xs| - 1;
    if n > 0 {
      JoinFirst(part, xs[..n]);
      assert xs[..n][1..] == xs[1..][..n - 1];
    }
  }

  lemma {:induction false} JoinTells<T(!new)>(part: T -> seq<nat>, xs: seq<T>, ys: seq<T>, s: seq<nat>, t: seq<nat>)
    requires Unambiguous(part) && |xs| == |ys| && Join(part, xs) + s == Join(part, ys) + t
    ensures xs == ys && s == t
  {
    hide Join;
    if xs == [] {
      JoinNone(part);
      assert Join(part, xs) + s == s && Join(part, ys) + t == t;
    } else {
      JoinFirst(part, xs);
      JoinFirst(part, ys);
      Regroup(part(xs[0]), Join(part, xs[1..]), s);
      Regroup(part(ys[0]), Join(part, ys[1..]), t);
      assert xs[0] == ys[0] && Join(part, xs[1..]) + s == Join(part, ys[1..]) + t;
      JoinTells(part, xs[1..], ys[1..], s, t);
      assert xs == [xs[0]] + xs[1..] && ys == [ys[0]] + ys[1..];
    }
  }

  lemma JoinNone<T>(part: T -> seq<nat>)
    ensures Join(part, []) == []
  {
  }

  /** A list behind its length. */
  lemma CountedTells<T(!new)>(part: T -> seq<nat>, xs: seq<T>, ys: seq<T>, s: seq<nat>, t: seq<nat>)
    requires Unambiguous(part) && [|xs|] + Join(part, xs) + s == [|ys|] + Join(part, ys) + t
    ensures xs == ys && s == t
  {
    hide Join, Unambiguous;
    Regroup([|xs|], Join(part, xs), s);
    Regroup([|ys|], Join(part, ys), t);
    SameFront([|xs|], [|ys|], Join(part, xs) + s, Join(part, ys) + t);
    assert [|xs|][0] == [|ys|][0];
    JoinTells(part, xs, ys, s, t);
  }

  lemma CountedNumbersTell(a: seq<nat>, b: seq<nat>, s: seq<nat>, t: seq<nat>)
    requires [|a|] + a + s == [|b|] + b + t
    ensures a == b && s == t
  {
    Regroup([|a|], a, s);
    Regroup([|b|], b, t);
    SameFront([|a|], [|b|], a + s, b + t);
    assert [|a|][0] == [|b|][0];
    SameFront(a, b, s, t);
  }

  lemma FlatPartsTell()
    ensures Unambiguous(BindingTokens) && Unambiguous(AttributeTokens)
    ensures Unambiguous(MaterialTokens) && Unambiguous(BlendTokens)
  {
    forall x, y, s, t | BindingTokens(x) + s == BindingTokens(y) + t
      ensures x == y && s == t
    {
      SameFront(BindingTokens(x), BindingTokens(y), s, t);
      Three(BindingTokens(x), BindingTokens(y));
    }
    forall x, y, s, t | AttributeTokens(x) + s == AttributeTokens(y) + t
      ensures x == y && s == t
    {
      SameFront(AttributeTokens(x), AttributeTokens(y), s, t);
      Four(AttributeTokens(x), AttributeTokens(y));
    }
    forall x, y, s, t | MaterialTokens(x) + s == MaterialTokens(y) + t
      ensures x == y && s == t
    {
      SameFront(MaterialTokens(x), MaterialTokens(y), s, t);
      Four(MaterialTokens(x), MaterialTokens(y));
    }
    forall x, y, s, t | BlendTokens(x) + s == BlendTokens(y) + t
      ensures x == y && s == t
    {
      SameFront(BlendTokens(x), BlendTokens(y), s, t);
      Eight(BlendTokens(x), BlendTokens(y));
    }
  }

  lemma Three(a: seq<nat>, b: seq<nat>)
    requires a == b && |a| == 3
    ensures a[0] == b[0] && a[1] == b[1] && a[2] == b[2]
  {
  }

  lemma Four(a: seq<nat>, b: seq<nat>)
    requires a == b && |a| == 4
    ensures a[0] == b[0] && a[1] == b[1] && a[2] == b[2] && a[3] == b[3]
  {
  }

  lemma Eight(a: seq<nat>, b: seq<nat>)
    requires a == b && |a| == 8
    ensures a[0] == b[0] && a[1] == b[1] && a[2] == b[2] && a[3] == b[3]
    ensures a[4] == b[4] && a[5] == b[5] && a[6] == b[6] && a[7] == b[7]
  {
  }

  // ------------------------------------------------------------------ shaders

  lemma StringsTell(a: string, b: string, s: seq<nat>, t: seq<nat>)
    requires StringTokens(a) + s == StringTokens(b) + t
    ensures a == b && s == t
  {
    var x, y := seq(|a|, k requires 0 <= k < |a| => a[k] as nat), seq(|b|, k requires 0 <= k < |b| => b[k] as nat);
    assert StringTokens(a) == [|x|] + x && StringTokens(b) == [|y|] + y;
    CountedNumbersTell(x, y, s, t);
    forall k | 0 <= k < |a|
      ensures a[k] == b[k]
    {
      assert x[k] == y[k];
    }
  }

  function ArtifactTokens(a: Option<Artifact>): seq<nat> {
    match a
    case None => [0]
    case Some(a) => [1, StageToken(a.stage), |a.words|] + a.words
  }

  lemma ArtifactsTell(a: Option<Artifact>, b: Option<Artifact>, s: seq<nat>, t: seq<nat>)
    requires ArtifactTokens(a) + s == ArtifactTokens(b) + t
    ensures a == b && s == t
  {
    var x, y := ArtifactTokens(a), ArtifactTokens(b);
    assert (x + s)[0] == x[0] && (y + t)[0] == y[0];
    if a.None? {
      SameFront(x, y, s, t);
    } else {
      var p, q := a.value, b.value;
      Regroup([1, StageToken(p.stage), |p.words|], p.words, s);
      Regroup([1, StageToken(q.stage), |q.words|], q.words, t);
      SameFront([1, StageToken(p.stage), |p.words|], [1, StageToken(q.stage), |q.words|], p.words + s, q.words + t);
      Three([1, StageToken(p.stage), |p.words|], [1, StageToken(q.stage), |q.words|]);
      SameFront(p.words, q.words, s, t);
    }
  }

  lemma ShaderShape(x: Shader, s: seq<nat>)
    ensures ShaderTokens(x) + s == StringTokens(x.resourceClass) +
            (StringTokens(x.resourceKey) + (StringTokens(x.entryPoint) + (ArtifactTokens(x.artifact) + s)))
  {
    hide StringTokens;
  }

  lemma ShadersTell()
    ensures Unambiguous(ShaderTokens)
  {
    hide StringTokens, ArtifactTokens, ShaderTokens;
    forall x, y, s, t | ShaderTokens(x) + s == ShaderTokens(y) + t
      ensures x == y && s == t
    {
      ShaderShape(x, s);
      ShaderShape(y, t);
      var u, v := ArtifactTokens(x.artifact) + s, ArtifactTokens(y.artifact) + t;
      StringsTell(x.resourceClass, y.resourceClass, StringTokens(x.resourceKey) + (StringTokens(x.entryPoint) + u),
                  StringTokens(y.resourceKey) + (StringTokens(y.entryPoint) + v));
      StringsTell(x.resourceKey, y.resourceKey, StringTokens(x.entryPoint) + u, StringTokens(y.entryPoint) + v);
      StringsTell(x.entryPoint, y.entryPoint, u, v);
      ArtifactsTell(x.artifact, y.artifact, s, t);
    }
  }

  lemma OptionalShadersTell(x: Option<Shader>, y: Option<Shader>, s: seq<nat>, t: seq<nat>)
    requires OptionalShaderTokens(x) + s == OptionalShaderTokens(y) + t
    ensures x == y && s == t
  {
    hide ShaderTokens;
    ShadersTell();
    var p, q := OptionalShaderTokens(x), OptionalShaderTokens(y);
    assert (p + s)[0] == p[0] && (q + t)[0] == q[0];
    if x.None? {
      SameFront(p, q, s, t);
    } else {
      Regroup([1], ShaderTokens(x.value), s);
      Regroup([1], ShaderTokens(y.value), t);
      SameFront([1], [1], ShaderTokens(x.value) + s, ShaderTokens(y.value) + t);
    }
  }

  lemma ShaderListsTell(x: seq<Shader>, y: seq<Shader>, s: seq<nat>, t: seq<nat>)
    requires ShaderPart(x) + s == ShaderPart(y) + t
    ensures ShadersEqual(x, y) && s == t
  {
    hide IsCanonicalShaders, FindByKey, OptionalShaderTokens, Join;
    var p, q := IsCanonicalShaders(x), IsCanonicalShaders(y);
    var restX := if p then OptionalShaderTokens(FindByKey(StageKey, x, 1)) + OptionalShaderTokens(FindByKey(StageKey, x, 2))
                 else Join(ShaderTokens, x);
    var restY := if q then OptionalShaderTokens(FindByKey(StageKey, y, 1)) + OptionalShaderTokens(FindByKey(StageKey, y, 2))
                 else Join(ShaderTokens, y);
    var headX, headY := [if p then 1 else 0, |x|], [if q then 1 else 0, |y|];
    Regroup(headX, restX, s);
    Regroup(headY, restY, t);
    SameFront(headX, headY, restX + s, restY + t);
    assert headX[0] == headY[0] && headX[1] == headY[1];
    if p {
      Regroup(OptionalShaderTokens(FindByKey(StageKey, x, 1)), OptionalShaderTokens(FindByKey(StageKey, x, 2)), s);
      Regroup(OptionalShaderTokens(FindByKey(StageKey, y, 1)), OptionalShaderTokens(FindByKey(StageKey, y, 2)), t);
      OptionalShadersTell(FindByKey(StageKey, x, 1), FindByKey(StageKey, y, 1),
                          OptionalShaderTokens(FindByKey(StageKey, x, 2)) + s,
                          OptionalShaderTokens(FindByKey(StageKey, y, 2)) + t);
      OptionalShadersTell(FindByKey(StageKey, x, 2), FindByKey(StageKey, y, 2), s, t);
    } else {
      ShadersTell();
      JoinTells(ShaderTokens, x, y, s, t);
    }
  }

  // ------------------------------------------------------------------ layouts

  lemma Split(a: seq<nat>, b: seq<nat>, c: seq<nat>, d: seq<nat>, e: seq<nat>, s: seq<nat>)
    ensures a + b + c + d + e + s == a + (b + c + (d + e + s))
  {
    Regroup(a, b, c);
    Regroup(a, b + c, d);
    Regroup(a, b + c + d, e);
    Regroup(a, b + c + d + e, s);
    Regroup(b + c, d, e);
    Regroup(b + c, d + e, s);
  }

  lemma ListsTell(flag: nat, b: seq<VertexBinding>, a: seq<VertexAttribute>, flag': nat, b': seq<VertexBinding>,
                  a': seq<VertexAttribute>, s: seq<nat>, t: seq<nat>)
    requires [flag] + [|b|] + Join(BindingTokens, b) + [|a|] + Join(AttributeTokens, a) + s ==
             [flag'] + [|b'|] + Join(BindingTokens, b') + [|a'|] + Join(AttributeTokens, a') + t
    ensures flag == flag' && b == b' && a == a' && s == t
  {
    hide *;
    FlatPartsTell();
    var x, y := [|a|] + Join(AttributeTokens, a) + s, [|a'|] + Join(AttributeTokens, a') + t;
    Split([flag], [|b|], Join(BindingTokens, b), [|a|], Join(AttributeTokens, a), s);
    Split([flag'], [|b'|], Join(BindingTokens, b'), [|a'|], Join(AttributeTokens, a'), t);
    SameFront([flag], [flag'], [|b|] + Join(BindingTokens, b) + x, [|b'|] + Join(BindingTokens, b') + y);
    assert [flag][0] == [flag'][0];
    CountedTells(BindingTokens, b, b', x, y);
    CountedTells(AttributeTokens, a, a', s, t);
  }

  lemma LayoutsTell(l: VertexLayout, r: VertexLayout, s: seq<nat>, t: seq<nat>)
    requires LayoutTokens(l) + s == LayoutTokens(r) + t
    ensures LayoutsEqual(l, r) && s == t
  {
    hide IsCanonicalLayout, Join, LayoutsEqual;
    LayoutsEqualMeans(l, r);
    var bl, al := BindingsInOrder(l), AttributesInOrder(l);
    var br, ar := BindingsInOrder(r), AttributesInOrder(r);
    LayoutShape(l);
    LayoutShape(r);
    ListsTell(if IsCanonicalLayout(l) then 1 else 0, bl, al, if IsCanonicalLayout(r) then 1 else 0, br, ar, s, t);
  }

  ghost function BindingsInOrder(l: VertexLayout): seq<VertexBinding> {
    if IsCanonicalLayout(l) then SortedForm(BindingKey, l.bindings) else l.bindings
  }

  ghost function AttributesInOrder(l: VertexLayout): seq<VertexAttribute> {
    if IsCanonicalLayout(l) then SortedForm(LocationKey, l.attributes) else l.attributes
  }

  lemma LayoutShape(l: VertexLayout)
    ensures multiset(BindingsInOrder(l)) == multiset(l.bindings) && multiset(AttributesInOrder(l)) == multiset(l.attributes)
    ensures LayoutTokens(l) ==
            [if IsCanonicalLayout(l) then 1 else 0] + [|BindingsInOrder(l)|] + Join(BindingTokens, BindingsInOrder(l)) +
            [|AttributesInOrder(l)|] + Join(AttributeTokens, AttributesInOrder(l))
  {
    hide Join;
    SameMembers(BindingsInOrder(l), l.bindings);
    SameMembers(AttributesInOrder(l), l.attributes);
  }

  // -------------------------------------------------------------- fixed state

  lemma MaterialsTell(f: FixedState, g: FixedState, s: seq<nat>, t: seq<nat>)
    requires MaterialPart(f) + s == MaterialPart(g) + t
    ensures f.pushConstantBytes == g.pushConstantBytes && f.materialBindings == g.materialBindings && s == t
  {
    hide Join;
    FlatPartsTell();
    var p, q := [f.pushConstantBytes, |f.materialBindings|], [g.pushConstantBytes, |g.materialBindings|];
    var x, y := Join(MaterialTokens, f.materialBindings), Join(MaterialTokens, g.materialBindings);
    Regroup(p, x, s);
    Regroup(q, y, t);
    SameFront(p, q, x + s, y + t);
    assert p[0] == q[0] && p[1] == q[1];
    JoinTells(MaterialTokens, f.materialBindings, g.materialBindings, s, t);
  }

  lemma Tail(a: seq<nat>, b: seq<nat>, c: seq<nat>, d: seq<nat>, e: seq<nat>)
    ensures a + b + c + d + e == a + (b + (c + d + e))
  {
    Regroup(a, b, c);
    Regroup(a, b + c, d);
    Regroup(a, b + c + d, e);
    Regroup(b, c, d);
    Regroup(b, c + d, e);
  }

  lemma StatesTell(f: FixedState, g: FixedState)
    requires StatePart(f) == StatePart(g)
    ensures f.(pushConstantBytes := 0, materialBindings := []) == g.(pushConstantBytes := 0, materialBindings := [])
  {
    hide Join, RasterTokens;
    FlatPartsTell();
    var endF, endG := [f.depthFormat, f.samples], [g.depthFormat, g.samples];
    var x, y := [|f.blends|] + Join(BlendTokens, f.blends) + endF, [|g.blends|] + Join(BlendTokens, g.blends) + endG;
    Tail(RasterTokens(f), f.colorFormats, [|f.blends|], Join(BlendTokens, f.blends), endF);
    Tail(RasterTokens(g), g.colorFormats, [|g.blends|], Join(BlendTokens, g.blends), endG);
    RasterTells(f, g, f.colorFormats + x, g.colorFormats + y);
    SameFront(f.colorFormats, g.colorFormats, x, y);
    CountedTells(BlendTokens, f.blends, g.blends, endF, endG);
    assert endF[0] == endG[0] && endF[1] == endG[1];
  }

  lemma RasterTells(f: FixedState, g: FixedState, s: seq<nat>, t: seq<nat>)
    requires RasterTokens(f) + s == RasterTokens(g) + t
    ensures s == t && |f.colorFormats| == |g.colorFormats|
    ensures f.topology == g.topology && f.polygonMode == g.polygonMode && f.cullMode == g.cullMode
    ensures f.frontFace == g.frontFace && f.depthTest == g.depthTest && f.depthWrite == g.depthWrite
    ensures f.depthCompare == g.depthCompare
  {
    SameFront(RasterTokens(f), RasterTokens(g), s, t);
    Eight(RasterTokens(f), RasterTokens(g));
  }

  // ------------------------------------------------------------------ theorem

  lemma Parts(a: seq<nat>, b: seq<nat>, c: seq<nat>, d: seq<nat>)
    ensures a + b + c + d == a + (b + (c + d))
  {
    Regroup(a, b, c);
    Regroup(a, b + c, d);
    Regroup(b, c, d);
  }

  /**
   * What is hashed of two descriptors is the same exactly when they are equal: every part of a descriptor is taken in, and
   * no two unequal descriptors are hashed as the same numbers.
   */
  lemma TokensTellDescriptors(l: Descriptor, r: Descriptor)
    ensures DescriptorTokens(l) == DescriptorTokens(r) <==> DescriptorsEqual(l, r)
  {
    hide MaterialPart, ShaderPart, LayoutTokens, StatePart, ShadersEqual, LayoutsEqual;
    if DescriptorTokens(l) == DescriptorTokens(r) {
      var x, y := LayoutTokens(l.layout) + StatePart(l.fixed), LayoutTokens(r.layout) + StatePart(r.fixed);
      Parts(MaterialPart(l.fixed), ShaderPart(l.shaders), LayoutTokens(l.layout), StatePart(l.fixed));
      Parts(MaterialPart(r.fixed), ShaderPart(r.shaders), LayoutTokens(r.layout), StatePart(r.fixed));
      MaterialsTell(l.fixed, r.fixed, ShaderPart(l.shaders) + x, ShaderPart(r.shaders) + y);
      ShaderListsTell(l.shaders, r.shaders, x, y);
      LayoutsTell(l.layout, r.layout, StatePart(l.fixed), StatePart(r.fixed));
      StatesTell(l.fixed, r.fixed);
    }
    if DescriptorsEqual(l, r) {
      EqualDescriptorsSameTokens(l, r);
    }
  }
}

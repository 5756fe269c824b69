// Running the same steps in two different orders.
//
// Three schedulers of the engine reorder work: the access coordinator, the ECS
// execution graph and the render graph.  They are all justified here: when steps
// that do not conflict commute, every order that keeps the order of the conflicting
// pairs leaves the same state, and every step sees the same values in its footprint.
module Reordering {

  // ---------------------------------------------------------------- orders

  ghost predicate Distinct<T>(xs: seq<T>) {
    forall i, j :: 0 <= i < j < |xs| ==> xs[i] != xs[j]
  }

  ghost predicate SameElements<T(!new)>(xs: seq<T>, ys: seq<T>) {
    forall x :: x in xs <==> x in ys
  }

  /** a stands somewhere before b in xs. */
  ghost predicate Precedes<T(!new)>(xs: seq<T>, a: T, b: T) {
    exists i, j :: 0 <= i < j < |xs| && xs[i] == a && xs[j] == b
  }

  /** Every conflicting pair of p stands in the same order in q. */
  ghost predicate KeepsConflicts<T(!new)>(conflict: (T, T) -> bool, p: seq<T>, q: seq<T>) {
    forall i, j :: 0 <= i < j < |p| && conflict(p[i], p[j]) ==> Precedes(q, p[i], p[j])
  }

  ghost predicate Reorders<T(!new)>(conflict: (T, T) -> bool, p: seq<T>, q: seq<T>) {
    Distinct(p) && Distinct(q) && SameElements(p, q) && KeepsConflicts(conflict, p, q)
  }

  // ------------------------------------------------------------------ runs

  /** Applies the steps of an order, first one first. */
  ghost function Run<T, S>(act: (T, S) -> S, order: seq<T>, s: S): S {
    if order == [] then s else Run(act, order[1..], act(order[0], s))
  }

  lemma {:induction false} RunConcat<T, S>(act: (T, S) -> S, p: seq<T>, q: seq<T>, s: S)
    ensures Run(act, p + q, s) == Run(act, q, Run(act, p, s))
  {
    if p == [] {
      assert p + q == q;
    } else {
      assert (p + q)[1..] == p[1..] + q;
      RunConcat(act, p[1..], q, act(p[0], s));
    }
  }

  ghost predicate Commute<T, S(!new)>(act: (T, S) -> S, a: T, b: T) {
    forall s :: act(a, act(b, s)) == act(b, act(a, s))
  }

  ghost predicate ConflictFreeCommutes<T(!new), S(!new)>(act: (T, S) -> S, conflict: (T, T) -> bool) {
    forall a, b :: a != b && !conflict(a, b) ==> Commute(act, a, b)
  }

  lemma FrontSplit<T>(p: seq<T>, k: nat)
    requires 0 < k < |p|
    ensures var rest := p[1..k] + p[k + 1..];
            && p[1..][k - 1] == p[k]
            && [p[1..][k - 1]] + p[1..][..k - 1] + p[1..][k..] == [p[k]] + rest
            && [p[k]] + p[..k] + p[k + 1..] == [p[k], p[0]] + rest
  {
  }

  lemma RunTwo<T, S>(act: (T, S) -> S, a: T, b: T, rest: seq<T>, s: S)
    ensures Run(act, [a] + rest, s) == Run(act, rest, act(a, s))
    ensures Run(act, [a, b] + rest, s) == Run(act, rest, act(b, act(a, s)))
  {
    assert ([a] + rest)[1..] == rest;
    assert ([a, b] + rest)[1..] == [b] + rest;
    assert ([b] + rest)[1..] == rest;
  }

  /** A step that commutes with everything in front of it can be run first. */
  lemma {:induction false} MoveToFront<T, S(!new)>(act: (T, S) -> S, p: seq<T>, k: nat, s: S)
    requires k < |p|
    requires forall i :: 0 <= i < k ==> Commute(act, p[i], p[k])
    ensures Run(act, p, s) == Run(act, [p[k]] + p[..k] + p[k + 1..], s)
  {
    if k == 0 {
      assert [p[0]] + p[..0] + p[1..] == p;
    } else {
      var x, y := p[0], p[k];
      var rest := p[1..k] + p[k + 1..];
      MoveToFront(act, p[1..], k - 1, act(x, s));
      FrontSplit(p, k);
      RunTwo(act, y, x, rest, act(x, s));
      RunTwo(act, y, x, rest, s);
      assert act(y, act(x, s)) == act(x, act(y, s));
    }
  }

  ghost function Without<T>(p: seq<T>, k: nat): seq<T>
    requires k < |p|
  {
    p[..k] + p[k + 1..]
  }

  lemma WithoutReorders<T(!new)>(conflict: (T, T) -> bool, p: seq<T>, q: seq<T>, k: nat)
    requires Reorders(conflict, p, q) && k < |p| && q != [] && p[k] == q[0]
    ensures Reorders(conflict, Without(p, k), q[1..])
  {
    var r, t := Without(p, k), q[1..];
    forall x
      ensures x in r <==> x in t
    {
      if x in r {
        var i :| 0 <= i < |r| && r[i] == x;
        assert x == p[if i < k then i else i + 1] && x in q;
      }
      if x in t {
        var j :| 0 <= j < |t| && t[j] == x;
        assert q[j + 1] == x && x in p;
        var i :| 0 <= i < |p| && p[i] == x;
        assert i != k;
        assert r[if i < k then i else i - 1] == x;
      }
    }
    forall i, j | 0 <= i < j < |r| && conflict(r[i], r[j])
      ensures Precedes(t, r[i], r[j])
    {
      var i', j' := if i < k then i else i + 1, if j < k then j else j + 1;
      assert p[i'] == r[i] && p[j'] == r[j];
      var a, b :| 0 <= a < b < |q| && q[a] == p[i'] && q[b] == p[j'];
      assert a != 0;
      assert t[a - 1] == r[i] && t[b - 1] == r[j];
    }
  }

  lemma NothingPrecedesFirst<T(!new)>(q: seq<T>, a: T)
    requires Distinct(q) && q != []
    ensures !Precedes(q, a, q[0])
  {
  }

  /** The central theorem: keeping the order of the conflicting pairs keeps the final state. */
  lemma {:induction false} ReorderingKeepsState<T(!new), S(!new)>(
      act: (T, S) -> S, conflict: (T, T) -> bool, p: seq<T>, q: seq<T>, s: S)
    requires ConflictFreeCommutes(act, conflict)
    requires Reorders(conflict, p, q)
    ensures Run(act, p, s) == Run(act, q, s)
    decreases |q|
  {
    if q == [] {
      assert forall i :: 0 <= i < |p| ==> p[i] in p;
    } else {
      var x := q[0];
      assert x in q;
      var k :| 0 <= k < |p| && p[k] == x;
      forall i | 0 <= i < k
        ensures Commute(act, p[i], p[k])
      {
        NothingPrecedesFirst(q, p[i]);
      }
      MoveToFront(act, p, k, s);
      assert ([x] + p[..k] + p[k + 1..])[1..] == Without(p, k);
      WithoutReorders(conflict, p, q, k);
      ReorderingKeepsState(act, conflict, Without(p, k), q[1..], act(x, s));
    }
  }

  // ------------------------------------------- what every step gets to see

  /** No step changes what a step it does not conflict with sees. */
  ghost predicate ConflictFreeKeepsView<T(!new), S(!new), V>(
      act: (T, S) -> S, view: (T, S) -> V, conflict: (T, T) -> bool)
  {
    forall a, b, s :: a != b && !conflict(a, b) ==> view(a, act(b, s)) == view(a, s)
  }

  /** The same steps, each one also noting what it saw. */
  ghost function Logged<T, S, V>(act: (T, S) -> S, view: (T, S) -> V): (T, (S, map<T, V>)) -> (S, map<T, V>) {
    (t: T, sl: (S, map<T, V>)) => (act(t, sl.0), sl.1[t := view(t, sl.0)])
  }

  lemma LoggedCommutes<T(!new), S(!new), V(!new)>(
      act: (T, S) -> S, view: (T, S) -> V, conflict: (T, T) -> bool)
    requires ConflictFreeCommutes(act, conflict) && ConflictFreeKeepsView(act, view, conflict)
    requires forall a, b :: conflict(a, b) == conflict(b, a)
    ensures ConflictFreeCommutes(Logged(act, view), conflict)
  {
    var act' := Logged(act, view);
    forall a, b | a != b && !conflict(a, b)
      ensures Commute(act', a, b)
    {
      assert Commute(act, a, b);
      forall sl
        ensures act'(a, act'(b, sl)) == act'(b, act'(a, sl))
      {
        assert view(a, act(b, sl.0)) == view(a, sl.0) && view(b, act(a, sl.0)) == view(b, sl.0);
        assert sl.1[a := view(a, sl.0)][b := view(b, sl.0)] == sl.1[b := view(b, sl.0)][a := view(a, sl.0)];
      }
    }
  }

  /** Logging does not disturb the run, and only steps of the order touch their entry. */
  lemma {:induction false} LoggedRun<T(!new), S, V>(act: (T, S) -> S, view: (T, S) -> V, p: seq<T>, s: S, log: map<T, V>)
    requires Distinct(p)
    ensures Run(Logged(act, view), p, (s, log)).0 == Run(act, p, s)
    ensures forall t :: t in log && t !in p ==>
      t in Run(Logged(act, view), p, (s, log)).1 && Run(Logged(act, view), p, (s, log)).1[t] == log[t]
  {
    if p != [] {
      LoggedRun(act, view, p[1..], act(p[0], s), log[p[0] := view(p[0], s)]);
    }
  }

  lemma DistinctAround<T(!new)>(p: seq<T>, i: nat)
    requires Distinct(p) && i < |p|
    ensures p == p[..i] + ([p[i]] + p[i + 1..])
    ensures Distinct(p[..i]) && Distinct(p[i + 1..]) && p[i] !in p[..i] && p[i] !in p[i + 1..]
  {
  }

  lemma RunFirst<T, S>(act: (T, S) -> S, x: T, after: seq<T>, s: S)
    ensures Run(act, [x] + after, s) == Run(act, after, act(x, s))
  {
    assert ([x] + after)[1..] == after;
  }

  lemma LoggedEntry<T(!new), S, V>(act: (T, S) -> S, view: (T, S) -> V, p: seq<T>, s: S, i: nat)
    requires Distinct(p) && i < |p|
    ensures p[i] in Run(Logged(act, view), p, (s, map[])).1
    ensures Run(Logged(act, view), p, (s, map[])).1[p[i]] == view(p[i], Run(act, p[..i], s))
  {
    hide Run, Distinct;
    var before, after := p[..i], p[i + 1..];
    DistinctAround(p, i);
    RunConcat(Logged(act, view), before, [p[i]] + after, (s, map[]));
    LoggedRun(act, view, before, s, map[]);
    var mid := Run(Logged(act, view), before, (s, map[]));
    RunFirst(Logged(act, view), p[i], after, mid);
    LoggedRun(act, view, after, act(p[i], mid.0), mid.1[p[i] := view(p[i], mid.0)]);
  }

  /** Keeping the order of the conflicting pairs keeps what every step sees. */
  lemma ReorderingKeepsViews<T(!new), S(!new), V(!new)>(
      act: (T, S) -> S, view: (T, S) -> V, conflict: (T, T) -> bool, p: seq<T>, q: seq<T>, s: S, i: nat, j: nat)
    requires ConflictFreeCommutes(act, conflict) && ConflictFreeKeepsView(act, view, conflict)
    requires forall a, b :: conflict(a, b) == conflict(b, a)
    requires Reorders(conflict, p, q) && i < |p| && j < |q| && p[i] == q[j]
    ensures view(p[i], Run(act, p[..i], s)) == view(q[j], Run(act, q[..j], s))
  {
    LoggedCommutes(act, view, conflict);
    ReorderingKeepsState(Logged(act, view), conflict, p, q, (s, map[]));
    LoggedEntry(act, view, p, s, i);
    LoggedEntry(act, view, q, s, j);
  }

  // ------------------------------------------------------------ footprints

  /** The locations a step may look at and the ones it may change. */
  datatype Footprint<!Loc> = Footprint(inputs: iset<Loc>, outputs: iset<Loc>) {
    ghost function All(): iset<Loc> { inputs + outputs }
  }

  ghost predicate Clash<Loc>(f: Footprint<Loc>, g: Footprint<Loc>) {
    f.outputs * g.All() != iset{} || g.outputs * f.All() != iset{}
  }

  ghost predicate AgreeOn<Loc(!new), Val>(s: map<Loc, Val>, t: map<Loc, Val>, locs: iset<Loc>) {
    forall l :: l in locs ==> (l in s <==> l in t) && (l in s ==> s[l] == t[l])
  }

  /** Nothing outside the outputs changes. */
  ghost predicate KeepsRest<T, Loc(!new), Val>(
      act: (T, map<Loc, Val>) -> map<Loc, Val>, step: T, foot: Footprint<Loc>, s: map<Loc, Val>)
  {
    act(step, s).Keys == s.Keys && forall l :: l in s && l !in foot.outputs ==> act(step, s)[l] == s[l]
  }

  /** Two stores that agree on the footprint get the same outputs. */
  ghost predicate SameOutputs<T, Loc(!new), Val>(
      act: (T, map<Loc, Val>) -> map<Loc, Val>, step: T, foot: Footprint<Loc>, s: map<Loc, Val>, t: map<Loc, Val>)
  {
    AgreeOn(s, t, foot.All()) ==> AgreeOn(act(step, s), act(step, t), foot.outputs)
  }

  ghost predicate Confined<T, Loc(!new), Val(!new)>(
      act: (T, map<Loc, Val>) -> map<Loc, Val>, step: T, foot: Footprint<Loc>)
  {
    && (forall s :: KeepsRest(act, step, foot, s))
    && (forall s, t :: SameOutputs(act, step, foot, s, t))
  }

  lemma UntouchedByOther<T, Loc(!new), Val(!new)>(
      act: (T, map<Loc, Val>) -> map<Loc, Val>, b: T, f: Footprint<Loc>, g: Footprint<Loc>, s: map<Loc, Val>)
    requires KeepsRest(act, b, g, s) && !Clash(f, g)
    ensures AgreeOn(act(b, s), s, f.All())
  {
    forall l | l in f.All() && l in s
      ensures act(b, s)[l] == s[l]
    {
      assert l !in g.outputs * f.All();
    }
  }

  lemma ClashFreeCommute<T, Loc(!new), Val(!new)>(
      act: (T, map<Loc, Val>) -> map<Loc, Val>, a: T, b: T, f: Footprint<Loc>, g: Footprint<Loc>)
    requires Confined(act, a, f) && Confined(act, b, g) && !Clash(f, g)
    ensures Commute(act, a, b)
  {
    forall s
      ensures act(a, act(b, s)) == act(b, act(a, s))
    {
      var sa, sb := act(a, s), act(b, s);
      assert KeepsRest(act, a, f, s) && KeepsRest(act, b, g, s);
      assert KeepsRest(act, a, f, sb) && KeepsRest(act, b, g, sa);
      UntouchedByOther(act, b, f, g, s);
      UntouchedByOther(act, a, g, f, s);
      assert SameOutputs(act, a, f, sb, s) && SameOutputs(act, b, g, sa, s);
      forall l | l in s
        ensures act(a, sb)[l] == act(b, sa)[l]
      {
        assert l !in f.outputs * g.All();
      }
    }
  }

  ghost predicate AllConfined<T(!new), Loc(!new), Val(!new)>(
      act: (T, map<Loc, Val>) -> map<Loc, Val>, foot: T -> Footprint<Loc>)
  {
    forall step :: Confined(act, step, foot(step))
  }

  ghost predicate ClashesConflict<T(!new), Loc>(foot: T -> Footprint<Loc>, conflict: (T, T) -> bool) {
    forall a, b :: a != b && Clash(foot(a), foot(b)) ==> conflict(a, b)
  }

  /** What a step can see of a store. */
  ghost function Seen<T, Loc(!new), Val>(foot: T -> Footprint<Loc>): (T, map<Loc, Val>) -> map<Loc, Val> {
    (t: T, s: map<Loc, Val>) => map l | l in s && l in foot(t).All() :: s[l]
  }

  lemma FootprintsCommute<T(!new), Loc(!new), Val(!new)>(
      act: (T, map<Loc, Val>) -> map<Loc, Val>, foot: T -> Footprint<Loc>, conflict: (T, T) -> bool)
    requires AllConfined(act, foot) && ClashesConflict(foot, conflict)
    ensures ConflictFreeCommutes(act, conflict)
    ensures ConflictFreeKeepsView(act, Seen(foot), conflict)
  {
    forall a, b | a != b && !conflict(a, b)
      ensures Commute(act, a, b)
    {
      ClashFreeCommute(act, a, b, foot(a), foot(b));
    }
    forall a, b, s | a != b && !conflict(a, b)
      ensures Seen(foot)(a, act(b, s)) == Seen(foot)(a, s)
    {
      assert KeepsRest(act, b, foot(b), s);
      UntouchedByOther(act, b, foot(a), foot(b), s);
    }
  }

  /** Two orders of confined steps that agree on the conflicting pairs end in the same
      store, and every step sees the same part of the store in both. */
  lemma FootprintReordering<T(!new), Loc(!new), Val(!new)>(
      act: (T, map<Loc, Val>) -> map<Loc, Val>, foot: T -> Footprint<Loc>, conflict: (T, T) -> bool,
      p: seq<T>, q: seq<T>, s: map<Loc, Val>)
    requires AllConfined(act, foot) && ClashesConflict(foot, conflict)
    requires forall a, b :: conflict(a, b) == conflict(b, a)
    requires Reorders(conflict, p, q)
    ensures Run(act, p, s) == Run(act, q, s)
    ensures forall i, j :: 0 <= i < |p| && 0 <= j < |q| && p[i] == q[j] ==>
      Seen(foot)(p[i], Run(act, p[..i], s)) == Seen(foot)(q[j], Run(act, q[..j], s))
  {
    FootprintsCommute(act, foot, conflict);
    ReorderingKeepsState(act, conflict, p, q, s);
    forall i, j | 0 <= i < |p| && 0 <= j < |q| && p[i] == q[j]
      ensures Seen(foot)(p[i], Run(act, p[..i], s)) == Seen(foot)(q[j], Run(act, q[..j], s))
    {
      ReorderingKeepsViews(act, Seen(foot), conflict, p, q, s, i, j);
    }
  }
}

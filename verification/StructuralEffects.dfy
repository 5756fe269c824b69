/** What the deferred structural commands of a World do to its hierarchy, and so to the handles that are alive. */
module StructuralEffects {
  import opened Wrappers
  import opened Reordering
  import opened Matrices
  import opened HierarchySpec
  import opened HierarchyShapes
  import M = Hierarchy
  import opened StructuralCommands

  // --------------------------------------------------------- single commands

  /** Keeping the local transform, or the world transform of every entity. */
  ghost predicate KeepsTransforms(f: Forest, g: Forest, child: EntityReference, mode: M.ReparentMode)
    requires IsForest(f) && IsForest(g) && child in f && g.Keys == f.Keys
  {
    match mode
    case KEEP_LOCAL => g[child].local == f[child].local
    case KEEP_WORLD => forall x :: x in f ==> World(g, x) == World(f, x)
  }

  /** Stale references, a parent that is the child or descends from it, or a singular parent. */
  ghost predicate Refuses(f: Forest, child: EntityReference, parent: EntityReference, mode: M.ReparentMode)
    requires IsForest(f)
  {
    || child !in f || (parent != NONE && parent !in f)
    || parent == child || (exists path :: parent in f && IsPath(f, parent, path) && child in path)
    || (f[child].parent != parent && mode == M.KEEP_WORLD && parent != NONE && !Invertible(World(f, parent)))
  }

  /** The command takes the hierarchy of the world from the first state to the second. */
  ghost predicate Does(worldId: nat, f: Forest, c: Command, g: Forest) {
    && IsForest(f) && IsForest(g)
    && match c
       case CREATE(r) => IsBorn(f, g, EntityReference(worldId, r.identity))
       case DESTROY(e) =>
         var x := EntityReference(worldId, e);
         if x in f then IsGone(f, g, x) else g == f
       case REPARENT(child, parent, mode) =>
         && !Refuses(f, child, parent, mode)
         && (if f[child].parent == parent then g == f
             else IsMoved(f, g, child, parent) && KeepsTransforms(f, g, child, mode))
       case COMPONENT(_, fails) => !fails && g == f
  }

  /** The command throws, and leaves the hierarchy as it was. */
  ghost predicate Fails(f: Forest, c: Command) {
    match c
    case CREATE(_) => false
    case DESTROY(_) => false
    case REPARENT(child, parent, mode) => IsForest(f) && Refuses(f, child, parent, mode)
    case COMPONENT(_, fails) => fails
  }

  /** The commands do so one after another. */
  ghost predicate DoesAll(worldId: nat, f: Forest, commands: seq<Command>, g: Forest)
    decreases |commands|
  {
    if commands == [] then g == f
    else exists h :: Does(worldId, f, commands[0], h) && DoesAll(worldId, h, commands[1..], g)
  }

  // ---------------------------------------------------- what the methods promise

  /** What a reparenting answers, in terms of the hierarchy. */
  lemma RefusalMeans(f: Forest, epoch: nat, child: EntityReference, parent: EntityReference, mode: M.ReparentMode)
    requires IsForest(f) && epoch < M.MAX_EPOCH
    ensures M.Refusal(f, epoch, child, parent, mode).Some? <==> Refuses(f, child, parent, mode)
  {
    hide World, Invertible, Ancestors;
    if parent != NONE && parent in f {
      assert IsRooted(f, parent);
      if path :| IsPath(f, parent, path) && child in path {
        PathUnique(f, parent, path, Ancestors(f, parent));
      }
    }
    if child in f && parent == child { assert child != NONE; }
  }

  lemma NothingDone(worldId: nat, f: Forest)
    ensures DoesAll(worldId, f, [], f)
  {
  }

  lemma {:induction false} DoesOneMore(worldId: nat, f: Forest, commands: seq<Command>, h: Forest, c: Command, g: Forest)
    requires DoesAll(worldId, f, commands, h) && Does(worldId, h, c, g)
    ensures DoesAll(worldId, f, commands + [c], g)
    decreases |commands|
  {
    hide Does;
    if commands == [] {
      assert ([] + [c])[0] == c && ([] + [c])[1..] == [];
      assert DoesAll(worldId, g, [], g);
    } else {
      var m :| Does(worldId, f, commands[0], m) && DoesAll(worldId, m, commands[1..], h);
      DoesOneMore(worldId, m, commands[1..], h, c, g);
      assert (commands + [c])[1..] == commands[1..] + [c];
    }
  }

  // ------------------------------------------------------------ one effect only

  lemma WithoutUnique(s: seq<EntityReference>, x: EntityReference, t: seq<EntityReference>, u: seq<EntityReference>)
    requires Distinct(s) && IsWithout(s, x, t) && IsWithout(s, x, u)
    ensures t == u
  {
    var k :| 0 <= k < |s| && s[k] == x && t == s[..k] + s[k + 1..];
    var l :| 0 <= l < |s| && s[l] == x && u == s[..l] + s[l + 1..];
    assert k == l;
  }

  lemma BornUnique(f: Forest, x: EntityReference, g: Forest, h: Forest)
    requires IsBorn(f, g, x) && IsBorn(f, h, x)
    ensures g == h
  {
    forall y | y in g
      ensures g[y] == h[y]
    {
      if y != x { assert y in f; }
    }
  }

  lemma GoneUnique(f: Forest, x: EntityReference, g: Forest, h: Forest)
    requires IsForest(f) && IsGone(f, g, x) && IsGone(f, h, x)
    ensures g == h
  {
    hide IsWithout, IsRooted, IsAffine;
    forall y | y in g
      ensures g[y] == h[y]
    {
      if y == f[x].parent { WithoutUnique(f[y].children, x, g[y].children, h[y].children); }
    }
  }

  lemma LocalUnique(m: Mat4, a: Mat4, b: Mat4)
    requires Invertible(m) && Mul(m, a) == Mul(m, b)
    ensures a == b
  {
    hide Mul;
    var n :| Mul(n, m) == IDENTITY;
    MulAssociative(n, m, a);
    MulAssociative(n, m, b);
    MulIdentity(a);
    MulIdentity(b);
  }

  /** Keeping the world transform determines the local one. */
  lemma KeptLocalUnique(f: Forest, child: EntityReference, parent: EntityReference, g: Forest, h: Forest)
    requires IsForest(f) && IsForest(g) && IsForest(h) && child in f && g.Keys == f.Keys && h.Keys == f.Keys
    requires parent != NONE ==> parent in f && Invertible(World(f, parent))
    requires g[child].parent == parent && h[child].parent == parent
    requires forall x :: x in f ==> World(g, x) == World(f, x) && World(h, x) == World(f, x)
    ensures g[child].local == h[child].local
  {
    hide World, Invertible, Mul, Ancestors;
    AncestorsStep(g, child);
    AncestorsStep(h, child);
    if parent != NONE {
      LocalUnique(World(f, parent), g[child].local, h[child].local);
    }
  }

  lemma MovedUnique(f: Forest, child: EntityReference, parent: EntityReference, g: Forest, h: Forest)
    requires IsForest(f) && IsMoved(f, g, child, parent) && IsMoved(f, h, child, parent)
    requires g[child].local == h[child].local
    ensures g == h
  {
    hide IsWithout, IsRooted, IsAffine;
    forall y | y in g
      ensures g[y] == h[y]
    {
      if y != child && y != parent && y == f[child].parent {
        WithoutUnique(f[y].children, child, g[y].children, h[y].children);
      }
    }
  }

  lemma ReparentUnique(worldId: nat, f: Forest, c: Command, g: Forest, h: Forest)
    requires c.REPARENT? && Does(worldId, f, c, g) && Does(worldId, f, c, h)
    ensures g == h
  {
    hide IsForest, World, Invertible, IsPath;
    if f[c.child].parent != c.parent {
      MovedParts(f, g, c.child, c.parent);
      MovedParts(f, h, c.child, c.parent);
      hide IsMoved;
      if c.mode == M.KEEP_WORLD {
        KeptLocalUnique(f, c.child, c.parent, g, h);
      }
      MovedUnique(f, c.child, c.parent, g, h);
    }
  }

  lemma MovedParts(f: Forest, g: Forest, child: EntityReference, parent: EntityReference)
    requires IsMoved(f, g, child, parent)
    ensures child in f && g.Keys == f.Keys && g[child].parent == parent && (parent != NONE ==> parent in f)
  {
  }

  /** A command that is done leaves one hierarchy only, and cannot fail in the same state. */
  lemma EffectUnique(worldId: nat, f: Forest, c: Command, g: Forest, h: Forest)
    requires Does(worldId, f, c, g)
    ensures Does(worldId, f, c, h) ==> g == h
    ensures !Fails(f, c)
  {
    hide IsForest, IsBorn, IsGone, IsMoved, KeepsTransforms, Refuses;
    if Does(worldId, f, c, h) {
      match c
      case CREATE(r) => BornUnique(f, EntityReference(worldId, r.identity), g, h);
      case DESTROY(e) => if EntityReference(worldId, e) in f { GoneUnique(f, EntityReference(worldId, e), g, h); }
      case REPARENT(_, _, _) => ReparentUnique(worldId, f, c, g, h);
      case COMPONENT(_, _) =>
    }
  }

  /** Doing commands one after another, until one fails or none is left, ends in one way only. */
  lemma {:induction false} EffectsAreDetermined(worldId: nat, f: Forest, all: seq<Command>, j: nat, k: nat, g: Forest,
                                               h: Forest)
    requires j <= |all| && DoesAll(worldId, f, all[..j], g) && (j < |all| ==> Fails(g, all[j]))
    requires k <= |all| && DoesAll(worldId, f, all[..k], h) && (k < |all| ==> Fails(h, all[k]))
    ensures j == k && g == h
    decreases |all|
  {
    hide Does, Fails;
    if j > 0 && k > 0 {
      assert all[..j][0] == all[0] && all[..k][0] == all[0];
      assert all[..j][1..] == all[1..][..j - 1] && all[..k][1..] == all[1..][..k - 1];
      var m :| Does(worldId, f, all[0], m) && DoesAll(worldId, m, all[1..][..j - 1], g);
      var n :| Does(worldId, f, all[0], n) && DoesAll(worldId, n, all[1..][..k - 1], h);
      EffectUnique(worldId, f, all[0], m, n);
      EffectsAreDetermined(worldId, m, all[1..], j - 1, k - 1, g, h);
    } else if j > 0 {
      var m :| Does(worldId, f, all[..j][0], m) && DoesAll(worldId, m, all[..j][1..], g);
      EffectUnique(worldId, f, all[0], m, m);
    } else if k > 0 {
      var m :| Does(worldId, f, all[..k][0], m) && DoesAll(worldId, m, all[..k][1..], h);
      EffectUnique(worldId, f, all[0], m, m);
    }
  }
}

/** The hierarchy as a value: who the parent is, the children in order, and the local transform of every live entity. */
module HierarchySpec {
  import opened Matrices
  import opened Reordering

  const INVALID_INDEX := 0xFFFF_FFFF

  datatype Entity = Entity(index: nat, generation: nat)

  datatype EntityReference = EntityReference(worldId: nat, identity: Entity)

  /** The default reference: no entity. */
  const NONE := EntityReference(0, Entity(INVALID_INDEX, 0))

  datatype Entry = Entry(parent: EntityReference, children: seq<EntityReference>, local: Mat4)

  type Forest = map<EntityReference, Entry>

  // ---------------------------------------------------------------- paths

  /** path lists the ancestors of r, nearest first, up to a root. */
  ghost predicate IsPath(f: Forest, r: EntityReference, path: seq<EntityReference>)
    requires r in f
    decreases |path|
  {
    if f[r].parent == NONE then path == []
    else path != [] && path[0] == f[r].parent && path[0] in f && IsPath(f, path[0], path[1..])
  }

  ghost predicate IsRooted(f: Forest, r: EntityReference)
    requires r in f
  {
    exists path :: IsPath(f, r, path)
  }

  ghost predicate ParentsMatch(f: Forest) {
    && (forall r :: r in f && f[r].parent != NONE ==> f[r].parent in f && r in f[f[r].parent].children)
    && (forall r, c :: r in f && c in f[r].children ==> c in f && f[c].parent == r)
  }

  ghost predicate IsForest(f: Forest) {
    && NONE !in f
    && ParentsMatch(f)
    && (forall r :: r in f ==> Distinct(f[r].children))
    && (forall r :: r in f ==> IsAffine(f[r].local))
    && (forall r :: r in f ==> IsRooted(f, r))
  }

  lemma {:induction false} PathUnique(f: Forest, r: EntityReference, p: seq<EntityReference>, q: seq<EntityReference>)
    requires r in f && IsPath(f, r, p) && IsPath(f, r, q)
    ensures p == q
    decreases |p|
  {
    if p != [] {
      PathUnique(f, p[0], p[1..], q[1..]);
      assert p == [p[0]] + p[1..] && q == [q[0]] + q[1..];
    }
  }

  lemma {:induction false} PathSuffix(f: Forest, r: EntityReference, p: seq<EntityReference>, i: nat)
    requires r in f && IsPath(f, r, p) && i < |p|
    ensures p[i] in f && IsPath(f, p[i], p[i + 1..])
    decreases i
  {
    if i > 0 {
      PathSuffix(f, p[0], p[1..], i - 1);
      assert p[1..][i..] == p[i + 1..];
    }
  }

  /** The ancestors of an entity of a forest. */
  ghost function Ancestors(f: Forest, r: EntityReference): (path: seq<EntityReference>)
    requires r in f && IsRooted(f, r)
    ensures IsPath(f, r, path)
  {
    var path :| IsPath(f, r, path);
    path
  }

  /** Being rooted rules out cycles: nothing is its own ancestor, and no ancestor repeats. */
  lemma NotItsOwnAncestor(f: Forest, r: EntityReference)
    requires r in f && IsRooted(f, r)
    ensures r !in Ancestors(f, r)
  {
    var p := Ancestors(f, r);
    if r in p {
      var i :| 0 <= i < |p| && p[i] == r;
      PathSuffix(f, r, p, i);
      PathUnique(f, r, p, p[i + 1..]);
    }
  }

  // ----------------------------------------------------------- transforms

  /** The world transform: the product of the local transforms from the root down. */
  ghost function WorldAlong(f: Forest, r: EntityReference, path: seq<EntityReference>): Mat4
    requires r in f && IsPath(f, r, path)
    decreases |path|
  {
    if path == [] then f[r].local else Mul(WorldAlong(f, path[0], path[1..]), f[r].local)
  }

  ghost function World(f: Forest, r: EntityReference): Mat4
    requires r in f && IsRooted(f, r)
  {
    WorldAlong(f, r, Ancestors(f, r))
  }

  lemma {:induction false} WorldIsAffine(f: Forest, r: EntityReference, path: seq<EntityReference>)
    requires r in f && IsPath(f, r, path) && forall x :: x in f ==> IsAffine(f[x].local)
    ensures IsAffine(WorldAlong(f, r, path))
    decreases |path|
  {
    if path != [] {
      WorldIsAffine(f, path[0], path[1..]);
      MulAffine(WorldAlong(f, path[0], path[1..]), f[r].local);
    }
  }

  // ------------------------------------------------------------ operations

  /** The list without its first x, the rest in order. */
  function Removed(s: seq<EntityReference>, x: EntityReference): seq<EntityReference> {
    if s == [] then [] else if s[0] == x then s[1..] else [s[0]] + Removed(s[1..], x)
  }

  lemma {:induction false} RemovedAt(s: seq<EntityReference>, k: nat)
    requires k < |s| && Distinct(s)
    ensures Removed(s, s[k]) == s[..k] + s[k + 1..]
  {
    if k > 0 {
      assert s[1..][k - 1] == s[k];
      RemovedAt(s[1..], k - 1);
      assert s[0] != s[k];
      assert s[..k] + s[k + 1..] == [s[0]] + (s[1..][..k - 1] + s[1..][k..]);
    }
  }

  lemma {:induction false} RemovedAbsent(s: seq<EntityReference>, x: EntityReference)
    requires x !in s
    ensures Removed(s, x) == s
  {
    if s != [] {
      RemovedAbsent(s[1..], x);
      assert s == [s[0]] + s[1..];
    }
  }

  /** An entity leaves its parent and becomes a root. */
  function Detached(f: Forest, r: EntityReference): Forest
    requires r in f
  {
    var p := f[r].parent;
    var without := if p in f then f[p := f[p].(children := Removed(f[p].children, r))] else f;
    without[r := without[r].(parent := NONE)]
  }

  /** A root becomes the last child of parent, or stays a root, and takes a new local transform. */
  function Attached(f: Forest, child: EntityReference, parent: EntityReference, local: Mat4): Forest
    requires child in f && (parent == NONE || parent in f) && child != parent
  {
    var moved := f[child := f[child].(parent := parent, local := local)];
    if parent == NONE then moved
    else moved[parent := moved[parent].(children := moved[parent].children + [child])]
  }

  function Reparented(f: Forest, child: EntityReference, parent: EntityReference, local: Mat4): Forest
    requires child in f && (parent == NONE || parent in f) && child != parent
  {
    Attached(Detached(f, child), child, parent, local)
  }

  /** An entity disappears: its parent forgets it, its children become roots, nothing else changes. */
  function Destroyed(f: Forest, r: EntityReference): Forest {
    map x | x in f && x != r ::
      Entry(if f[x].parent == r then NONE else f[x].parent, Removed(f[x].children, r), f[x].local)
  }

  /** A new entity is a root without children whose transform is the identity. */
  function Created(f: Forest, r: EntityReference): Forest { f[r := Entry(NONE, [], IDENTITY)] }

  // ------------------------------------------------ moving one parent link

  /** g differs from f only in whom r has as parent and in r's local transform, as far as paths and worlds can tell. */
  ghost predicate MovesOnly(f: Forest, g: Forest, r: EntityReference) {
    && f.Keys == g.Keys
    && forall x :: x in f && x != r ==> g[x].parent == f[x].parent && g[x].local == f[x].local
  }

  /** The path of x once the path of r has become up. */
  function Rerouted(x: EntityReference, p: seq<EntityReference>, r: EntityReference, up: seq<EntityReference>):
    seq<EntityReference>
    decreases |p|
  {
    if x == r then up else if p == [] then [] else [p[0]] + Rerouted(p[0], p[1..], r, up)
  }

  lemma {:induction false} PathAvoiding(f: Forest, g: Forest, r: EntityReference, x: EntityReference,
                                        p: seq<EntityReference>)
    requires MovesOnly(f, g, r) && x in f && x != r && r !in p && IsPath(f, x, p)
    ensures IsPath(g, x, p) && WorldAlong(g, x, p) == WorldAlong(f, x, p)
    decreases |p|
  {
    if p != [] {
      PathAvoiding(f, g, r, p[0], p[1..]);
    }
  }

  lemma {:induction false} PathRerouted(f: Forest, g: Forest, r: EntityReference, up: seq<EntityReference>,
                                        x: EntityReference, p: seq<EntityReference>)
    requires MovesOnly(f, g, r) && r in g && x in f && IsPath(f, x, p) && IsPath(g, r, up)
    ensures IsPath(g, x, Rerouted(x, p, r, up))
    decreases |p|
  {
    if x != r && p != [] {
      PathRerouted(f, g, r, up, p[0], p[1..]);
      var q := Rerouted(p[0], p[1..], r, up);
      assert ([p[0]] + q)[1..] == q;
    }
  }

  /** When r keeps its world transform, so does everything. */
  lemma {:induction false} WorldRerouted(f: Forest, g: Forest, r: EntityReference, rp: seq<EntityReference>,
                                         up: seq<EntityReference>, x: EntityReference, p: seq<EntityReference>)
    requires MovesOnly(f, g, r) && r in g && x in f && IsPath(f, x, p) && IsPath(f, r, rp) && IsPath(g, r, up)
    requires WorldAlong(g, r, up) == WorldAlong(f, r, rp)
    ensures IsPath(g, x, Rerouted(x, p, r, up))
    ensures WorldAlong(g, x, Rerouted(x, p, r, up)) == WorldAlong(f, x, p)
    decreases |p|
  {
    if x == r {
      PathUnique(f, r, rp, p);
    } else if p != [] {
      WorldRerouted(f, g, r, rp, up, p[0], p[1..]);
      var q := Rerouted(p[0], p[1..], r, up);
      assert ([p[0]] + q)[1..] == q;
    }
  }

  lemma AllRooted(f: Forest, g: Forest, r: EntityReference)
    requires MovesOnly(f, g, r) && r in g && IsRooted(g, r)
    requires forall x :: x in f ==> IsRooted(f, x)
    ensures forall x :: x in g ==> IsRooted(g, x)
  {
    forall x | x in g
      ensures IsRooted(g, x)
    {
      PathRerouted(f, g, r, Ancestors(g, r), x, Ancestors(f, x));
    }
  }

  // ----------------------------------------------- what keeps a forest one

  lemma WithoutOne(s: seq<EntityReference>, k: nat)
    requires Distinct(s) && k < |s|
    ensures var t := s[..k] + s[k + 1..]; Distinct(t) && forall y :: y in t <==> y in s && y != s[k]
  {
    var t := s[..k] + s[k + 1..];
    assert forall i :: 0 <= i < |t| ==> t[i] == s[if i < k then i else i + 1];
    forall y | y in s && y != s[k]
      ensures y in t
    {
      var i :| 0 <= i < |s| && s[i] == y;
      assert t[if i < k then i else i - 1] == y;
    }
  }

  lemma RemovedElements(s: seq<EntityReference>, x: EntityReference)
    requires Distinct(s)
    ensures Distinct(Removed(s, x))
    ensures forall y :: y in Removed(s, x) <==> y in s && y != x
  {
    hide Removed, Distinct;
    if x in s {
      var k :| 0 <= k < |s| && s[k] == x;
      RemovedAt(s, k);
      WithoutOne(s, k);
    } else {
      RemovedAbsent(s, x);
    }
  }

  lemma RootIsRooted(f: Forest, r: EntityReference)
    requires r in f && f[r].parent == NONE
    ensures IsRooted(f, r)
  {
    assert IsPath(f, r, []);
  }

  lemma DetachedLists(f: Forest, r: EntityReference)
    requires r in f && (forall x :: x in f ==> Distinct(f[x].children))
    ensures forall x :: x in f ==> Distinct(Detached(f, r)[x].children)
  {
    if f[r].parent in f {
      RemovedElements(f[f[r].parent].children, r);
    }
  }

  lemma DetachedIsForest(f: Forest, r: EntityReference)
    requires IsForest(f) && r in f
    ensures IsForest(Detached(f, r)) && MovesOnly(f, Detached(f, r), r)
    ensures Detached(f, r)[r].parent == NONE && Detached(f, r)[r].local == f[r].local
  {
    hide IsPath, ParentsMatch, IsRooted, Distinct, Removed;
    var g := Detached(f, r);
    NotItsOwnAncestor(f, r);
    ParentIsAncestor(f, r);
    DetachedLists(f, r);
    RootIsRooted(g, r);
    AllRooted(f, g, r);
    DetachedParentsMatch(f, r);
  }

  lemma ParentIsAncestor(f: Forest, r: EntityReference)
    requires r in f && IsRooted(f, r)
    ensures f[r].parent == NONE || f[r].parent in Ancestors(f, r)
  {
  }

  lemma DetachedParentsMatch(f: Forest, r: EntityReference)
    requires ParentsMatch(f) && r in f && NONE !in f && f[r].parent != r
    requires forall x :: x in f ==> Distinct(f[x].children)
    ensures ParentsMatch(Detached(f, r))
  {
    hide Removed, Distinct;
    var g := Detached(f, r);
    var p := f[r].parent;
    if p in f {
      RemovedElements(f[p].children, r);
    }
    forall x, c | x in g && c in g[x].children
      ensures c in g && g[c].parent == x
    {
      assert c in f[x].children;
      assert x == p ==> c != r;
      assert x != p ==> f[c].parent != p;
    }
    forall x | x in g && g[x].parent != NONE
      ensures g[x].parent in g && x in g[g[x].parent].children
    {
      assert x != r && x in f[f[x].parent].children;
    }
  }

  lemma AttachedParentsMatch(f: Forest, child: EntityReference, parent: EntityReference, local: Mat4)
    requires ParentsMatch(f) && NONE !in f && child in f && f[child].parent == NONE
    requires parent != NONE ==> parent in f && parent != child
    ensures child != parent && ParentsMatch(Attached(f, child, parent, local))
  {
    var g := Attached(f, child, parent, local);
    forall x, c | x in g && c in g[x].children
      ensures c in g && g[c].parent == x
    {
      assert c in f[x].children || (x == parent && c == child);
    }
    forall x | x in g && g[x].parent != NONE
      ensures g[x].parent in g && x in g[g[x].parent].children
    {
      assert x == child || x in f[f[x].parent].children;
    }
  }

  lemma AttachedLists(f: Forest, child: EntityReference, parent: EntityReference, local: Mat4)
    requires ParentsMatch(f) && NONE !in f && child in f && f[child].parent == NONE
    requires parent != NONE ==> parent in f && parent != child
    requires forall x :: x in f ==> Distinct(f[x].children)
    ensures child != parent && forall x :: x in f ==> Distinct(Attached(f, child, parent, local)[x].children)
  {
    assert parent != NONE ==> child !in f[parent].children;
  }

  lemma AttachedIsForest(f: Forest, child: EntityReference, parent: EntityReference, local: Mat4)
    requires IsForest(f) && child in f && f[child].parent == NONE && IsAffine(local)
    requires parent != NONE ==> parent in f && parent != child && child !in Ancestors(f, parent)
    ensures child != parent
    ensures IsForest(Attached(f, child, parent, local)) && MovesOnly(f, Attached(f, child, parent, local), child)
  {
    hide IsPath, ParentsMatch, IsRooted, Distinct, IsAffine;
    AttachedParentsMatch(f, child, parent, local);
    AttachedLists(f, child, parent, local);
    var g := Attached(f, child, parent, local);
    if parent == NONE {
      RootIsRooted(g, child);
    } else {
      var q := Ancestors(f, parent);
      PathAvoiding(f, g, child, parent, q);
      PathOneMore(g, child, q);
    }
    AllRooted(f, g, child);
  }

  lemma PathOneMore(f: Forest, r: EntityReference, q: seq<EntityReference>)
    requires r in f && f[r].parent != NONE && f[r].parent in f && IsPath(f, f[r].parent, q)
    ensures IsRooted(f, r)
  {
    var p := [f[r].parent] + q;
    assert p[1..] == q;
    assert IsPath(f, r, p);
  }

  /** Reparenting a live entity under one that does not descend from it gives a forest again. */
  lemma ReparentedIsForest(f: Forest, child: EntityReference, parent: EntityReference, local: Mat4)
    requires IsForest(f) && child in f && IsAffine(local)
    requires parent != NONE ==> parent in f && parent != child && child !in Ancestors(f, parent)
    ensures child != parent
    ensures IsForest(Reparented(f, child, parent, local))
    ensures MovesOnly(f, Reparented(f, child, parent, local), child)
    ensures Reparented(f, child, parent, local)[child].parent == parent
    ensures Reparented(f, child, parent, local)[child].local == local
  {
    var d := Detached(f, child);
    DetachedIsForest(f, child);
    if parent != NONE {
      AncestorsKept(f, d, child, parent);
    }
    AttachedIsForest(d, child, parent, local);
  }

  /** An entity that does not descend from the moved one keeps its ancestors and its world transform. */
  lemma AncestorsKept(f: Forest, g: Forest, r: EntityReference, x: EntityReference)
    requires IsForest(f) && IsForest(g) && MovesOnly(f, g, r)
    requires x in f && x != r && r !in Ancestors(f, x)
    ensures Ancestors(g, x) == Ancestors(f, x) && World(g, x) == World(f, x)
  {
    PathAvoiding(f, g, r, x, Ancestors(f, x));
    PathUnique(g, x, Ancestors(g, x), Ancestors(f, x));
  }

  lemma AncestorsHaveChildren(f: Forest, x: EntityReference, r: EntityReference)
    requires IsForest(f) && x in f && r in Ancestors(f, x)
    ensures r in f && f[r].children != []
  {
    var p := Ancestors(f, x);
    var i :| 0 <= i < |p| && p[i] == r;
    PathSuffix(f, x, p, i);
    if i == 0 {
      assert x in f[r].children;
    } else {
      PathSuffix(f, x, p, i - 1);
      assert p[i..][0] == p[i];
      assert p[i - 1] in f[r].children;
    }
  }

  /** Dropping a root without children leaves a forest. */
  lemma DroppedIsForest(f: Forest, r: EntityReference)
    requires IsForest(f) && r in f && f[r].parent == NONE && f[r].children == []
    ensures IsForest(map x | x in f && x != r :: f[x])
  {
    var g := map x | x in f && x != r :: f[x];
    forall x | x in g
      ensures IsRooted(g, x)
    {
      if r in Ancestors(f, x) {
        AncestorsHaveChildren(f, x, r);
      }
      PathWithout(f, g, r, x, Ancestors(f, x));
    }
    forall x | x in g && g[x].parent != NONE
      ensures g[x].parent in g
    {
      assert x in f[f[x].parent].children;
    }
  }

  lemma {:induction false} PathWithout(f: Forest, g: Forest, r: EntityReference, x: EntityReference,
                                       p: seq<EntityReference>)
    requires g == map y | y in f && y != r :: f[y]
    requires x in g && IsPath(f, x, p) && r !in p
    ensures IsPath(g, x, p)
    decreases |p|
  {
    if p != [] {
      PathWithout(f, g, r, p[0], p[1..]);
    }
  }

  lemma CreatedIsForest(f: Forest, r: EntityReference)
    requires IsForest(f) && r !in f && r != NONE
    ensures IsForest(Created(f, r))
  {
    var g := Created(f, r);
    forall x | x in g
      ensures IsRooted(g, x)
    {
      if x == r {
        assert IsPath(g, r, []);
      } else {
        PathCreated(f, r, x, Ancestors(f, x));
      }
    }
  }

  lemma {:induction false} PathCreated(f: Forest, r: EntityReference, x: EntityReference, p: seq<EntityReference>)
    requires r !in f && x in f && IsPath(f, x, p)
    ensures IsPath(Created(f, r), x, p)
    decreases |p|
  {
    if p != [] {
      PathCreated(f, r, p[0], p[1..]);
    }
  }

  // ------------------------------------------------- what reparenting keeps

  /**
   * KEEP_WORLD: when the new local transform recomposes the child's world transform below its new parent,
   * no entity anywhere changes its world transform.
   */
  lemma KeepWorldKeepsEveryWorld(f: Forest, child: EntityReference, parent: EntityReference, local: Mat4,
                                 x: EntityReference)
    requires IsForest(f) && child in f && IsAffine(local) && x in f
    requires parent != NONE ==> parent in f && parent != child && child !in Ancestors(f, parent)
    requires World(f, child) == if parent == NONE then local else Mul(World(f, parent), local)
    ensures child != parent
    ensures var g := Reparented(f, child, parent, local);
            x in g && IsRooted(g, x) && World(g, x) == World(f, x)
  {
    ReparentedIsForest(f, child, parent, local);
    var g := Reparented(f, child, parent, local);
    var up := Ancestors(g, child);
    if parent != NONE {
      AncestorsKept(f, g, child, parent);
      PathUnique(g, parent, up[1..], Ancestors(g, parent));
    }
    assert WorldAlong(g, child, up) == World(f, child);
    WorldRerouted(f, g, child, Ancestors(f, child), up, x, Ancestors(f, x));
    PathUnique(g, x, Ancestors(g, x), Rerouted(x, Ancestors(f, x), child, up));
  }

  /** KEEP_LOCAL: every local transform stays, and so does the world transform of all that do not descend from child. */
  lemma KeepLocalKeepsOthers(f: Forest, child: EntityReference, parent: EntityReference, x: EntityReference)
    requires IsForest(f) && child in f && x in f
    requires parent != NONE ==> parent in f && parent != child && child !in Ancestors(f, parent)
    ensures child != parent
    ensures var g := Reparented(f, child, parent, f[child].local);
            && x in g && IsRooted(g, x) && g[x].local == f[x].local
            && (x != child && child !in Ancestors(f, x) ==> World(g, x) == World(f, x))
  {
    ReparentedIsForest(f, child, parent, f[child].local);
    var g := Reparented(f, child, parent, f[child].local);
    if x != child && child !in Ancestors(f, x) {
      AncestorsKept(f, g, child, x);
    }
  }

  /** One step of a walk up the parent links. */
  lemma AncestorsStep(f: Forest, r: EntityReference)
    requires IsForest(f) && r in f
    ensures f[r].parent == NONE ==> Ancestors(f, r) == [] && World(f, r) == f[r].local
    ensures f[r].parent != NONE ==>
              && f[r].parent in f
              && Ancestors(f, r) == [f[r].parent] + Ancestors(f, f[r].parent)
              && World(f, r) == Mul(World(f, f[r].parent), f[r].local)
  {
    hide Mul, ParentsMatch, IsAffine, Distinct;
    var p := Ancestors(f, r);
    if p != [] {
      PathUnique(f, p[0], p[1..], Ancestors(f, p[0]));
      assert p == [p[0]] + p[1..];
    }
  }

  // ----------------------------------------------------------- destruction

  lemma DetachedEntry(f: Forest, c: EntityReference, x: EntityReference)
    requires c in f && x in f && f[c].parent != c
    ensures Detached(f, c)[x] == Entry(if x == c then NONE else f[x].parent,
                                       if x == f[c].parent then Removed(f[x].children, c) else f[x].children,
                                       f[x].local)
  {
  }

  lemma DestroyedEntry(f: Forest, r: EntityReference, x: EntityReference)
    requires x in f && x != r
    ensures x in Destroyed(f, r)
    ensures Destroyed(f, r)[x] == Entry(if f[x].parent == r then NONE else f[x].parent,
                                        Removed(f[x].children, r), f[x].local)
  {
  }

  lemma SameKeys(f: Forest, r: EntityReference, c: EntityReference)
    requires c in f
    ensures Detached(f, c).Keys == f.Keys
    ensures Destroyed(f, r).Keys == f.Keys - {r} && Destroyed(Detached(f, c), r).Keys == f.Keys - {r}
  {
  }

  lemma RemovedTwice(f: Forest, c: EntityReference)
    requires IsForest(f) && c in f
    ensures f[c].parent != c
    ensures f[c].parent in f ==>
              var s := f[f[c].parent].children;
              Removed(Removed(s, c), c) == Removed(s, c)
  {
    NotItsOwnAncestor(f, c);
    ParentIsAncestor(f, c);
    if f[c].parent in f {
      var s := f[f[c].parent].children;
      RemovedElements(s, c);
      RemovedAbsent(Removed(s, c), c);
    }
  }

  /** Detaching the doomed entity or one of its children does not change what destroying it gives. */
  lemma DestroyedAfterDetach(f: Forest, r: EntityReference, c: EntityReference)
    requires IsForest(f) && r in f && c in f && (c == r || f[c].parent == r)
    ensures Destroyed(Detached(f, c), r) == Destroyed(f, r)
  {
    hide *;
    RemovedTwice(f, c);
    var d := Detached(f, c);
    SameKeys(f, r, c);
    forall x | x in f && x != r
      ensures x in Destroyed(d, r) && x in Destroyed(f, r) && Destroyed(d, r)[x] == Destroyed(f, r)[x]
    {
      DetachedEntry(f, c, x);
      DestroyedEntry(f, r, x);
      DestroyedEntry(d, r, x);
    }
  }

  lemma DestroyedIsolated(f: Forest, r: EntityReference)
    requires IsForest(f) && r in f && f[r].parent == NONE && f[r].children == []
    ensures Destroyed(f, r) == map x | x in f && x != r :: f[x]
  {
    forall x | x in f && x != r
      ensures Destroyed(f, r)[x] == f[x]
    {
      assert r !in f[x].children;
      RemovedAbsent(f[x].children, r);
      assert f[x].parent != NONE ==> x in f[f[x].parent].children;
    }
  }
}

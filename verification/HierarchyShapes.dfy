// What creating, destroying and moving an entity does to the hierarchy, link by link, and where its points come to lie.
module HierarchyShapes {
  import opened Reordering
  import opened Matrices
  import opened HierarchySpec

  /** The second list is the first without the element, which stands in it once. */
  ghost predicate IsWithout(s: seq<EntityReference>, x: EntityReference, t: seq<EntityReference>) {
    exists k :: 0 <= k < |s| && s[k] == x && t == s[..k] + s[k + 1..]
  }

  /** A new root without children; every other entity is as before. */
  ghost predicate IsBorn(f: Forest, g: Forest, x: EntityReference) {
    && x !in f && g.Keys == f.Keys + {x}
    && g[x].parent == NONE && g[x].children == [] && g[x].local == IDENTITY
    && forall y :: y in f ==> g[y] == f[y]
  }

  /** The entity is gone, its children are roots, and it has left the children of its parent. */
  ghost predicate IsGone(f: Forest, g: Forest, x: EntityReference) {
    && x in f && g.Keys == f.Keys - {x}
    && forall y :: y in g ==>
         && g[y].local == f[y].local
         && g[y].parent == (if f[y].parent == x then NONE else f[y].parent)
         && if y == f[x].parent then IsWithout(f[y].children, x, g[y].children) else g[y].children == f[y].children
  }

  /** The child has left its old siblings and come last below its new parent; every other link is as before. */
  ghost predicate IsMoved(f: Forest, g: Forest, child: EntityReference, parent: EntityReference) {
    && child in f && (parent != NONE ==> parent in f && parent != child) && f[child].parent != parent
    && g.Keys == f.Keys
    && g[child].parent == parent && g[child].children == f[child].children
    && forall y :: y in f && y != child ==>
         && g[y].parent == f[y].parent && g[y].local == f[y].local
         && if y == parent then g[y].children == f[y].children + [child]
            else if y == f[child].parent then IsWithout(f[y].children, child, g[y].children)
            else g[y].children == f[y].children
  }

  // ------------------------------------------------------- the operations

  lemma CreatedIsBorn(f: Forest, x: EntityReference)
    requires x !in f
    ensures IsBorn(f, Created(f, x), x)
  {
  }

  lemma RemovedIsWithout(s: seq<EntityReference>, x: EntityReference)
    requires Distinct(s) && x in s
    ensures IsWithout(s, x, Removed(s, x))
  {
    var k :| 0 <= k < |s| && s[k] == x;
    RemovedAt(s, k);
  }

  lemma DestroyedIsGone(f: Forest, x: EntityReference)
    requires IsForest(f) && x in f
    ensures IsGone(f, Destroyed(f, x), x)
  {
    hide IsRooted, IsWithout, Removed, IsAffine;
    var g := Destroyed(f, x);
    forall y | y in g
      ensures if y == f[x].parent then IsWithout(f[y].children, x, g[y].children) else g[y].children == f[y].children
    {
      if y == f[x].parent {
        RemovedIsWithout(f[y].children, x);
      } else {
        RemovedAbsent(f[y].children, x);
      }
    }
  }

  lemma ReparentedIsMoved(f: Forest, child: EntityReference, parent: EntityReference, local: Mat4)
    requires IsForest(f) && child in f && (parent == NONE || parent in f) && parent != child
    requires f[child].parent != parent
    ensures IsMoved(f, Reparented(f, child, parent, local), child, parent)
  {
    hide ParentsMatch, IsRooted, IsAffine, Distinct, IsWithout, Detached, Attached;
    DetachedShape(f, child);
    AttachedShape(Detached(f, child), child, parent, local);
  }

  lemma DetachedShape(f: Forest, child: EntityReference)
    requires IsForest(f) && child in f
    ensures var d := Detached(f, child);
      && d.Keys == f.Keys && d[child].children == f[child].children
      && forall y :: y in f && y != child ==>
           && d[y].parent == f[y].parent && d[y].local == f[y].local
           && if y == f[child].parent then IsWithout(f[y].children, child, d[y].children)
              else d[y].children == f[y].children
  {
    hide IsRooted, IsWithout, Removed, IsAffine;
    var was := f[child].parent;
    if was != NONE {
      NotItsOwnParent(f, child);
      RemovedIsWithout(f[was].children, child);
    }
  }

  lemma AttachedShape(d: Forest, child: EntityReference, parent: EntityReference, local: Mat4)
    requires NONE !in d && child in d && (parent == NONE || parent in d) && parent != child
    ensures var g := Attached(d, child, parent, local);
      && g.Keys == d.Keys && g[child].parent == parent && g[child].local == local && g[child].children == d[child].children
      && forall y :: y in d && y != child ==>
           && g[y].parent == d[y].parent && g[y].local == d[y].local
           && g[y].children == if y == parent then d[y].children + [child] else d[y].children
  {
  }

  lemma NotItsOwnParent(f: Forest, child: EntityReference)
    requires IsForest(f) && child in f && f[child].parent != NONE
    ensures f[child].parent != child && f[child].parent in f
  {
    NotItsOwnAncestor(f, child);
    ParentIsAncestor(f, child);
  }

  /**
   * A point of an entity goes through its own transform first, then through that of its parent, and so on up to the root.
   */
  lemma WorldGoesUp(f: Forest, r: EntityReference, point: Vec4)
    requires IsForest(f) && r in f
    ensures f[r].parent == NONE ==> Apply(World(f, r), point) == Apply(f[r].local, point)
    ensures f[r].parent != NONE ==>
      f[r].parent in f && Apply(World(f, r), point) == Apply(World(f, f[r].parent), Apply(f[r].local, point))
  {
    hide Mul, Apply, IsAffine, Distinct;
    if f[r].parent != NONE {
      AncestorsStep(f, r);
      ApplyMul(World(f, f[r].parent), f[r].local, point);
    }
  }
}

/** The node array of ecs/internal/topology.h, and when it represents a forest value. */
module HierarchyLinks {
  import opened Matrices
  import opened Reordering
  import opened HierarchySpec

  datatype TopologyNode = TopologyNode(
    identity: Entity,
    parent: EntityReference,
    firstChild: EntityReference,
    lastChild: EntityReference,
    previousSibling: EntityReference,
    nextSibling: EntityReference,
    local: Mat4)

  const EMPTY_NODE := TopologyNode(Entity(INVALID_INDEX, 0), NONE, NONE, NONE, NONE, NONE, IDENTITY)

  /** Whether a reference names the entity that now occupies its slot. */
  predicate IsAliveIn(worldId: nat, nodes: seq<TopologyNode>, r: EntityReference) {
    && r.worldId == worldId
    && r.identity.index != INVALID_INDEX
    && r.identity.index < |nodes|
    && nodes[r.identity.index].identity == r.identity
  }

  function First(s: seq<EntityReference>): EntityReference { if s == [] then NONE else s[0] }

  function Last(s: seq<EntityReference>): EntityReference { if s == [] then NONE else s[|s| - 1] }

  function Before(s: seq<EntityReference>, k: nat): EntityReference
    requires k < |s|
  {
    if k == 0 then NONE else s[k - 1]
  }

  function After(s: seq<EntityReference>, k: nat): EntityReference
    requires k < |s|
  {
    if k + 1 == |s| then NONE else s[k + 1]
  }

  /** The slots hold exactly the entities of the forest; every other slot is empty. */
  ghost predicate SlotsMatch(worldId: nat, nodes: seq<TopologyNode>, f: Forest) {
    && 0 < worldId
    && |nodes| <= INVALID_INDEX
    && (forall r :: r in f <==> IsAliveIn(worldId, nodes, r))
    && (forall i :: 0 <= i < |nodes| ==> nodes[i].identity.index == i || nodes[i] == EMPTY_NODE)
  }

  ghost predicate EntryMatches(node: TopologyNode, entry: Entry) {
    && node.parent == entry.parent
    && node.firstChild == First(entry.children)
    && node.lastChild == Last(entry.children)
    && node.local == entry.local
  }

  ghost predicate EntriesMatch(nodes: seq<TopologyNode>, f: Forest)
    requires forall r :: r in f ==> r.identity.index < |nodes|
  {
    forall r :: r in f ==> EntryMatches(nodes[r.identity.index], f[r])
  }

  /** The previous and next links of the nodes named by s are the neighbours in s. */
  ghost predicate Chained(nodes: seq<TopologyNode>, s: seq<EntityReference>)
    requires forall k :: 0 <= k < |s| ==> s[k].identity.index < |nodes|
  {
    forall k: nat :: k < |s| ==>
      && nodes[s[k].identity.index].previousSibling == Before(s, k)
      && nodes[s[k].identity.index].nextSibling == After(s, k)
  }

  ghost predicate SiblingsMatch(nodes: seq<TopologyNode>, f: Forest)
    requires forall r :: r in f ==> r.identity.index < |nodes|
  {
    && (forall r :: r in f ==> (forall c :: c in f[r].children ==> c in f) && Chained(nodes, f[r].children))
    && (forall r :: r in f && f[r].parent == NONE ==>
          nodes[r.identity.index].previousSibling == NONE && nodes[r.identity.index].nextSibling == NONE)
  }

  /** The linked nodes represent the forest. */
  ghost predicate Represents(worldId: nat, nodes: seq<TopologyNode>, f: Forest) {
    && SlotsMatch(worldId, nodes, f)
    && EntriesMatch(nodes, f)
    && SiblingsMatch(nodes, f)
  }

  lemma SlotsAreInjective(worldId: nat, nodes: seq<TopologyNode>, f: Forest, a: EntityReference, b: EntityReference)
    requires SlotsMatch(worldId, nodes, f) && a in f && b in f && a.identity.index == b.identity.index
    ensures a == b
  {
  }

  // ------------------------------------------------------------- unlinking

  /** What node i becomes when r is unlinked from its siblings and its parent. */
  function Unlinked(nodes: seq<TopologyNode>, r: EntityReference, i: nat): TopologyNode
    requires i < |nodes| && r.identity.index < |nodes|
  {
    var gone := nodes[r.identity.index];
    if i == r.identity.index then gone.(parent := NONE, nextSibling := NONE, previousSibling := NONE)
    else nodes[i].(
      nextSibling :=
        if gone.previousSibling != NONE && i == gone.previousSibling.identity.index then gone.nextSibling
        else nodes[i].nextSibling,
      previousSibling :=
        if gone.nextSibling != NONE && i == gone.nextSibling.identity.index then gone.previousSibling
        else nodes[i].previousSibling,
      firstChild :=
        if gone.previousSibling == NONE && gone.parent != NONE && i == gone.parent.identity.index
        then gone.nextSibling else nodes[i].firstChild,
      lastChild :=
        if gone.nextSibling == NONE && gone.parent != NONE && i == gone.parent.identity.index
        then gone.previousSibling else nodes[i].lastChild)
  }

  lemma ChainAt(worldId: nat, nodes: seq<TopologyNode>, f: Forest, p: EntityReference, k: nat)
    requires IsForest(f) && Represents(worldId, nodes, f) && p in f && k < |f[p].children|
    ensures Distinct(f[p].children)
    ensures var s := f[p].children;
            && s[k] in f && s[k].identity.index < |nodes| && f[s[k]].parent == p
            && nodes[s[k].identity.index].previousSibling == Before(s, k)
            && nodes[s[k].identity.index].nextSibling == After(s, k)
  {
    hide IsRooted, IsAffine, EntryMatches, Before, After, Distinct;
    assert f[p].children[k] in f[p].children;
    assert Chained(nodes, f[p].children);
  }

  lemma ParentOf(f: Forest, r: EntityReference)
    requires IsForest(f) && r in f && f[r].parent != NONE
    ensures f[r].parent in f && f[r].parent != r && r in f[f[r].parent].children
  {
    NotItsOwnAncestor(f, r);
    ParentIsAncestor(f, r);
  }

  lemma EntryAt(worldId: nat, nodes: seq<TopologyNode>, f: Forest, x: EntityReference)
    requires Represents(worldId, nodes, f) && x in f
    ensures x.identity.index < |nodes| && EntryMatches(nodes[x.identity.index], f[x])
  {
  }

  /** Where an entity stands among its siblings, and what its links therefore are. */
  lemma Position(worldId: nat, nodes: seq<TopologyNode>, f: Forest, r: EntityReference) returns (k: nat)
    requires IsForest(f) && Represents(worldId, nodes, f) && r in f && f[r].parent != NONE
    ensures f[r].parent in f && f[r].parent != r
    ensures var s := f[f[r].parent].children;
            && k < |s| && s[k] == r
            && nodes[r.identity.index].previousSibling == Before(s, k)
            && nodes[r.identity.index].nextSibling == After(s, k)
  {
    hide IsForest, Represents, Before, After;
    ParentOf(f, r);
    var s := f[f[r].parent].children;
    k :| 0 <= k < |s| && s[k] == r;
    ChainAt(worldId, nodes, f, f[r].parent, k);
  }

  /** Neighbours are live, differ from the entity and from its parent, and share the parent. */
  lemma Neighbours(worldId: nat, nodes: seq<TopologyNode>, f: Forest, r: EntityReference)
    requires IsForest(f) && Represents(worldId, nodes, f) && r in f
    ensures r.identity.index < |nodes|
    ensures var node := nodes[r.identity.index];
            && (node.parent != NONE ==> node.parent in f && node.parent != r)
            && (node.previousSibling != NONE ==>
                  node.previousSibling in f && node.previousSibling != r &&
                  f[node.previousSibling].parent == node.parent && node.parent != NONE)
            && (node.nextSibling != NONE ==>
                  node.nextSibling in f && node.nextSibling != r &&
                  f[node.nextSibling].parent == node.parent && node.parent != NONE)
            && (node.nextSibling != NONE ==> node.nextSibling != node.previousSibling)
  {
    hide IsPath, IsRooted, IsAffine;
    if f[r].parent != NONE {
      var k := Position(worldId, nodes, f, r);
      var s := f[f[r].parent].children;
      assert k > 0 ==> s[k - 1] in s && s[k - 1] != s[k];
      assert k + 1 < |s| ==> s[k + 1] in s && s[k] != s[k + 1];
      assert k > 0 && k + 1 < |s| ==> s[k - 1] != s[k + 1];
    }
  }

  lemma UnlinkedSlots(worldId: nat, nodes: seq<TopologyNode>, after: seq<TopologyNode>, f: Forest, r: EntityReference)
    requires SlotsMatch(worldId, nodes, f) && r in f && |after| == |nodes|
    requires forall i: nat :: i < |nodes| ==> after[i].identity == nodes[i].identity
    requires forall i: nat :: i < |nodes| && nodes[i] == EMPTY_NODE ==> after[i] == EMPTY_NODE
    ensures SlotsMatch(worldId, after, Detached(f, r))
  {
    assert forall x :: IsAliveIn(worldId, after, x) <==> IsAliveIn(worldId, nodes, x);
  }

  lemma EmptyStaysEmpty(worldId: nat, nodes: seq<TopologyNode>, f: Forest, r: EntityReference, i: nat)
    requires IsForest(f) && Represents(worldId, nodes, f) && r in f
    requires i < |nodes| && nodes[i] == EMPTY_NODE && r.identity.index < |nodes|
    ensures Unlinked(nodes, r, i) == EMPTY_NODE
  {
    Neighbours(worldId, nodes, f, r);
  }

  lemma UnlinkedParentEntry(worldId: nat, nodes: seq<TopologyNode>, f: Forest, r: EntityReference)
    requires IsForest(f) && Represents(worldId, nodes, f) && r in f && f[r].parent != NONE
    ensures f[r].parent in f && f[r].parent.identity.index < |nodes| && r.identity.index < |nodes|
    ensures EntryMatches(Unlinked(nodes, r, f[r].parent.identity.index), Detached(f, r)[f[r].parent])
  {
    hide IsForest, Represents, Detached;
    var x := f[r].parent;
    var k := Position(worldId, nodes, f, r);
    var s := f[x].children;
    ChainAt(worldId, nodes, f, x, k);
    EntryAt(worldId, nodes, f, x);
    EntryAt(worldId, nodes, f, r);
    DifferentSlots(worldId, nodes, f, x, r);
    DetachedEntry(f, r, x);
    RemovedAt(s, k);
    EndsWithout(f, s, k);
    NoNoneIn(f, x);
  }

  lemma NoNoneIn(f: Forest, x: EntityReference)
    requires IsForest(f) && x in f
    ensures NONE !in f && forall c :: c in f[x].children ==> c in f
  {
  }

  lemma EndsWithout(f: Forest, s: seq<EntityReference>, k: nat)
    requires k < |s|
    ensures First(s[..k] + s[k + 1..]) == if k == 0 then After(s, k) else First(s)
    ensures Last(s[..k] + s[k + 1..]) == if k + 1 == |s| then Before(s, k) else Last(s)
  {
  }

  lemma DifferentSlots(worldId: nat, nodes: seq<TopologyNode>, f: Forest, a: EntityReference, b: EntityReference)
    requires Represents(worldId, nodes, f) && a in f && b in f && a != b
    ensures a.identity.index != b.identity.index
  {
  }

  lemma UnlinkedEntries(worldId: nat, nodes: seq<TopologyNode>, after: seq<TopologyNode>, f: Forest,
                        r: EntityReference, x: EntityReference)
    requires IsForest(f) && Represents(worldId, nodes, f) && r in f && |after| == |nodes| && x in f
    requires x.identity.index < |nodes| && r.identity.index < |nodes|
    requires after[x.identity.index] == Unlinked(nodes, r, x.identity.index)
    ensures EntryMatches(after[x.identity.index], Detached(f, r)[x])
  {
    hide IsForest, Represents, Detached, Removed, First, Last;
    NoNoneIn(f, r);
    if f[r].parent != NONE {
      UnlinkedParentEntry(worldId, nodes, f, r);
      ParentOf(f, r);
    }
    EntryAt(worldId, nodes, f, x);
    EntryAt(worldId, nodes, f, r);
    if x == r {
      SelfIsNoParent(f, r);
      DetachedEntry(f, r, x);
    } else if x != f[r].parent {
      SelfIsNoParent(f, r);
      DetachedEntry(f, r, x);
      DifferentSlots(worldId, nodes, f, x, r);
      if f[r].parent != NONE {
        DifferentSlots(worldId, nodes, f, x, f[r].parent);
      }
    }
  }

  lemma SelfIsNoParent(f: Forest, r: EntityReference)
    requires IsForest(f) && r in f
    ensures f[r].parent != r
  {
    if f[r].parent != NONE {
      ParentOf(f, r);
    }
  }

  /** The sibling links of any other node after unlinking r. */
  lemma UnlinkedSibling(worldId: nat, nodes: seq<TopologyNode>, f: Forest, r: EntityReference, x: EntityReference)
    requires IsForest(f) && Represents(worldId, nodes, f) && r in f && x in f && x != r
    ensures x.identity.index < |nodes| && r.identity.index < |nodes|
    ensures var node, gone, now := nodes[x.identity.index], nodes[r.identity.index], Unlinked(nodes, r, x.identity.index);
            && now.previousSibling ==
                 (if gone.nextSibling != NONE && x == gone.nextSibling then gone.previousSibling else node.previousSibling)
            && now.nextSibling ==
                 (if gone.previousSibling != NONE && x == gone.previousSibling then gone.nextSibling else node.nextSibling)
  {
    Neighbours(worldId, nodes, f, r);
    hide IsForest;
    var gone := nodes[r.identity.index];
    if x.identity.index == r.identity.index {
      SlotsAreInjective(worldId, nodes, f, x, r);
    }
    if gone.nextSibling != NONE && x.identity.index == gone.nextSibling.identity.index {
      SlotsAreInjective(worldId, nodes, f, x, gone.nextSibling);
    }
    if gone.previousSibling != NONE && x.identity.index == gone.previousSibling.identity.index {
      SlotsAreInjective(worldId, nodes, f, x, gone.previousSibling);
    }
  }

  ghost predicate UnlinkedFrom(nodes: seq<TopologyNode>, after: seq<TopologyNode>, r: EntityReference)
  {
    && r.identity.index < |nodes| == |after|
    && forall i: nat :: i < |nodes| ==> after[i] == Unlinked(nodes, r, i)
  }

  /** Where the neighbours of an element are once the k-th has gone. */
  lemma NeighboursWithout(s: seq<EntityReference>, k: nat, j: nat)
    requires k < |s| && j < |s| - 1
    ensures var t, i := s[..k] + s[k + 1..], if j < k then j else j + 1;
            && t[j] == s[i]
            && Before(t, j) == (if i == k + 1 then Before(s, k) else Before(s, i))
            && After(t, j) == (if i + 1 == k then After(s, k) else After(s, i))
  {
  }

  /** The list that lost r is chained again. */
  lemma UnlinkedOwnList(worldId: nat, nodes: seq<TopologyNode>, after: seq<TopologyNode>, f: Forest, r: EntityReference)
    requires IsForest(f) && Represents(worldId, nodes, f) && r in f && f[r].parent in f
    requires UnlinkedFrom(nodes, after, r)
    ensures var s := Removed(f[f[r].parent].children, r);
            && (forall j :: 0 <= j < |s| ==> s[j].identity.index < |nodes|)
            && Chained(after, s)
  {
    hide IsForest, Represents, Before, After, UnlinkedFrom, Unlinked, Distinct;
    NoNoneIn(f, r);
    var k := Position(worldId, nodes, f, r);
    var s := f[f[r].parent].children;
    ChainAt(worldId, nodes, f, f[r].parent, k);
    RemovedAt(s, k);
    var t := s[..k] + s[k + 1..];
    assert Removed(s, r) == t;
    forall j: nat | j < |t|
      ensures t[j].identity.index < |nodes| == |after|
      ensures after[t[j].identity.index].previousSibling == Before(t, j)
      ensures after[t[j].identity.index].nextSibling == After(t, j)
    {
      OneUnlinkedSibling(worldId, nodes, after, f, r, k, j);
    }
  }

  lemma OneUnlinkedSibling(worldId: nat, nodes: seq<TopologyNode>, after: seq<TopologyNode>, f: Forest,
                           r: EntityReference, k: nat, j: nat)
    requires IsForest(f) && Represents(worldId, nodes, f) && r in f && f[r].parent in f
    requires UnlinkedFrom(nodes, after, r)
    requires var s := f[f[r].parent].children;
             && k < |s| && s[k] == r && j < |s| - 1
             && r.identity.index < |nodes|
             && nodes[r.identity.index].previousSibling == Before(s, k)
             && nodes[r.identity.index].nextSibling == After(s, k)
    ensures var s := f[f[r].parent].children;
            var t := s[..k] + s[k + 1..];
            && t[j].identity.index < |nodes| == |after|
            && after[t[j].identity.index].previousSibling == Before(t, j)
            && after[t[j].identity.index].nextSibling == After(t, j)
  {
    var s := f[f[r].parent].children;
    var i := if j < k then j else j + 1;
    var x := s[i];
    hide *;
    NeighboursWithout(s, k, j);
    ChainAt(worldId, nodes, f, f[r].parent, i);
    DifferentElements(s, i, k);
    UnlinkedSibling(worldId, nodes, f, r, x);
    UnlinkedOne(nodes, after, r, x);
    NoNoneIn(f, f[r].parent);
    NoneIsNotIn(f, s, i, k);
  }

  lemma DifferentElements(s: seq<EntityReference>, i: nat, j: nat)
    requires Distinct(s) && i < |s| && j < |s| && i != j
    ensures s[i] != s[j]
  {
  }

  lemma NoneIsNotIn(f: Forest, s: seq<EntityReference>, i: nat, k: nat)
    requires NONE !in f && (forall c :: c in s ==> c in f) && i < |s| && Distinct(s) && k < |s|
    ensures After(s, k) == s[i] <==> i == k + 1
    ensures Before(s, k) == s[i] <==> i + 1 == k
    ensures s[i] != NONE
  {
    assert s[i] in s;
    assert k + 1 < |s| && k + 1 < i ==> s[k + 1] != s[i];
    assert k + 1 < |s| && i < k + 1 ==> s[i] != s[k + 1];
    assert 0 < k && k - 1 < i ==> s[k - 1] != s[i];
    assert 0 < k && i < k - 1 ==> s[i] != s[k - 1];
  }

  /** Every other list keeps its chain. */
  lemma UnlinkedOtherList(worldId: nat, nodes: seq<TopologyNode>, after: seq<TopologyNode>, f: Forest,
                          r: EntityReference, p: EntityReference)
    requires IsForest(f) && Represents(worldId, nodes, f) && r in f && p in f && p != f[r].parent
    requires UnlinkedFrom(nodes, after, r)
    ensures forall j :: 0 <= j < |f[p].children| ==> f[p].children[j].identity.index < |nodes|
    ensures Chained(after, f[p].children)
  {
    hide IsPath, IsRooted, IsAffine;
    var s := f[p].children;
    Neighbours(worldId, nodes, f, r);
    hide IsForest, Represents, UnlinkedFrom, Unlinked, Before, After, Distinct;
    forall j: nat | j < |s|
      ensures s[j].identity.index < |nodes| == |after|
      ensures after[s[j].identity.index].previousSibling == Before(s, j)
      ensures after[s[j].identity.index].nextSibling == After(s, j)
    {
      var x := s[j];
      ChainAt(worldId, nodes, f, p, j);
      EntryAt(worldId, nodes, f, r);
      UnlinkedSibling(worldId, nodes, f, r, x);
      UnlinkedOne(nodes, after, r, x);
    }
  }

  lemma UnlinkedRoot(worldId: nat, nodes: seq<TopologyNode>, after: seq<TopologyNode>, f: Forest,
                     r: EntityReference, x: EntityReference)
    requires IsForest(f) && Represents(worldId, nodes, f) && r in f && x in f && (x == r || f[x].parent == NONE)
    requires UnlinkedFrom(nodes, after, r)
    ensures x.identity.index < |nodes|
    ensures after[x.identity.index].previousSibling == NONE && after[x.identity.index].nextSibling == NONE
  {
    hide IsPath, IsRooted, IsAffine;
    if x != r {
      UnlinkedSibling(worldId, nodes, f, r, x);
      Neighbours(worldId, nodes, f, r);
    }
  }

  lemma UnlinkedKeepsSlots(worldId: nat, nodes: seq<TopologyNode>, after: seq<TopologyNode>, f: Forest,
                           r: EntityReference)
    requires IsForest(f) && Represents(worldId, nodes, f) && r in f
    requires UnlinkedFrom(nodes, after, r)
    ensures SlotsMatch(worldId, after, Detached(f, r))
    ensures forall x :: x in f ==> x.identity.index < |nodes| == |after|
  {
    hide IsForest, EntriesMatch, SiblingsMatch;
    forall i: nat | i < |nodes| && nodes[i] == EMPTY_NODE
      ensures after[i] == EMPTY_NODE
    {
      EmptyStaysEmpty(worldId, nodes, f, r, i);
    }
    UnlinkedSlots(worldId, nodes, after, f, r);
  }

  /** Unlinking one node represents detaching the entity. */
  lemma UnlinkedRepresents(worldId: nat, nodes: seq<TopologyNode>, after: seq<TopologyNode>, f: Forest,
                           r: EntityReference)
    requires IsForest(f) && Represents(worldId, nodes, f) && r in f
    requires UnlinkedFrom(nodes, after, r)
    ensures IsForest(Detached(f, r)) && Represents(worldId, after, Detached(f, r))
  {
    hide Represents, IsForest;
    var g := Detached(f, r);
    assert g.Keys == f.Keys && forall x :: x in g <==> x in f;
    DetachedIsForest(f, r);
    SelfIsNoParent(f, r);
    NoNoneIn(f, r);
    UnlinkedKeepsSlots(worldId, nodes, after, f, r);
    forall x | x in g
      ensures EntryMatches(after[x.identity.index], g[x])
    {
      UnlinkedOne(nodes, after, r, x);
      UnlinkedEntries(worldId, nodes, after, f, r, x);
    }
    forall x | x in g
      ensures (forall c :: c in g[x].children ==> c in g) && Chained(after, g[x].children)
    {
      NoNoneIn(g, x);
      DetachedEntry(f, r, x);
      if x == f[r].parent {
        UnlinkedOwnList(worldId, nodes, after, f, r);
      } else {
        UnlinkedOtherList(worldId, nodes, after, f, r, x);
      }
    }
    forall x | x in g && g[x].parent == NONE
      ensures after[x.identity.index].previousSibling == NONE && after[x.identity.index].nextSibling == NONE
    {
      DetachedEntry(f, r, x);
      UnlinkedRoot(worldId, nodes, after, f, r, x);
    }
    RepresentsByParts(worldId, after, g);
  }

  lemma UnlinkedOne(nodes: seq<TopologyNode>, after: seq<TopologyNode>, r: EntityReference, x: EntityReference)
    requires UnlinkedFrom(nodes, after, r) && x.identity.index < |nodes|
    ensures r.identity.index < |nodes| == |after|
    ensures after[x.identity.index] == Unlinked(nodes, r, x.identity.index)
  {
  }

  lemma RepresentsByParts(worldId: nat, nodes: seq<TopologyNode>, f: Forest)
    requires SlotsMatch(worldId, nodes, f)
    requires forall r :: r in f ==> r.identity.index < |nodes| && EntryMatches(nodes[r.identity.index], f[r])
    requires forall r :: r in f ==> (forall c :: c in f[r].children ==> c in f) && Chained(nodes, f[r].children)
    requires forall r :: r in f && f[r].parent == NONE ==>
      nodes[r.identity.index].previousSibling == NONE && nodes[r.identity.index].nextSibling == NONE
    ensures Represents(worldId, nodes, f)
  {
  }

  // --------------------------------------------------------------- linking

  /** What node i becomes when child, a root, is appended to the children of parent. */
  function Linked(nodes: seq<TopologyNode>, child: EntityReference, parent: EntityReference, local: Mat4, i: nat):
    TopologyNode
    requires i < |nodes| && (parent == NONE || parent.identity.index < |nodes|)
  {
    if i == child.identity.index then
      nodes[i].(parent := parent, local := local,
        previousSibling := if parent == NONE then nodes[i].previousSibling else nodes[parent.identity.index].lastChild)
    else if parent == NONE then nodes[i]
    else
      var last := nodes[parent.identity.index].lastChild;
      nodes[i].(
        lastChild := if i == parent.identity.index then child else nodes[i].lastChild,
        firstChild := if i == parent.identity.index && last == NONE then child else nodes[i].firstChild,
        nextSibling := if last != NONE && i == last.identity.index then child else nodes[i].nextSibling)
  }

  ghost predicate LinkedFrom(nodes: seq<TopologyNode>, after: seq<TopologyNode>, child: EntityReference,
                             parent: EntityReference, local: Mat4)
  {
    && (parent == NONE || parent.identity.index < |nodes|)
    && |nodes| == |after|
    && forall i: nat :: i < |nodes| ==> after[i] == Linked(nodes, child, parent, local, i)
  }

  /** The last child of the parent, if it has any, is live, below the parent, and neither child nor parent. */
  lemma LastChildOf(worldId: nat, nodes: seq<TopologyNode>, f: Forest, child: EntityReference, parent: EntityReference)
    requires IsForest(f) && Represents(worldId, nodes, f) && child in f && parent in f && f[child].parent == NONE
    ensures parent.identity.index < |nodes|
    ensures var s, last := f[parent].children, nodes[parent.identity.index].lastChild;
            && (last == NONE <==> s == [])
            && (last != NONE ==> last == s[|s| - 1] && last in f && f[last].parent == parent)
            && last != child && last != parent
  {
    hide IsForest, Represents, Before, After, Distinct;
    EntryAt(worldId, nodes, f, parent);
    NoNoneIn(f, parent);
    NoNoneIn(f, child);
    SelfIsNoParent(f, parent);
    var s := f[parent].children;
    if s != [] {
      assert s[|s| - 1] in s;
      ChainAt(worldId, nodes, f, parent, |s| - 1);
    }
  }

  lemma AttachedEntry(f: Forest, child: EntityReference, parent: EntityReference, local: Mat4, x: EntityReference)
    requires child in f && (parent == NONE || parent in f) && child != parent && x in f && NONE !in f
    ensures var g := Attached(f, child, parent, local);
            && x in g
            && g[x].parent == (if x == child then parent else f[x].parent)
            && g[x].local == (if x == child then local else f[x].local)
            && g[x].children == if x == parent then f[x].children + [child] else f[x].children
  {
  }

  lemma LinkedOne(nodes: seq<TopologyNode>, after: seq<TopologyNode>, child: EntityReference,
                  parent: EntityReference, local: Mat4, x: EntityReference)
    requires LinkedFrom(nodes, after, child, parent, local) && x.identity.index < |nodes|
    ensures |after| == |nodes| && (parent == NONE || parent.identity.index < |nodes|)
    ensures after[x.identity.index] == Linked(nodes, child, parent, local, x.identity.index)
  {
  }

  lemma LinkedKeepsSlots(worldId: nat, nodes: seq<TopologyNode>, after: seq<TopologyNode>, f: Forest,
                         child: EntityReference, parent: EntityReference, local: Mat4)
    requires IsForest(f) && Represents(worldId, nodes, f) && child in f && f[child].parent == NONE
    requires parent != NONE ==> parent in f && parent != child
    requires LinkedFrom(nodes, after, child, parent, local)
    ensures child != parent
    ensures SlotsMatch(worldId, after, Attached(f, child, parent, local))
    ensures forall x :: x in f ==> x.identity.index < |nodes| == |after|
  {
    hide IsForest, EntriesMatch, SiblingsMatch;
    NoNoneIn(f, child);
    if parent != NONE {
      LastChildOf(worldId, nodes, f, child, parent);
    }
    forall i: nat | i < |nodes| && nodes[i] == EMPTY_NODE
      ensures after[i] == EMPTY_NODE
    {
    }
    assert forall i: nat :: i < |nodes| ==> after[i].identity == nodes[i].identity;
    assert forall x :: IsAliveIn(worldId, after, x) <==> IsAliveIn(worldId, nodes, x);
  }

  lemma LinkedEntries(worldId: nat, nodes: seq<TopologyNode>, after: seq<TopologyNode>, f: Forest,
                      child: EntityReference, parent: EntityReference, local: Mat4, x: EntityReference)
    requires IsForest(f) && Represents(worldId, nodes, f) && child in f && f[child].parent == NONE && x in f
    requires parent != NONE ==> parent in f && parent != child
    requires LinkedFrom(nodes, after, child, parent, local)
    ensures child != parent && x.identity.index < |after|
    ensures EntryMatches(after[x.identity.index], Attached(f, child, parent, local)[x])
  {
    hide IsForest, Represents, LinkedFrom, Attached;
    NoNoneIn(f, child);
    EntryAt(worldId, nodes, f, x);
    LinkedOne(nodes, after, child, parent, local, x);
    AttachedEntry(f, child, parent, local, x);
    if parent != NONE {
      LastChildOf(worldId, nodes, f, child, parent);
      if x != parent {
        DifferentSlots(worldId, nodes, f, x, parent);
      }
    }
    if x != child {
      DifferentSlots(worldId, nodes, f, x, child);
    }
  }

  lemma RootLinks(worldId: nat, nodes: seq<TopologyNode>, f: Forest, r: EntityReference)
    requires Represents(worldId, nodes, f) && r in f && f[r].parent == NONE
    ensures r.identity.index < |nodes|
    ensures nodes[r.identity.index].previousSibling == NONE && nodes[r.identity.index].nextSibling == NONE
  {
  }

  /** The sibling links of the nodes after appending. */
  lemma LinkedSibling(worldId: nat, nodes: seq<TopologyNode>, after: seq<TopologyNode>, f: Forest,
                      child: EntityReference, parent: EntityReference, local: Mat4, x: EntityReference)
    requires IsForest(f) && Represents(worldId, nodes, f) && child in f && f[child].parent == NONE && x in f
    requires parent != NONE ==> parent in f && parent != child
    requires LinkedFrom(nodes, after, child, parent, local)
    ensures x.identity.index < |nodes| == |after|
    ensures var s := if parent == NONE then [] else f[parent].children;
            var node, now := nodes[x.identity.index], after[x.identity.index];
            && now.previousSibling == (if x == child then Last(s) else node.previousSibling)
            && now.nextSibling == (if s != [] && x == Last(s) then child else node.nextSibling)
  {
    hide IsForest, Represents, LinkedFrom;
    NoNoneIn(f, child);
    EntryAt(worldId, nodes, f, x);
    LinkedOne(nodes, after, child, parent, local, x);
    RootLinks(worldId, nodes, f, child);
    if x != child {
      DifferentSlots(worldId, nodes, f, x, child);
    }
    if parent != NONE {
      EntryAt(worldId, nodes, f, parent);
      LastChildOf(worldId, nodes, f, child, parent);
      var s := f[parent].children;
      if s != [] && x != Last(s) {
        DifferentSlots(worldId, nodes, f, x, Last(s));
      }
    }
  }

  lemma LinkedList(worldId: nat, nodes: seq<TopologyNode>, after: seq<TopologyNode>, f: Forest,
                   child: EntityReference, parent: EntityReference, local: Mat4, p: EntityReference)
    requires IsForest(f) && Represents(worldId, nodes, f) && child in f && f[child].parent == NONE && p in f
    requires parent != NONE ==> parent in f && parent != child
    requires LinkedFrom(nodes, after, child, parent, local)
    ensures var t := if p == parent then f[p].children + [child] else f[p].children;
            (forall j :: 0 <= j < |t| ==> t[j].identity.index < |after|) && Chained(after, t)
  {
    hide IsForest, Represents, LinkedFrom, Linked, Distinct;
    var s := f[p].children;
    var t := if p == parent then s + [child] else s;
    NoNoneIn(f, p);
    forall j: nat | j < |t|
      ensures t[j].identity.index < |after| == |nodes|
      ensures after[t[j].identity.index].previousSibling == Before(t, j)
      ensures after[t[j].identity.index].nextSibling == After(t, j)
    {
      if j < |s| {
        ChainAt(worldId, nodes, f, p, j);
        LinkedSibling(worldId, nodes, after, f, child, parent, local, s[j]);
        if p == parent && j + 1 < |s| {
          DifferentElements(s, j, |s| - 1);
        }
        if parent != NONE && f[parent].children != [] {
          LastChildOf(worldId, nodes, f, child, parent);
          EntryAt(worldId, nodes, f, parent);
        }
      } else {
        RootLinks(worldId, nodes, f, child);
        LinkedSibling(worldId, nodes, after, f, child, parent, local, child);
        LastChildOf(worldId, nodes, f, child, parent);
        EntryAt(worldId, nodes, f, parent);
      }
    }
  }

  /** Linking a root below a parent represents attaching the entity. */
  lemma LinkedRepresents(worldId: nat, nodes: seq<TopologyNode>, after: seq<TopologyNode>, f: Forest,
                         child: EntityReference, parent: EntityReference, local: Mat4)
    requires IsForest(f) && Represents(worldId, nodes, f) && child in f && f[child].parent == NONE && IsAffine(local)
    requires parent != NONE ==> parent in f && parent != child && child !in Ancestors(f, parent)
    requires LinkedFrom(nodes, after, child, parent, local)
    ensures child != parent
    ensures IsForest(Attached(f, child, parent, local))
    ensures Represents(worldId, after, Attached(f, child, parent, local))
  {
    hide *;
    AttachedIsForest(f, child, parent, local);
    var g := Attached(f, child, parent, local);
    NoNoneIn(f, child);
    AttachedKeys(f, child, parent, local);
    LinkedKeepsSlots(worldId, nodes, after, f, child, parent, local);
    forall x | x in g
      ensures EntryMatches(after[x.identity.index], g[x])
    {
      LinkedEntries(worldId, nodes, after, f, child, parent, local, x);
    }
    forall x | x in g
      ensures (forall c :: c in g[x].children ==> c in g) && Chained(after, g[x].children)
    {
      NoNoneIn(g, x);
      AttachedEntry(f, child, parent, local, x);
      LinkedList(worldId, nodes, after, f, child, parent, local, x);
    }
    forall x | x in g && g[x].parent == NONE
      ensures after[x.identity.index].previousSibling == NONE && after[x.identity.index].nextSibling == NONE
    {
      AttachedEntry(f, child, parent, local, x);
      LinkedRoot(worldId, nodes, after, f, child, parent, local, x);
    }
    RepresentsByParts(worldId, after, g);
  }

  lemma AttachedKeys(f: Forest, child: EntityReference, parent: EntityReference, local: Mat4)
    requires child in f && (parent == NONE || parent in f) && child != parent
    ensures forall x :: x in Attached(f, child, parent, local) <==> x in f
  {
  }

  lemma LinkedRoot(worldId: nat, nodes: seq<TopologyNode>, after: seq<TopologyNode>, f: Forest,
                   child: EntityReference, parent: EntityReference, local: Mat4, x: EntityReference)
    requires IsForest(f) && Represents(worldId, nodes, f) && child in f && f[child].parent == NONE && x in f
    requires parent != NONE ==> parent in f && parent != child
    requires LinkedFrom(nodes, after, child, parent, local)
    requires if x == child then parent == NONE else f[x].parent == NONE
    ensures x.identity.index < |after|
    ensures after[x.identity.index].previousSibling == NONE && after[x.identity.index].nextSibling == NONE
  {
    hide IsForest, Represents, LinkedFrom, Linked;
    RootLinks(worldId, nodes, f, x);
    LinkedSibling(worldId, nodes, after, f, child, parent, local, x);
    if parent != NONE {
      LastChildOf(worldId, nodes, f, child, parent);
      EntryAt(worldId, nodes, f, parent);
    }
  }
}

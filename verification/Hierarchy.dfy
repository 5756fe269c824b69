/** The mutable hierarchy of ecs/hierarchy.cpp: every method refines the operation on forest values. */
module Hierarchy {
  import opened Wrappers
  import opened Matrices
  import opened Reordering
  import opened HierarchySpec
  import opened HierarchyLinks
  import opened HierarchyShapes
  import AffineInverse

  const MAX_EPOCH := 0xFFFF_FFFF_FFFF_FFFF

  datatype HierarchyError = STALE | NOT_AFFINE | CYCLE | EPOCH_EXHAUSTED | SINGULAR

  datatype ReparentMode = KEEP_LOCAL | KEEP_WORLD

  /** Why reparenting is refused, if it is, in the order in which the checks are made. */
  ghost function Refusal(f: Forest, epoch: nat, child: EntityReference, parent: EntityReference, mode: ReparentMode):
    Option<HierarchyError>
    requires IsForest(f)
  {
    if child !in f || (parent != NONE && parent !in f) then Some(STALE)
    else if parent != NONE && (parent == child || child in Ancestors(f, parent)) then Some(CYCLE)
    else if f[child].parent == parent then None
    else if epoch == MAX_EPOCH then Some(EPOCH_EXHAUSTED)
    else if mode == KEEP_WORLD && parent != NONE && !Invertible(World(f, parent)) then Some(SINGULAR)
    else None
  }

  /** What an accepted reparenting does to the forest. */
  ghost predicate Moves(f: Forest, g: Forest, child: EntityReference, parent: EntityReference, mode: ReparentMode)
    requires IsForest(f) && child in f && (parent == NONE || parent in f) && child != parent
  {
    && child in g
    && g == Reparented(f, child, parent, g[child].local)
    && match mode
       case KEEP_LOCAL => g[child].local == f[child].local
       case KEEP_WORLD =>
         World(f, child) == if parent == NONE then g[child].local else Mul(World(f, parent), g[child].local)
  }

  // ------------------------------------------------------ slots of the array

  /** Changing slots without touching the sibling links of the entities that stay. */
  lemma RepresentsAfterSlotChange(worldId: nat, nodes: seq<TopologyNode>, after: seq<TopologyNode>, f: Forest,
                                  g: Forest)
    requires IsForest(f) && Represents(worldId, nodes, f) && SlotsMatch(worldId, after, g)
    requires forall x :: x in g ==> x.identity.index < |after| && EntryMatches(after[x.identity.index], g[x])
    requires forall x :: x in g && x !in f ==>
      && g[x].children == []
      && after[x.identity.index].previousSibling == NONE
      && after[x.identity.index].nextSibling == NONE
    requires forall x :: x in g && x in f ==>
      && x.identity.index < |nodes|
      && g[x].parent == f[x].parent && g[x].children == f[x].children
      && after[x.identity.index].previousSibling == nodes[x.identity.index].previousSibling
      && after[x.identity.index].nextSibling == nodes[x.identity.index].nextSibling
    requires forall x, c :: x in g && c in g[x].children ==> c in g
    ensures Represents(worldId, after, g)
  {
    hide IsForest, Represents, SlotsMatch, Before, After, EntryMatches, Distinct;
    forall x | x in g
      ensures (forall c :: c in g[x].children ==> c in g) && Chained(after, g[x].children)
    {
      if x in f {
        forall k: nat | k < |f[x].children|
          ensures var s := f[x].children;
                  && s[k].identity.index < |after|
                  && after[s[k].identity.index].previousSibling == Before(s, k)
                  && after[s[k].identity.index].nextSibling == After(s, k)
        {
          ChainAt(worldId, nodes, f, x, k);
          assert f[x].children[k] in g[x].children;
        }
      }
    }
    forall x | x in g && g[x].parent == NONE
      ensures after[x.identity.index].previousSibling == NONE && after[x.identity.index].nextSibling == NONE
    {
      if x in f {
        RootLinks(worldId, nodes, f, x);
      }
    }
    RepresentsByParts(worldId, after, g);
  }

  lemma ClearedRepresents(worldId: nat, nodes: seq<TopologyNode>, f: Forest, r: EntityReference)
    requires IsForest(f) && Represents(worldId, nodes, f)
    requires r in f && f[r].parent == NONE && f[r].children == []
    ensures r.identity.index < |nodes|
    ensures IsForest(Destroyed(f, r))
    ensures Represents(worldId, nodes[r.identity.index := EMPTY_NODE], Destroyed(f, r))
  {
    DestroyedIsolated(f, r);
    DroppedIsForest(f, r);
    EntryAt(worldId, nodes, f, r);
    ClearedSlots(worldId, nodes, f, r);
    hide IsForest, Represents, SlotsMatch, EntryMatches, Destroyed;
    var g := Destroyed(f, r);
    var after := nodes[r.identity.index := EMPTY_NODE];
    forall x | x in g
      ensures x.identity.index < |after| && after[x.identity.index] == nodes[x.identity.index]
      ensures EntryMatches(after[x.identity.index], g[x])
    {
      EntryAt(worldId, nodes, f, x);
      DifferentSlots(worldId, nodes, f, x, r);
    }
    forall x, c | x in g && c in g[x].children
      ensures c in g
    {
      NoNoneIn(g, x);
    }
    RepresentsAfterSlotChange(worldId, nodes, after, f, g);
  }

  lemma ClearedSlots(worldId: nat, nodes: seq<TopologyNode>, f: Forest, r: EntityReference)
    requires Represents(worldId, nodes, f) && r in f
    requires r.identity.index < |nodes|
    ensures SlotsMatch(worldId, nodes[r.identity.index := EMPTY_NODE], map x | x in f && x != r :: f[x])
  {
    hide EntriesMatch, SiblingsMatch;
    var after := nodes[r.identity.index := EMPTY_NODE];
    forall x
      ensures IsAliveIn(worldId, after, x) <==> x in f && x != r
    {
      if x in f && x != r {
        DifferentSlots(worldId, nodes, f, x, r);
      }
    }
  }

  /** The node of a new entity: a root without children whose transform is the identity. */
  function NewNode(entity: Entity): TopologyNode {
    TopologyNode(entity, NONE, NONE, NONE, NONE, NONE, IDENTITY)
  }

  lemma CreatedRepresents(worldId: nat, nodes: seq<TopologyNode>, f: Forest, entity: Entity)
    requires IsForest(f) && Represents(worldId, nodes, f)
    requires entity.index < |nodes| && nodes[entity.index] == EMPTY_NODE
    ensures var r := EntityReference(worldId, entity);
            && IsForest(Created(f, r))
            && Represents(worldId, nodes[entity.index := NewNode(entity)], Created(f, r))
  {
    hide IsForest, Represents, SlotsMatch, Distinct, Created;
    var r := EntityReference(worldId, entity);
    CreatedSlots(worldId, nodes, f, entity);
    CreatedIsForest(f, r);
    var g := Created(f, r);
    CreatedEntry(f, r);
    var after := nodes[entity.index := NewNode(entity)];
    assert EntryMatches(NewNode(entity), g[r]);
    forall x | x in g
      ensures x.identity.index < |after| && EntryMatches(after[x.identity.index], g[x])
      ensures x != r ==> after[x.identity.index] == nodes[x.identity.index]
    {
      if x != r {
        EntryAt(worldId, nodes, f, x);
      }
    }
    forall x, c | x in g && c in g[x].children
      ensures c in g
    {
      NoNoneIn(f, x);
    }
    RepresentsAfterSlotChange(worldId, nodes, after, f, g);
  }

  lemma CreatedEntry(f: Forest, r: EntityReference)
    ensures forall x :: x in Created(f, r) <==> x in f || x == r
    ensures forall x :: x in f && x != r ==> Created(f, r)[x] == f[x]
    ensures Created(f, r)[r] == Entry(NONE, [], IDENTITY)
  {
  }

  lemma CreatedSlots(worldId: nat, nodes: seq<TopologyNode>, f: Forest, entity: Entity)
    requires Represents(worldId, nodes, f)
    requires entity.index < |nodes| && nodes[entity.index] == EMPTY_NODE
    ensures EntityReference(worldId, entity) !in f && EntityReference(worldId, entity) != NONE
    ensures forall x :: x in f ==> x.identity.index != entity.index
    ensures SlotsMatch(worldId, nodes[entity.index := NewNode(entity)], Created(f, EntityReference(worldId, entity)))
  {
    hide EntriesMatch, SiblingsMatch;
    var r := EntityReference(worldId, entity);
    var after := nodes[entity.index := NewNode(entity)];
    forall x
      ensures IsAliveIn(worldId, after, x) <==> x in f || x == r
      ensures x in f ==> x.identity.index != entity.index
    {
      if x in f {
        assert IsAliveIn(worldId, nodes, x);
      }
    }
  }

  lemma ResizedRepresents(worldId: nat, nodes: seq<TopologyNode>, more: seq<TopologyNode>, f: Forest)
    requires IsForest(f) && Represents(worldId, nodes, f) && |nodes| + |more| <= INVALID_INDEX
    requires forall i :: 0 <= i < |more| ==> more[i] == EMPTY_NODE
    ensures Represents(worldId, nodes + more, f)
  {
    ResizedSlots(worldId, nodes, more, f);
    hide IsForest, Represents, SlotsMatch, EntryMatches;
    var after := nodes + more;
    forall x | x in f
      ensures x.identity.index < |nodes| && after[x.identity.index] == nodes[x.identity.index]
      ensures EntryMatches(after[x.identity.index], f[x])
    {
      EntryAt(worldId, nodes, f, x);
    }
    forall x, c | x in f && c in f[x].children
      ensures c in f
    {
      NoNoneIn(f, x);
    }
    RepresentsAfterSlotChange(worldId, nodes, after, f, f);
  }

  lemma ResizedSlots(worldId: nat, nodes: seq<TopologyNode>, more: seq<TopologyNode>, f: Forest)
    requires Represents(worldId, nodes, f) && |nodes| + |more| <= INVALID_INDEX
    requires forall i :: 0 <= i < |more| ==> more[i] == EMPTY_NODE
    ensures SlotsMatch(worldId, nodes + more, f)
  {
    hide EntriesMatch, SiblingsMatch;
    var after := nodes + more;
    forall x
      ensures IsAliveIn(worldId, after, x) <==> IsAliveIn(worldId, nodes, x)
    {
      if |nodes| <= x.identity.index < |after| {
        assert after[x.identity.index] == EMPTY_NODE;
      }
    }
  }

  lemma RelocatedRepresents(worldId: nat, nodes: seq<TopologyNode>, f: Forest, r: EntityReference, local: Mat4)
    requires IsForest(f) && Represents(worldId, nodes, f) && r in f && IsAffine(local)
    ensures r.identity.index < |nodes|
    ensures var i := r.identity.index;
            Represents(worldId, nodes[i := nodes[i].(local := local)], f[r := f[r].(local := local)])
  {
    hide IsForest, Represents, SlotsMatch, Chained;
    EntryAt(worldId, nodes, f, r);
    RelocatedSlots(worldId, nodes, f, r, local);
    var i := r.identity.index;
    var after, g := nodes[i := nodes[i].(local := local)], f[r := f[r].(local := local)];
    assert EntryMatches(after[i], g[r]);
    forall x | x in g
      ensures x.identity.index < |after| && EntryMatches(after[x.identity.index], g[x])
      ensures x != r ==> after[x.identity.index] == nodes[x.identity.index]
    {
      EntryAt(worldId, nodes, f, x);
      if x != r {
        DifferentSlots(worldId, nodes, f, x, r);
      }
    }
    forall x, c | x in g && c in g[x].children
      ensures c in g
    {
      NoNoneIn(f, x);
    }
    RepresentsAfterSlotChange(worldId, nodes, after, f, g);
  }

  lemma RelocatedSlots(worldId: nat, nodes: seq<TopologyNode>, f: Forest, r: EntityReference, local: Mat4)
    requires Represents(worldId, nodes, f) && r in f && r.identity.index < |nodes|
    ensures var i := r.identity.index;
            SlotsMatch(worldId, nodes[i := nodes[i].(local := local)], f[r := f[r].(local := local)])
  {
    hide EntriesMatch, SiblingsMatch;
    var i := r.identity.index;
    var after := nodes[i := nodes[i].(local := local)];
    forall x
      ensures IsAliveIn(worldId, after, x) <==> IsAliveIn(worldId, nodes, x)
    {
    }
    assert nodes[i].identity.index == i;
  }

  lemma RelocatedIsForest(f: Forest, r: EntityReference, local: Mat4)
    requires IsForest(f) && r in f && IsAffine(local)
    ensures IsForest(f[r := f[r].(local := local)])
  {
    hide ParentsMatch, IsAffine, Distinct, IsPath;
    var g := f[r := f[r].(local := local)];
    RelocatedParents(f, r, local);
    PathRelocated(f, r, local, r, Ancestors(f, r));
    AllRooted(f, g, r);
  }

  lemma RelocatedParents(f: Forest, r: EntityReference, local: Mat4)
    requires ParentsMatch(f) && r in f
    ensures ParentsMatch(f[r := f[r].(local := local)])
  {
  }

  lemma {:induction false} PathRelocated(f: Forest, r: EntityReference, local: Mat4, x: EntityReference,
                                         p: seq<EntityReference>)
    requires r in f && x in f && IsPath(f, x, p)
    ensures IsPath(f[r := f[r].(local := local)], x, p)
    decreases |p|
  {
    if p != [] {
      PathRelocated(f, r, local, p[0], p[1..]);
    }
  }

  lemma AliveIffInForest(worldId: nat, nodes: seq<TopologyNode>, f: Forest, r: EntityReference)
    requires Represents(worldId, nodes, f)
    ensures IsAliveIn(worldId, nodes, r) <==> r in f
    ensures NONE !in f
  {
  }

  // --------------------------------------------------------------- the walk

  /** One step of a walk up the parent links. */
  lemma WalkUp(worldId: nat, nodes: seq<TopologyNode>, f: Forest, r: EntityReference)
    requires IsForest(f) && Represents(worldId, nodes, f) && r in f
    ensures r.identity.index < |nodes| && nodes[r.identity.index].parent == f[r].parent
    ensures nodes[r.identity.index].local == f[r].local && IsAffine(f[r].local)
    ensures f[r].parent == NONE ==> Ancestors(f, r) == [] && World(f, r) == f[r].local
    ensures f[r].parent != NONE ==>
              && f[r].parent in f
              && Ancestors(f, r) == [f[r].parent] + Ancestors(f, f[r].parent)
              && World(f, r) == Mul(World(f, f[r].parent), f[r].local)
  {
    hide Represents, Mul, IsPath, World, Ancestors, ParentsMatch;
    EntryAt(worldId, nodes, f, r);
    AncestorsStep(f, r);
  }

  predicate OtherSlot(nodes: seq<TopologyNode>, r: EntityReference, other: EntityReference) {
    other != NONE ==> other.identity.index < |nodes| && other.identity.index != r.identity.index
  }

  /** Everything a node refers to is a slot other than its own. */
  lemma SlotsApart(worldId: nat, nodes: seq<TopologyNode>, f: Forest, r: EntityReference)
    requires IsForest(f) && Represents(worldId, nodes, f) && r in f
    ensures r.identity.index < |nodes|
    ensures var node := nodes[r.identity.index];
            && OtherSlot(nodes, r, node.parent)
            && OtherSlot(nodes, r, node.previousSibling)
            && OtherSlot(nodes, r, node.nextSibling)
  {
    Neighbours(worldId, nodes, f, r);
    hide IsForest, Represents;
    var node := nodes[r.identity.index];
    if node.parent != NONE {
      DifferentSlots(worldId, nodes, f, node.parent, r);
      EntryAt(worldId, nodes, f, node.parent);
    }
    if node.previousSibling != NONE {
      DifferentSlots(worldId, nodes, f, node.previousSibling, r);
      EntryAt(worldId, nodes, f, node.previousSibling);
    }
    if node.nextSibling != NONE {
      DifferentSlots(worldId, nodes, f, node.nextSibling, r);
      EntryAt(worldId, nodes, f, node.nextSibling);
    }
  }

  lemma AppendSlots(worldId: nat, nodes: seq<TopologyNode>, f: Forest, child: EntityReference, parent: EntityReference)
    requires IsForest(f) && Represents(worldId, nodes, f) && child in f && f[child].parent == NONE
    requires parent != NONE ==> parent in f && parent != child
    ensures child.identity.index < |nodes| && OtherSlot(nodes, child, parent)
    ensures parent != NONE ==>
              var last := nodes[parent.identity.index].lastChild;
              OtherSlot(nodes, child, last) && OtherSlot(nodes, parent, last)
  {
    hide IsForest, Represents;
    EntryAt(worldId, nodes, f, child);
    if parent != NONE {
      LastChildOf(worldId, nodes, f, child, parent);
      DifferentSlots(worldId, nodes, f, parent, child);
      var last := nodes[parent.identity.index].lastChild;
      if last != NONE {
        EntryAt(worldId, nodes, f, last);
        DifferentSlots(worldId, nodes, f, last, child);
        DifferentSlots(worldId, nodes, f, last, parent);
      }
    }
  }

  lemma FirstChildOf(worldId: nat, nodes: seq<TopologyNode>, f: Forest, r: EntityReference)
    requires IsForest(f) && Represents(worldId, nodes, f) && r in f
    ensures r.identity.index < |nodes|
    ensures var first, s := nodes[r.identity.index].firstChild, f[r].children;
            if s == [] then first == NONE else first != NONE && first == s[0] && first in f && f[first].parent == r
  {
    hide IsForest, Represents;
    EntryAt(worldId, nodes, f, r);
    NoNoneIn(f, r);
    if f[r].children != [] {
      assert f[r].children[0] in f[r].children;
      ChainAt(worldId, nodes, f, r, 0);
    }
  }

  /** One round of destroying r: r itself or its first child is detached. */
  lemma DestroyRound(f: Forest, r: EntityReference, c: EntityReference)
    requires IsForest(f) && r in f && c in f
    requires c == r || (f[r].parent == NONE && f[r].children != [] && c == f[r].children[0] && f[c].parent == r)
    ensures var g := Detached(f, c);
            && r in g && g[r].parent == NONE
            && Destroyed(g, r) == Destroyed(f, r)
            && (c != r ==> g[r].children == f[r].children[1..])
  {
    DestroyedAfterDetach(f, r, c);
    hide IsForest;
    SelfIsNoParent(f, c);
    DetachedEntry(f, c, r);
  }

  lemma WorldOfForestIsAffine(f: Forest, r: EntityReference)
    requires IsForest(f) && r in f
    ensures IsAffine(World(f, r))
  {
    WorldIsAffine(f, r, Ancestors(f, r));
  }

  /** Detaching the child leaves the new parent's ancestry alone. */
  lemma ReadyToAttach(f: Forest, child: EntityReference, parent: EntityReference)
    requires IsForest(f) && child in f
    requires parent != NONE ==> parent in f && parent != child && child !in Ancestors(f, parent)
    ensures child != parent && (parent == NONE || parent in f)
    ensures var d := Detached(f, child);
            && IsForest(d) && child in d && d[child].parent == NONE
            && (parent != NONE ==> parent in d && child !in Ancestors(d, parent))
  {
    DetachedIsForest(f, child);
    if parent != NONE {
      AncestorsKept(f, Detached(f, child), child, parent);
    }
  }

  lemma AcceptedMove(f: Forest, child: EntityReference, parent: EntityReference, local: Mat4, mode: ReparentMode)
    requires IsForest(f) && child in f && IsAffine(local)
    requires parent != NONE ==> parent in f && parent != child && child !in Ancestors(f, parent)
    requires match mode
             case KEEP_LOCAL => local == f[child].local
             case KEEP_WORLD => World(f, child) == if parent == NONE then local else Mul(World(f, parent), local)
    ensures child != parent
    ensures var g := Reparented(f, child, parent, local);
            && IsForest(g) && g.Keys == f.Keys
            && Moves(f, g, child, parent, mode)
            && (mode == KEEP_WORLD ==> forall x :: x in f ==> x in g && World(g, x) == World(f, x))
  {
    ReparentedIsForest(f, child, parent, local);
    if mode == KEEP_WORLD {
      forall x | x in f
        ensures x in Reparented(f, child, parent, local)
        ensures World(Reparented(f, child, parent, local), x) == World(f, x)
      {
        KeepWorldKeepsEveryWorld(f, child, parent, local, x);
      }
    }
  }

  class TopologyState {
    const worldId: nat
    var epoch: nat
    var nodes: seq<TopologyNode>
    ghost var forest: Forest

    ghost predicate Valid()
      reads this
    {
      IsForest(forest) && Represents(worldId, nodes, forest) && epoch <= MAX_EPOCH
    }

    constructor (id: nat)
      requires 0 < id
      ensures Valid() && worldId == id && epoch == 0 && forest == map[]
    {
      worldId := id;
      epoch := 0;
      nodes := [];
      forest := map[];
    }

    predicate IsAlive(r: EntityReference)
      reads this
      requires Valid()
      ensures IsAlive(r) <==> r in forest
    {
      IsAliveIn(worldId, nodes, r)
    }

    /** Makes room for a slot. */
    method Prepare(index: nat)
      requires Valid() && index < INVALID_INDEX
      modifies this`nodes
      ensures Valid() && index < |nodes| && old(nodes) <= nodes
      ensures forall i :: old(|nodes|) <= i < |nodes| ==> nodes[i] == EMPTY_NODE
    {
      if index >= |nodes| {
        var more := seq(index + 1 - |nodes|, _ => EMPTY_NODE);
        ResizedRepresents(worldId, nodes, more, forest);
        nodes := nodes + more;
      }
    }

    /** A new entity takes an empty slot. */
    method Create(entity: Entity)
      requires Valid() && epoch < MAX_EPOCH
      requires entity.index < |nodes| && nodes[entity.index] == EMPTY_NODE
      modifies this
      ensures Valid() && epoch == old(epoch) + 1
      ensures forest == Created(old(forest), EntityReference(worldId, entity))
      ensures IsBorn(old(forest), forest, EntityReference(worldId, entity))
    {
      hide IsForest, Represents, Created, IsBorn;
      CreatedRepresents(worldId, nodes, forest, entity);
      CreatedSlots(worldId, nodes, forest, entity);
      CreatedIsBorn(forest, EntityReference(worldId, entity));
      nodes := nodes[entity.index := NewNode(entity)];
      forest := Created(forest, EntityReference(worldId, entity));
      epoch := epoch + 1;
    }

    /** Rewrites the links around one node, step by step. */
    method Unlink(r: EntityReference)
      requires r.identity.index < |nodes|
      requires var node := nodes[r.identity.index];
               && OtherSlot(nodes, r, node.parent)
               && OtherSlot(nodes, r, node.previousSibling)
               && OtherSlot(nodes, r, node.nextSibling)
      modifies this`nodes
      ensures UnlinkedFrom(old(nodes), nodes, r)
    {
      var i := r.identity.index;
      var node := nodes[i];
      if node.previousSibling != NONE {
        var j := node.previousSibling.identity.index;
        nodes := nodes[j := nodes[j].(nextSibling := node.nextSibling)];
      } else if node.parent != NONE {
        var j := node.parent.identity.index;
        nodes := nodes[j := nodes[j].(firstChild := node.nextSibling)];
      }
      if node.nextSibling != NONE {
        var j := node.nextSibling.identity.index;
        nodes := nodes[j := nodes[j].(previousSibling := node.previousSibling)];
      } else if node.parent != NONE {
        var j := node.parent.identity.index;
        nodes := nodes[j := nodes[j].(lastChild := node.previousSibling)];
      }
      nodes := nodes[i := nodes[i].(parent := NONE, nextSibling := NONE, previousSibling := NONE)];
    }

    method Detach(r: EntityReference)
      requires Valid() && r in forest
      modifies this`nodes, this`forest
      ensures Valid() && forest == Detached(old(forest), r) && |nodes| == old(|nodes|)
    {
      hide IsForest, Represents, Detached, Unlinked;
      SlotsApart(worldId, nodes, forest, r);
      Unlink(r);
      UnlinkedRepresents(worldId, old(nodes), nodes, forest, r);
      forest := Detached(forest, r);
    }

    /** Removes an entity; its children become roots. */
    method Destroy(entity: Entity)
      requires Valid() && epoch < MAX_EPOCH && EntityReference(worldId, entity) in forest
      modifies this
      ensures Valid() && epoch == old(epoch) + 1 && |nodes| == old(|nodes|)
      ensures forest == Destroyed(old(forest), EntityReference(worldId, entity))
      ensures IsGone(old(forest), forest, EntityReference(worldId, entity))
      ensures entity.index < |nodes| && nodes[entity.index] == EMPTY_NODE
    {
      var r := EntityReference(worldId, entity);
      hide IsForest, Represents, Detached, Destroyed, IsGone;
      DestroyedIsGone(forest, r);
      DestroyRound(forest, r, r);
      Detach(r);
      FirstChildOf(worldId, nodes, forest, r);
      while nodes[entity.index].firstChild != NONE
        invariant Valid() && epoch == old(epoch) && |nodes| == old(|nodes|)
        invariant r in forest && forest[r].parent == NONE && entity.index < |nodes|
        invariant Destroyed(forest, r) == Destroyed(old(forest), r)
        decreases |forest[r].children|
      {
        FirstChildOf(worldId, nodes, forest, r);
        DestroyRound(forest, r, nodes[entity.index].firstChild);
        Detach(nodes[entity.index].firstChild);
      }
      FirstChildOf(worldId, nodes, forest, r);
      ClearedRepresents(worldId, nodes, forest, r);
      nodes := nodes[entity.index := EMPTY_NODE];
      forest := Destroyed(forest, r);
      epoch := epoch + 1;
    }

    /** The product of the local transforms up the parent links. */
    method Resolve(r: EntityReference) returns (result: Result<Mat4, HierarchyError>)
      requires Valid()
      ensures r !in forest ==> result == Err(STALE)
      ensures r in forest ==> result == Ok(World(forest, r)) && IsAffine(World(forest, r))
    {
      if !IsAlive(r) {
        return Err(STALE);
      }
      hide IsForest, Represents, IsPath, IsRooted, Mul;
      WalkUp(worldId, nodes, forest, r);
      WorldOfForestIsAffine(forest, r);
      var product := nodes[r.identity.index].local;
      var cursor := nodes[r.identity.index].parent;
      while cursor != NONE
        invariant cursor != NONE ==> cursor in forest
        invariant if cursor == NONE then product == World(forest, r)
                  else Mul(World(forest, cursor), product) == World(forest, r)
        decreases if cursor == NONE then 0 else 1 + |Ancestors(forest, cursor)|
      {
        WalkUp(worldId, nodes, forest, cursor);
        var node := nodes[cursor.identity.index];
        if node.parent != NONE {
          MulAssociative(World(forest, node.parent), node.local, product);
        }
        product := Mul(node.local, product);
        cursor := node.parent;
      }
      return Ok(product);
    }

    /** Whether one live entity is above another. */
    method IsAncestor(ancestor: EntityReference, descendant: EntityReference)
      returns (result: Result<bool, HierarchyError>)
      requires Valid()
      ensures ancestor !in forest || descendant !in forest ==> result == Err(STALE)
      ensures ancestor in forest && descendant in forest ==> result == Ok(ancestor in Ancestors(forest, descendant))
    {
      if !IsAlive(ancestor) || !IsAlive(descendant) {
        return Err(STALE);
      }
      hide IsForest, Represents, IsPath, IsRooted, Mul;
      WalkUp(worldId, nodes, forest, descendant);
      var cursor := nodes[descendant.identity.index].parent;
      while cursor != NONE
        invariant cursor != NONE ==> cursor in forest
        invariant ancestor in Ancestors(forest, descendant) <==>
                  cursor != NONE && (ancestor == cursor || ancestor in Ancestors(forest, cursor))
        decreases if cursor == NONE then 0 else 1 + |Ancestors(forest, cursor)|
      {
        WalkUp(worldId, nodes, forest, cursor);
        if cursor == ancestor {
          return Ok(true);
        }
        cursor := nodes[cursor.identity.index].parent;
      }
      return Ok(false);
    }

    /** Walking the sibling links from the first child lists the children in order. */
    method Children(r: EntityReference) returns (result: Result<seq<EntityReference>, HierarchyError>)
      requires Valid()
      ensures r !in forest ==> result == Err(STALE)
      ensures r in forest ==> result == Ok(forest[r].children)
    {
      hide IsForest, Represents, IsAliveIn, Before, Distinct;
      if !IsAlive(r) {
        return Err(STALE);
      }
      EntryAt(worldId, nodes, forest, r);
      NoNoneIn(forest, r);
      ghost var s := forest[r].children;
      assert s != [] ==> s[0] in s;
      var cursor := nodes[r.identity.index].firstChild;
      var found := [];
      while cursor != NONE
        invariant |found| <= |s| && found == s[..|found|]
        invariant cursor == if |found| == |s| then NONE else s[|found|]
        invariant cursor == NONE <==> |found| == |s|
        decreases |s| - |found|
      {
        ChainAt(worldId, nodes, forest, r, |found|);
        found := found + [cursor];
        cursor := nodes[cursor.identity.index].nextSibling;
        if |found| < |s| {
          assert s[|found|] in s;
        }
      }
      assert s[..|s|] == s;
      return Ok(found);
    }

    method SetLocal(r: EntityReference, local: Mat4) returns (result: Result<(), HierarchyError>)
      requires Valid()
      modifies this`nodes, this`forest
      ensures Valid()
      ensures result.Err? ==> nodes == old(nodes) && forest == old(forest)
      ensures result == if r !in old(forest) then Err(STALE) else if !IsAffine(local) then Err(NOT_AFFINE) else Ok(())
      ensures result.Ok? ==> forest == old(forest)[r := old(forest)[r].(local := local)]
    {
      hide IsForest, Represents, IsAliveIn;
      if !IsAlive(r) {
        return Err(STALE);
      }
      if !IsAffine(local) {
        return Err(NOT_AFFINE);
      }
      RelocatedRepresents(worldId, nodes, forest, r, local);
      RelocatedIsForest(forest, r, local);
      var i := r.identity.index;
      nodes := nodes[i := nodes[i].(local := local)];
      forest := forest[r := forest[r].(local := local)];
      return Ok(());
    }

    /** Whether a walk up from start meets the child. */
    method MeetsOnTheWayUp(child: EntityReference, start: EntityReference) returns (meets: bool)
      requires Valid() && (start == NONE || start in forest)
      ensures meets <==> start != NONE && (start == child || child in Ancestors(forest, start))
    {
      assert forall x :: x in forest ==> IsRooted(forest, x);
      hide IsForest, Represents, IsPath, IsRooted, Mul;
      var cursor := start;
      while cursor != NONE
        invariant cursor != NONE ==> cursor in forest
        invariant (start != NONE && (start == child || child in Ancestors(forest, start))) <==>
                  (cursor != NONE && (cursor == child || child in Ancestors(forest, cursor)))
        decreases if cursor == NONE then 0 else 1 + |Ancestors(forest, cursor)|
      {
        if cursor == child {
          return true;
        }
        WalkUp(worldId, nodes, forest, cursor);
        cursor := nodes[cursor.identity.index].parent;
      }
      return false;
    }

    /** The local transform that keeps the child where it is in the world, below its new parent. */
    method LocalKeepingWorld(child: EntityReference, parent: EntityReference) returns (local: Option<Mat4>)
      requires Valid() && child in forest && (parent == NONE || parent in forest)
      ensures local.None? <==> parent != NONE && !Invertible(World(forest, parent))
      ensures local.Some? ==>
        && IsAffine(local.value)
        && World(forest, child) == if parent == NONE then local.value else Mul(World(forest, parent), local.value)
    {
      hide IsForest, Represents, Mul;
      var world := Resolve(child);
      if parent == NONE {
        return Some(world.value);
      }
      var parentWorld := Resolve(parent);
      var inverse := AffineInverse.InverseAffine(parentWorld.value);
      if inverse.None? {
        return None;
      }
      MulAffine(inverse.value, world.value);
      MulAssociative(parentWorld.value, inverse.value, world.value);
      MulIdentity(world.value);
      return Some(Mul(inverse.value, world.value));
    }

    /** Rewrites the links of a root, its new parent and the parent's last child, step by step. */
    method Link(child: EntityReference, parent: EntityReference, local: Mat4)
      requires child.identity.index < |nodes| && OtherSlot(nodes, child, parent)
      requires parent != NONE ==>
                 var last := nodes[parent.identity.index].lastChild;
                 OtherSlot(nodes, child, last) && OtherSlot(nodes, parent, last)
      modifies this`nodes
      ensures LinkedFrom(old(nodes), nodes, child, parent, local)
    {
      var i := child.identity.index;
      nodes := nodes[i := nodes[i].(local := local, parent := parent)];
      if parent != NONE {
        var j := parent.identity.index;
        var last := nodes[j].lastChild;
        nodes := nodes[i := nodes[i].(previousSibling := last)];
        if last != NONE {
          var k := last.identity.index;
          nodes := nodes[k := nodes[k].(nextSibling := child)];
        } else {
          nodes := nodes[j := nodes[j].(firstChild := child)];
        }
        nodes := nodes[j := nodes[j].(lastChild := child)];
      }
    }

    /** Appends a root to the children of its new parent. */
    method Append(child: EntityReference, parent: EntityReference, local: Mat4)
      requires Valid() && child in forest && forest[child].parent == NONE && IsAffine(local)
      requires parent != NONE ==> parent in forest && parent != child && child !in Ancestors(forest, parent)
      modifies this`nodes, this`forest
      ensures child != parent && (parent == NONE || parent in old(forest))
      ensures Valid() && forest == Attached(old(forest), child, parent, local)
    {
      hide IsForest, Represents, Attached, Linked, LinkedFrom, IsRooted;
      AppendSlots(worldId, nodes, forest, child, parent);
      Link(child, parent, local);
      LinkedRepresents(worldId, old(nodes), nodes, forest, child, parent, local);
      forest := Attached(forest, child, parent, local);
    }

    /**
     * Moves an entity below a new parent, as its last child. A refusal changes nothing; an accepted
     * move in KEEP_WORLD mode leaves the world transform of every entity as it was.
     */
    method Reparent(child: EntityReference, parent: EntityReference, mode: ReparentMode)
      returns (result: Result<(), HierarchyError>)
      requires Valid()
      modifies this
      ensures Valid()
      ensures var refusal := Refusal(old(forest), old(epoch), child, parent, mode);
              result == if refusal.Some? then Err(refusal.value) else Ok(())
      ensures result == Err(STALE) <==> child !in old(forest) || (parent != NONE && parent !in old(forest))
      ensures result == Err(CYCLE) <==>
        && child in old(forest) && parent in old(forest)
        && (parent == child || child in Ancestors(old(forest), parent))
      ensures result == Err(SINGULAR) ==> mode == KEEP_WORLD && parent in old(forest) && !Invertible(World(old(forest), parent))
      ensures result.Err? || old(forest)[child].parent == parent ==>
        forest == old(forest) && nodes == old(nodes) && epoch == old(epoch)
      ensures result.Ok? && old(forest)[child].parent != parent ==>
        && epoch == old(epoch) + 1 && child != parent && Moves(old(forest), forest, child, parent, mode)
        && IsMoved(old(forest), forest, child, parent)
        && (mode == KEEP_LOCAL ==> forest[child].local == old(forest)[child].local)
      ensures result.Ok? && mode == KEEP_WORLD ==>
        forall x :: x in old(forest) ==> x in forest && World(forest, x) == World(old(forest), x)
      ensures forest.Keys == old(forest.Keys)
    {
      hide IsForest, Represents, Attached, Detached, Invertible, Mul, IsRooted, IsPath, Moves, IsMoved, Ancestors, World;
      AliveIffInForest(worldId, nodes, forest, child);
      if !IsAlive(child) {
        return Err(STALE);
      }
      if parent != NONE && !IsAlive(parent) {
        return Err(STALE);
      }
      var meets := MeetsOnTheWayUp(child, parent);
      if meets {
        return Err(CYCLE);
      }
      WalkUp(worldId, nodes, forest, child);
      if nodes[child.identity.index].parent == parent {
        return Ok(());
      }
      if epoch == MAX_EPOCH {
        return Err(EPOCH_EXHAUSTED);
      }
      var local := nodes[child.identity.index].local;
      if mode == KEEP_WORLD {
        var kept := LocalKeepingWorld(child, parent);
        if kept.None? {
          return Err(SINGULAR);
        }
        local := kept.value;
      }
      ReadyToAttach(forest, child, parent);
      Detach(child);
      Append(child, parent, local);
      epoch := epoch + 1;
      AcceptedMove(old(forest), child, parent, local, mode);
      ReparentedIsMoved(old(forest), child, parent, local);
      return Ok(());
    }
  }
}

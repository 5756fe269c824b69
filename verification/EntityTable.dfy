/** Entity identities of ecs/world.cpp, and the topology beside them. */
module EntityTable {
  import opened Wrappers
  import opened Reordering
  import HierarchySpec
  import opened HierarchyLinks
  import opened Hierarchy
  import opened EntityTableSpec
  import opened Sorting

  type Entity = HierarchySpec.Entity
  type EntityReference = HierarchySpec.EntityReference
  type Forest = HierarchySpec.Forest

  const LAST_INDEX := HierarchySpec.INVALID_INDEX

  datatype TableError = CREATES_PENDING | TOPOLOGY_EXHAUSTED | NO_LONGER_VALID

  /** The topology has exactly the live entities of the table. */
  ghost predicate Agree(t: Table, worldId: nat, f: Forest) {
    forall e: Entity :: HasEntity(t, e) <==> HierarchySpec.EntityReference(worldId, e) in f
  }

  /** Two tables differ by the birth of one entity. */
  ghost predicate Born(t: Table, u: Table, e: Entity) {
    forall x: Entity :: HasEntity(u, x) <==> HasEntity(t, x) || x == e
  }

  lemma CreatedIsBorn(t: Table)
    requires TableInv(t) && t.pendingCreates == 0 && |t.entities| < LAST_INDEX
    ensures var (u, e) := Created(t);
            && Born(t, u, e) && e.index < LAST_INDEX && (e.index < |t.entities| ==> !t.entities[e.index].alive)
            && |u.entities| <= LAST_INDEX && u.live == t.live
  {
    CreatedKeepsInv(t);
    var (u, e) := Created(t);
    assert u.live == t.live;
    hide TableInv, Created;
    forall x: Entity
      ensures HasEntity(u, x) <==> HasEntity(t, x) || x == e
    {
    }
  }

  /** A slot without a live entity is empty in the topology. */
  lemma SlotIsEmpty(t: Table, worldId: nat, nodes: seq<TopologyNode>, f: Forest, index: nat)
    requires Agree(t, worldId, f) && Represents(worldId, nodes, f) && index < |nodes|
    requires index < |t.entities| ==> !t.entities[index].alive
    ensures nodes[index] == EMPTY_NODE
  {
    hide EntriesMatch, SiblingsMatch;
    var e := nodes[index].identity;
    assert HasEntity(t, e) <==> HierarchySpec.EntityReference(worldId, e) in f;
  }

  lemma BornAgrees(t: Table, u: Table, worldId: nat, f: Forest, e: Entity)
    requires Agree(t, worldId, f) && Born(t, u, e)
    ensures Agree(u, worldId, HierarchySpec.Created(f, HierarchySpec.EntityReference(worldId, e)))
  {
    var g := HierarchySpec.Created(f, HierarchySpec.EntityReference(worldId, e));
    forall x: Entity
      ensures HasEntity(u, x) <==> HierarchySpec.EntityReference(worldId, x) in g
    {
      assert HasEntity(t, x) <==> HierarchySpec.EntityReference(worldId, x) in f;
    }
  }

  lemma DestroyedAgrees(t: Table, worldId: nat, f: Forest, e: Entity)
    requires TableInv(t) && Agree(t, worldId, f) && HasEntity(t, e)
    ensures HierarchySpec.EntityReference(worldId, e) in f
    ensures Agree(Destroyed(t, e), worldId, HierarchySpec.Destroyed(f, HierarchySpec.EntityReference(worldId, e)))
  {
    DestroyedKeepsInv(t, e);
    hide TableInv, Destroyed;
    var g := HierarchySpec.Destroyed(f, HierarchySpec.EntityReference(worldId, e));
    forall x: Entity
      ensures HasEntity(Destroyed(t, e), x) <==> HierarchySpec.EntityReference(worldId, x) in g
    {
      assert HasEntity(t, x) <==> HierarchySpec.EntityReference(worldId, x) in f;
    }
  }

  class EntityTable {
    const topology: TopologyState
    var entities: seq<EntityState>
    var freeIndices: seq<nat>
    var pendingAppends: seq<Entity>
    var pendingCreates: nat
    var nextGeneration: nat
    ghost var live: set<Reservation>
    ghost var issued: set<Entity>

    ghost function View(): Table
      reads this
    {
      Table(entities, freeIndices, pendingAppends, pendingCreates, nextGeneration, live, issued)
    }

    /** Indices stay within the width of an entity index. */
    ghost predicate Fits()
      reads this
    {
      |entities| <= LAST_INDEX && forall r :: r in live ==> r.identity.index < LAST_INDEX
    }

    ghost predicate Valid()
      reads this, topology
    {
      TableInv(View()) && Fits() && topology.Valid() && Agree(View(), topology.worldId, topology.forest)
    }

    constructor (worldId: nat)
      requires 0 < worldId
      ensures Valid() && View() == EMPTY_TABLE && fresh(topology) && topology.worldId == worldId
    {
      topology := new TopologyState(worldId);
      entities, freeIndices, pendingAppends, pendingCreates, nextGeneration := [], [], [], 0, 0;
      live, issued := {}, {};
      new;
      EmptyTableInv();
    }

    predicate IsAlive(e: Entity)
      reads this
      ensures IsAlive(e) <==> HasEntity(View(), e)
    {
      && e.index != LAST_INDEX
      && e.index < |entities|
      && entities[e.index].alive
      && entities[e.index].generation == e.generation
    }

    /** The table side of an immediate create. */
    method TakeSlot() returns (e: Entity)
      requires freeIndices != [] ==> freeIndices[|freeIndices| - 1] < |entities|
      modifies this
      ensures (View(), e) == Created(old(View()))
    {
      if freeIndices != [] {
        var index := freeIndices[|freeIndices| - 1];
        freeIndices := freeIndices[..|freeIndices| - 1];
        entities := entities[index := entities[index].(alive := true)];
        e := HierarchySpec.Entity(index, entities[index].generation);
      } else {
        var generation := nextGeneration;
        nextGeneration := nextGeneration + 1;
        e := HierarchySpec.Entity(|entities|, generation);
        entities := entities + [EntityState(generation, true, false)];
      }
      issued := issued + {e};
    }

    /** Creates an entity at once. The handle has never been handed out before. */
    method CreateEntity() returns (result: Result<Entity, TableError>)
      requires Valid() && |entities| < LAST_INDEX
      modifies this, topology
      ensures Valid()
      ensures result.Err? <==> old(topology.epoch) == MAX_EPOCH || old(pendingCreates) > 0
      ensures result == Err(TOPOLOGY_EXHAUSTED) <==> old(topology.epoch) == MAX_EPOCH
      ensures result == Err(CREATES_PENDING) <==> old(topology.epoch) < MAX_EPOCH && old(pendingCreates) > 0
      ensures result.Err? ==> View() == old(View()) && topology.forest == old(topology.forest)
      ensures result.Ok? ==>
        && (View(), result.value) == Created(old(View()))
        && result.value !in old(issued)
        && topology.forest ==
             HierarchySpec.Created(old(topology.forest), HierarchySpec.EntityReference(topology.worldId, result.value))
    {
      hide TableInv, Agree, Born, HasEntity, Represents, HierarchySpec.IsForest, HierarchySpec.Created, Created;
      if topology.epoch == MAX_EPOCH {
        return Err(TOPOLOGY_EXHAUSTED);
      }
      if pendingCreates > 0 {
        return Err(CREATES_PENDING);
      }
      ghost var t := View();
      CreatedKeepsInv(t);
      CreatedIsBorn(t);
      LastFree(t);
      var e := TakeSlot();
      EnterTopology(e, t);
      BornAgrees(t, View(), topology.worldId, old(topology.forest), e);
      return Ok(e);
    }

    /** The topology side of a birth. */
    method EnterTopology(e: Entity, ghost t: Table)
      requires topology.Valid() && topology.epoch < MAX_EPOCH && Agree(t, topology.worldId, topology.forest)
      requires e.index < LAST_INDEX && (e.index < |t.entities| ==> !t.entities[e.index].alive)
      modifies topology
      ensures topology.Valid() && topology.epoch == old(topology.epoch) + 1
      ensures topology.forest ==
                HierarchySpec.Created(old(topology.forest), HierarchySpec.EntityReference(topology.worldId, e))
    {
      hide Agree, HierarchySpec.IsForest, Represents, HierarchySpec.Created;
      topology.Prepare(e.index);
      SlotIsEmpty(t, topology.worldId, topology.nodes, topology.forest, e.index);
      topology.Create(e);
    }

    /** The next index to append that no reservation has. */
    method FindNextAppendIndex() returns (index: nat)
      ensures IsNextAppend(View(), index)
      ensures index <= |entities| + |pendingAppends|
    {
      index := |entities|;
      ghost var seen: set<Entity> := {};
      while PendingGeneration(pendingAppends, index).Some?
        invariant |entities| <= index <= |entities| + |seen|
        invariant forall j :: |entities| <= j < index ==> AppendTaken(View(), j)
        invariant forall p :: p in seen ==> p in pendingAppends && p.index < index
        invariant |seen| <= |pendingAppends|
        decreases |pendingAppends| - |seen|
      {
        PendingGenerationIs(pendingAppends, index);
        ghost var p := HierarchySpec.Entity(index, PendingGeneration(pendingAppends, index).value);
        seen := seen + {p};
        SetInList(seen, pendingAppends);
        index := index + 1;
      }
      PendingGenerationIs(pendingAppends, index);
    }

    /** The table side of a reservation. */
    method ReserveSlot() returns (r: Reservation, ghost next: nat)
      requires freeIndices != [] ==> freeIndices[|freeIndices| - 1] < |entities|
      modifies this
      ensures IsNextAppend(old(View()), next) && next <= old(|entities| + |pendingAppends|)
      ensures (View(), r) == Reserved(old(View()), next)
    {
      var index := FindNextAppendIndex();
      next := index;
      hide IsNextAppend;
      if freeIndices != [] {
        var slot := freeIndices[|freeIndices| - 1];
        freeIndices := freeIndices[..|freeIndices| - 1];
        r := Reservation(HierarchySpec.Entity(slot, entities[slot].generation), true);
      } else {
        r := Reservation(HierarchySpec.Entity(index, nextGeneration), false);
        nextGeneration := nextGeneration + 1;
        pendingAppends := pendingAppends + [r.identity];
      }
      pendingCreates := pendingCreates + 1;
      live := live + {r};
      issued := issued + {r.identity};
    }

    /** Reserves an identity for a deferred create. The handle has never been handed out before. */
    method Reserve() returns (r: Reservation)
      requires Valid() && |entities| + |pendingAppends| < LAST_INDEX
      modifies this
      ensures Valid() && topology.forest == old(topology.forest)
      ensures r !in old(live) && live == old(live) + {r}
      ensures r.identity !in old(issued) && issued == old(issued) + {r.identity}
      ensures exists next :: IsNextAppend(old(View()), next) && (View(), r) == Reserved(old(View()), next)
    {
      hide TableInv, Agree, HasEntity, TopologyState.Valid, IsNextAppend, Reserved;
      ghost var t := View();
      LastFree(t);
      ghost var next;
      r, next := ReserveSlot();
      ReservedKeepsInv(t, next);
      ReservedSlot(t, next);
      ReservedKeepsAlive(t, next, topology.worldId, topology.forest);
    }

    /** The table side of giving a reservation up. */
    method ReleaseSlot(r: Reservation)
      requires pendingCreates > 0 && (r.reusesFreeSlot ==> r.identity.index < |entities|)
      modifies this
      ensures View() == Released(old(View()), r)
    {
      pendingCreates := pendingCreates - 1;
      if r.reusesFreeSlot {
        var index := r.identity.index;
        entities := entities[index := entities[index].(generation := entities[index].generation + 1)];
        freeIndices := freeIndices + [index];
      } else {
        pendingAppends := WithoutIndex(pendingAppends, r.identity.index);
      }
      live := live - {r};
    }

    /** Gives a reservation up. Nothing alive changes, and no slot is lost unless a commit had materialised it. */
    method Release(r: Reservation)
      requires Valid() && r in live
      modifies this
      ensures Valid() <==> !Materialised(old(View()), r)
      ensures View() == Released(old(View()), r)
      ensures live == old(live) - {r} && issued == old(issued) && topology.forest == old(topology.forest)
    {
      hide TableInv, Agree, HasEntity, TopologyState.Valid, Released;
      ghost var t := View();
      HeldSlotOf(t, r);
      ReleasedKeepsInv(t, r);
      ReleasedSlots(t, r);
      AliveUnchangedAgrees(t, Released(t, r), topology.worldId, topology.forest);
      ReleaseSlot(r);
    }

    /** One slot more at the end of the table. */
    method Grow()
      modifies this`entities, this`freeIndices, this`nextGeneration
      ensures View() == Grown(old(View())) && |entities| == old(|entities|) + 1
    {
      var index := |entities|;
      var generation := PendingGeneration(pendingAppends, index);
      var unused := nextGeneration;
      nextGeneration := nextGeneration + 1;
      entities := entities + [EntityState(if generation.Some? then generation.value else unused, false, generation.Some?)];
      if generation.None? {
        freeIndices := freeIndices + [index];
      }
    }

    /** The table side of committing a deferred create. */
    method ActivateSlot(r: Reservation) returns (result: Result<(), TableError>)
      requires TableInv(View()) && r in live
      modifies this
      ensures result == Ok(()) && View() == Applied(old(View()), r)
    {
      hide TableInv, GrownTo;
      ghost var t := View();
      var e := r.identity;
      AppliedSlot(t, r);
      if r.reusesFreeSlot {
        var state := entities[e.index];
        if state.alive || state.reserved || state.generation != e.generation {
          return Err(NO_LONGER_VALID);
        }
        entities := entities[e.index := state.(alive := true)];
        pendingCreates := pendingCreates - 1;
        live := live - {r};
        return Ok(());
      }
      GrownKeepsAppends(t, e.index + 1);
      var reached := GrowUpTo(e, t);
      if !reached {
        return Err(NO_LONGER_VALID);
      }
      var state := entities[e.index];
      if state.alive || !state.reserved || state.generation != e.generation {
        return Err(NO_LONGER_VALID);
      }
      entities := entities[e.index := state.(alive := true, reserved := false)];
      pendingCreates := pendingCreates - 1;
      pendingAppends := WithoutIndex(pendingAppends, e.index);
      live := live - {r};
      return Ok(());
    }

    /** Grows the table until it has the slot of a pending append. */
    method GrowUpTo(e: Entity, ghost t: Table) returns (reached: bool)
      requires TableInv(t) && View() == t && Reservation(e, false) in live
      modifies this`entities, this`freeIndices, this`nextGeneration
      ensures reached && View() == GrownTo(t, e.index + 1)
    {
      hide TableInv, GrownTo, Grown;
      PendingWhileHeld(t, e);
      while e.index >= |entities|
        invariant GrownTo(View(), e.index + 1) == GrownTo(t, e.index + 1)
        decreases e.index + 1 - |entities|
      {
        if PendingGeneration(pendingAppends, |entities|).None? && |entities| == e.index {
          return false;
        }
        GrownToStep(View(), e.index + 1);
        Grow();
      }
      GrownToDone(View(), e.index + 1);
      return true;
    }

    /** Commits a deferred create. The checks it makes never fail for a reservation that is still held. */
    method ApplyCreate(r: Reservation) returns (result: Result<(), TableError>)
      requires Valid() && topology.epoch < MAX_EPOCH && r in live
      modifies this, topology
      ensures Valid() && result == Ok(()) && View() == Applied(old(View()), r)
      ensures live == old(live) - {r} && issued == old(issued)
      ensures IsAlive(r.identity) && !old(IsAlive(r.identity))
      ensures topology.epoch == old(topology.epoch) + 1
      ensures topology.forest ==
                HierarchySpec.Created(old(topology.forest), HierarchySpec.EntityReference(topology.worldId, r.identity))
    {
      hide TableInv, Agree, HasEntity, TopologyState.Valid, HierarchySpec.Created, Applied, Born;
      ghost var t := View();
      AppliedKeepsInv(t, r);
      AppliedSlot(t, r);
      AppliedFits(t, r);
      AppliedIsBorn(t, r);
      result := ActivateSlot(r);
      EnterTopology(r.identity, t);
      BornAgrees(t, View(), topology.worldId, old(topology.forest), r.identity);
    }

    /** Forgets what is pending; once every reservation has been committed there is nothing to forget. */
    method ClearPending()
      requires Valid() && live == {}
      modifies this`pendingCreates, this`pendingAppends
      ensures View() == old(View()) && Valid()
    {
      NothingPending(View());
      pendingCreates := 0;
      pendingAppends := [];
    }

    /** Puts the free list in ascending order. */
    method SortFree()
      requires Valid()
      modifies this`freeIndices
      ensures Valid() && SortedBy(Lower, freeIndices) && View() == old(View()).(free := freeIndices)
      ensures multiset(freeIndices) == multiset(old(freeIndices))
    {
      hide Agree, TopologyState.Valid, TableInv, HasEntity, SortedBy;
      ghost var t := View();
      freeIndices := Sort(Lower, freeIndices);
      RearrangedFree(t, freeIndices);
      AliveUnchangedAgrees(t, View(), topology.worldId, topology.forest);
    }

    /** The table side of destroying a live entity. */
    method FreeSlot(e: Entity)
      requires IsAlive(e)
      modifies this`entities, this`freeIndices
      ensures View() == Destroyed(old(View()), e)
    {
      entities := entities[e.index := EntityState(entities[e.index].generation + 1, false, false)];
      freeIndices := freeIndices + [e.index];
    }

    /** Destroys an entity; a stale handle does nothing. */
    method DestroyEntity(e: Entity) returns (result: Result<(), TableError>)
      requires Valid()
      modifies this, topology
      ensures Valid() && live == old(live) && issued == old(issued)
      ensures topology.epoch <= old(topology.epoch) + 1
      ensures result.Err? <==> old(topology.epoch) == MAX_EPOCH
      ensures result.Err? ==> View() == old(View()) && topology.forest == old(topology.forest)
      ensures result.Ok? ==> View() == Destroyed(old(View()), e) && !IsAlive(e)
      ensures result.Ok? ==>
        topology.forest ==
          if old(IsAlive(e))
          then HierarchySpec.Destroyed(old(topology.forest), HierarchySpec.EntityReference(topology.worldId, e))
          else old(topology.forest)
    {
      ghost var t := View();
      DestroyedShape(t, e);
      hide TableInv, Agree, HasEntity, HierarchySpec.IsForest, Represents, HierarchySpec.Destroyed, Destroyed;
      if topology.epoch == MAX_EPOCH {
        return Err(TOPOLOGY_EXHAUSTED);
      }
      if !IsAlive(e) {
        return Ok(());
      }
      DestroyedKeepsInv(t, e);
      DestroyedAgrees(t, topology.worldId, topology.forest, e);
      topology.Destroy(e);
      FreeSlot(e);
      return Ok(());
    }
  }

  // ------------------------------------------------------- steps of the methods

  lemma DestroyedShape(t: Table, e: Entity)
    ensures var u := Destroyed(t, e);
            && |u.entities| == |t.entities| && u.live == t.live && u.issued == t.issued
            && (!HasEntity(t, e) ==> u == t)
  {
  }

  lemma NothingPending(t: Table)
    requires TableInv(t) && t.live == {}
    ensures t.pendingCreates == 0 && t.appends == []
  {
    if t.appends != [] {
      PendingMeansHeld(t);
    }
  }

  predicate Lower(a: nat, b: nat) { a < b }

  predicate Differ(a: nat, b: nat) { a != b }

  /** The order of the free list is immaterial to the invariant. */
  lemma RearrangedFree(t: Table, free: seq<nat>)
    requires TableInv(t) && multiset(free) == multiset(t.free)
    ensures TableInv(t.(free := free))
    ensures forall e :: HasEntity(t.(free := free), e) <==> HasEntity(t, e)
  {
    var u := t.(free := free);
    SameMembers(t.free, free);
    assert Pairwise(Differ, t.free);
    PairwiseInAnyOrder(Differ, t.free, free);
    assert Distinct(free);
    forall r | r in t.live
      ensures Holds(u, r)
    {
      assert Holds(t, r);
    }
    forall e | e in t.issued
      ensures WasIssued(u, e)
    {
      assert WasIssued(t, e);
    }
    forall i: nat | i < |u.entities|
      ensures IsCovered(u, i)
    {
      assert IsCovered(t, i);
      assert HeldAt(u, i) <==> HeldAt(t, i);
    }
    hide Holds, IsCovered, WasIssued, Distinct;
  }

  lemma LastFree(t: Table)
    requires TableInv(t)
    ensures t.free != [] ==> t.free[|t.free| - 1] < |t.entities|
  {
    if t.free != [] {
      PopKeepsFree(t);
    }
  }

  lemma ReservedSlot(t: Table, next: nat)
    requires TableInv(t) && next < LAST_INDEX && |t.entities| <= LAST_INDEX
    ensures var (u, r) := Reserved(t, next);
            r.identity.index < LAST_INDEX
  {
  }

  lemma HeldSlotOf(t: Table, r: Reservation)
    requires TableInv(t) && r in t.live
    ensures t.pendingCreates > 0 && (r.reusesFreeSlot ==> r.identity.index < |t.entities|)
  {
    HeldNow(t, r);
  }

  lemma ReleasedSlots(t: Table, r: Reservation)
    ensures |Released(t, r).entities| == |t.entities| && Released(t, r).live == t.live - {r}
  {
  }

  lemma AppliedFits(t: Table, r: Reservation)
    requires TableInv(t) && r in t.live && r.identity.index < LAST_INDEX && |t.entities| <= LAST_INDEX
    ensures |Applied(t, r).entities| <= LAST_INDEX && Applied(t, r).live == t.live - {r}
  {
    GrownToKeepsInv(t, r.identity.index + 1);
    HeldNow(t, r);
    hide TableInv, GrownTo;
  }

  lemma SetInList<T>(s: set<T>, xs: seq<T>)
    requires forall x :: x in s ==> x in xs
    ensures |s| <= |xs|
  {
    if s != {} {
      var x :| x in s;
      var k :| 0 <= k < |xs| && xs[k] == x;
      var rest := xs[..k] + xs[k + 1..];
      forall y | y in s - {x}
        ensures y in rest
      {
        var j :| 0 <= j < |xs| && xs[j] == y;
        assert rest[if j < k then j else j - 1] == y;
      }
      SetInList(s - {x}, rest);
    }
  }

  lemma AliveUnchangedAgrees(t: Table, u: Table, worldId: nat, f: Forest)
    requires Agree(t, worldId, f) && forall e :: HasEntity(u, e) <==> HasEntity(t, e)
    ensures Agree(u, worldId, f)
  {
    forall e: Entity
      ensures HasEntity(u, e) <==> HierarchySpec.EntityReference(worldId, e) in f
    {
      assert HasEntity(t, e) <==> HierarchySpec.EntityReference(worldId, e) in f;
    }
  }

  lemma ReservedKeepsAlive(t: Table, next: nat, worldId: nat, f: Forest)
    requires Agree(t, worldId, f)
    ensures Agree(Reserved(t, next).0, worldId, f)
  {
    AliveUnchangedAgrees(t, Reserved(t, next).0, worldId, f);
  }

  lemma AppliedIsBorn(t: Table, r: Reservation)
    requires TableInv(t) && r in t.live && r.identity.index < LAST_INDEX
    ensures Born(t, Applied(t, r), r.identity)
  {
    AppliedKeepsInv(t, r);
    hide TableInv, Applied, HasEntity;
  }

  /** The slot of a held reservation, once the table reaches it. */
  lemma AppliedSlot(t: Table, r: Reservation)
    requires TableInv(t) && r in t.live
    ensures t.pendingCreates > 0 && r.identity.index < |GrownTo(t, r.identity.index + 1).entities|
    ensures r.identity.index < |t.entities| ==> !t.entities[r.identity.index].alive
    ensures r.reusesFreeSlot ==> r.identity.index < |t.entities|
    ensures var g := if r.reusesFreeSlot then t else GrownTo(t, r.identity.index + 1);
            g.entities[r.identity.index] == EntityState(r.identity.generation, false, !r.reusesFreeSlot)
  {
    HeldNow(t, r);
    GrownToKeepsInv(t, r.identity.index + 1);
    var g := if r.reusesFreeSlot then t else GrownTo(t, r.identity.index + 1);
    ActivatedKeepsInv(g, r);
  }

  lemma {:induction false} GrownKeepsAppends(t: Table, n: nat)
    ensures GrownTo(t, n).appends == t.appends && GrownTo(t, n).pendingCreates == t.pendingCreates
    decreases n - |t.entities|
  {
    if |t.entities| < n {
      GrownKeepsAppends(Grown(t), n);
    }
  }

  lemma PendingWhileHeld(t: Table, e: Entity)
    requires TableInv(t) && Reservation(e, false) in t.live
    ensures PendingGeneration(t.appends, e.index).Some?
  {
    HeldNow(t, Reservation(e, false));
    PendingGenerationIs(t.appends, e.index);
  }

  lemma GrownToStep(t: Table, n: nat)
    requires |t.entities| < n
    ensures GrownTo(t, n) == GrownTo(Grown(t), n)
  {
  }

  lemma GrownToDone(t: Table, n: nat)
    requires |t.entities| >= n
    ensures GrownTo(t, n) == t
  {
  }
}

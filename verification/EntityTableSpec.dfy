/** The entity slot table as a value, with the reservations still held and the handles ever handed out. */
module EntityTableSpec {
  import opened Wrappers
  import opened Reordering
  import opened HierarchySpec

  datatype EntityState = EntityState(generation: nat, alive: bool, reserved: bool)

  /** A promise of an identity: of a slot taken from the free list, or of a slot still to be appended. */
  datatype Reservation = Reservation(identity: Entity, reusesFreeSlot: bool)

  datatype Table = Table(
    entities: seq<EntityState>,
    free: seq<nat>,
    appends: seq<Entity>,
    pendingCreates: nat,
    nextGeneration: nat,
    live: set<Reservation>,
    issued: set<Entity>)

  const EMPTY_TABLE := Table([], [], [], 0, 0, {}, {})

  predicate HasEntity(t: Table, e: Entity) {
    && e.index != INVALID_INDEX
    && e.index < |t.entities|
    && t.entities[e.index].alive
    && t.entities[e.index].generation == e.generation
  }

  // ------------------------------------------------------------ invariant

  ghost predicate FreeSlots(t: Table) {
    && Distinct(t.free)
    && forall i :: i in t.free ==> i < |t.entities| && !t.entities[i].alive && !t.entities[i].reserved
  }

  ghost predicate Holds(t: Table, r: Reservation) {
    var i := r.identity.index;
    if r.reusesFreeSlot then
      && i < |t.entities| && i !in t.free
      && t.entities[i] == EntityState(r.identity.generation, false, false)
    else
      && r.identity in t.appends
      && (i < |t.entities| ==> t.entities[i] == EntityState(r.identity.generation, false, true))
  }

  ghost predicate HeldSlots(t: Table) {
    && (forall r :: r in t.live ==> Holds(t, r))
    && (forall a, b :: a in t.live && b in t.live && a.identity.index == b.identity.index ==> a == b)
    && Distinct(t.appends)
    && (forall e :: e in t.appends ==> Reservation(e, false) in t.live)
    && t.pendingCreates == |t.live|
  }

  ghost predicate HeldAt(t: Table, i: nat) {
    exists r :: r in t.live && r.identity.index == i
  }

  /** A live slot is neither reserved nor free. */
  ghost predicate AliveSlots(t: Table) {
    forall i: nat :: i < |t.entities| && t.entities[i].alive ==> !t.entities[i].reserved && i !in t.free
  }

  /** The slot is alive, free or held. */
  ghost predicate IsCovered(t: Table, i: nat)
    requires i < |t.entities|
  {
    t.entities[i].alive || i in t.free || HeldAt(t, i)
  }

  ghost predicate Covered(t: Table) {
    forall i: nat :: i < |t.entities| ==> IsCovered(t, i)
  }

  /** A handle on a slot is older than the slot's generation unless the slot is alive or held under it. */
  ghost predicate WasIssued(t: Table, e: Entity) {
    if e.index < |t.entities| then
      || e.generation < t.entities[e.index].generation
      || (e.generation == t.entities[e.index].generation && e.index !in t.free)
    else
      && e.generation < t.nextGeneration
      && forall p :: p in t.appends && p.index == e.index ==> e.generation <= p.generation
  }

  ghost predicate IssuedHandles(t: Table) {
    && (forall e :: e in t.issued ==> WasIssued(t, e))
    && (forall r :: r in t.live ==> r.identity in t.issued)
    && (forall i: nat :: i < |t.entities| && t.entities[i].alive ==> Entity(i, t.entities[i].generation) in t.issued)
  }

  /** What every operation keeps, even the rollback of a reservation that a failed commit has materialised. */
  ghost predicate HandleInv(t: Table) {
    FreeSlots(t) && HeldSlots(t) && AliveSlots(t) && IssuedHandles(t)
  }

  ghost predicate TableInv(t: Table) {
    HandleInv(t) && Covered(t)
  }

  /** Every slot is exactly one of alive, free (once), or held by one reservation. */
  ghost predicate Partitioned(t: Table) {
    && Distinct(t.free)
    && forall i: nat :: i < |t.entities| ==>
         && (t.entities[i].alive || i in t.free || HeldAt(t, i))
         && !(t.entities[i].alive && i in t.free)
         && !(t.entities[i].alive && HeldAt(t, i))
         && !(i in t.free && HeldAt(t, i))
         && forall a, b :: a in t.live && b in t.live && a.identity.index == i == b.identity.index ==> a == b
  }

  lemma HeldIsUnused(t: Table)
    requires HandleInv(t)
    ensures forall i: nat :: i < |t.entities| && HeldAt(t, i) ==> !t.entities[i].alive && i !in t.free
  {
    forall i: nat | i < |t.entities| && HeldAt(t, i)
      ensures !t.entities[i].alive && i !in t.free
    {
      var r :| r in t.live && r.identity.index == i;
      assert Holds(t, r);
    }
  }

  lemma InvPartitions(t: Table)
    requires TableInv(t)
    ensures Partitioned(t)
  {
    HeldIsUnused(t);
    forall i: nat | i < |t.entities|
      ensures t.entities[i].alive || i in t.free || HeldAt(t, i)
    {
      assert IsCovered(t, i);
    }
  }

  lemma EmptyTableInv()
    ensures TableInv(EMPTY_TABLE)
  {
  }

  // ------------------------------------------------------------ operations

  /** An immediate create: the last free slot, or a new one. */
  function Created(t: Table): (Table, Entity) {
    if t.free != [] then
      var i := t.free[|t.free| - 1];
      if i < |t.entities| then
        var e := Entity(i, t.entities[i].generation);
        (t.(free := t.free[..|t.free| - 1], entities := t.entities[i := t.entities[i].(alive := true)],
            issued := t.issued + {e}), e)
      else (t, Entity(INVALID_INDEX, 0))
    else
      var e := Entity(|t.entities|, t.nextGeneration);
      (t.(entities := t.entities + [EntityState(t.nextGeneration, true, false)],
          nextGeneration := t.nextGeneration + 1, issued := t.issued + {e}), e)
  }

  ghost predicate AppendTaken(t: Table, i: nat) {
    exists p :: p in t.appends && p.index == i
  }

  /** The least index past the table that no pending append has. */
  ghost predicate IsNextAppend(t: Table, i: nat) {
    && |t.entities| <= i
    && !AppendTaken(t, i)
    && forall j :: |t.entities| <= j < i ==> AppendTaken(t, j)
  }

  /** A deferred create reserves the last free slot, or the next index to append. */
  function Reserved(t: Table, next: nat): (Table, Reservation) {
    if t.free != [] && t.free[|t.free| - 1] < |t.entities| then
      var i := t.free[|t.free| - 1];
      var r := Reservation(Entity(i, t.entities[i].generation), true);
      (t.(free := t.free[..|t.free| - 1], pendingCreates := t.pendingCreates + 1,
          live := t.live + {r}, issued := t.issued + {r.identity}), r)
    else
      var r := Reservation(Entity(next, t.nextGeneration), false);
      (t.(appends := t.appends + [r.identity], nextGeneration := t.nextGeneration + 1,
          pendingCreates := t.pendingCreates + 1, live := t.live + {r}, issued := t.issued + {r.identity}), r)
  }

  /** The list without its first entity of that index. */
  function WithoutIndex(s: seq<Entity>, i: nat): seq<Entity> {
    if s == [] then [] else if s[0].index == i then s[1..] else [s[0]] + WithoutIndex(s[1..], i)
  }

  /** A reservation is given up: a reused slot moves on to the next generation, an append is forgotten. */
  function Released(t: Table, r: Reservation): Table {
    var i := r.identity.index;
    if r.reusesFreeSlot && i < |t.entities| then
      t.(entities := t.entities[i := t.entities[i].(generation := t.entities[i].generation + 1)],
         free := t.free + [i], pendingCreates := if t.pendingCreates > 0 then t.pendingCreates - 1 else 0,
         live := t.live - {r})
    else
      t.(appends := WithoutIndex(t.appends, i),
         pendingCreates := if t.pendingCreates > 0 then t.pendingCreates - 1 else 0,
         live := t.live - {r})
  }

  function PendingGeneration(s: seq<Entity>, i: nat): Option<nat> {
    if s == [] then None else if s[0].index == i then Some(s[0].generation) else PendingGeneration(s[1..], i)
  }

  /** The table grows by one slot: a held one if an append is pending there, otherwise a free one of a new generation. */
  function Grown(t: Table): Table {
    var i := |t.entities|;
    match PendingGeneration(t.appends, i)
    case Some(g) =>
      t.(entities := t.entities + [EntityState(g, false, true)], nextGeneration := t.nextGeneration + 1)
    case None =>
      t.(entities := t.entities + [EntityState(t.nextGeneration, false, false)], free := t.free + [i],
         nextGeneration := t.nextGeneration + 1)
  }

  function GrownTo(t: Table, n: nat): Table
    decreases n - |t.entities|
  {
    if |t.entities| >= n then t else GrownTo(Grown(t), n)
  }

  /** A held slot comes alive. */
  function Activated(t: Table, r: Reservation): Table {
    var i := r.identity.index;
    if i < |t.entities| then
      t.(entities := t.entities[i := t.entities[i].(alive := true, reserved := false)],
         appends := if r.reusesFreeSlot then t.appends else WithoutIndex(t.appends, i),
         pendingCreates := if t.pendingCreates > 0 then t.pendingCreates - 1 else 0,
         live := t.live - {r})
    else t
  }

  /** Committing a deferred create. */
  function Applied(t: Table, r: Reservation): Table {
    Activated(if r.reusesFreeSlot then t else GrownTo(t, r.identity.index + 1), r)
  }

  function Destroyed(t: Table, e: Entity): Table {
    if HasEntity(t, e) then
      t.(entities := t.entities[e.index := EntityState(t.entities[e.index].generation + 1, false, false)],
         free := t.free + [e.index])
    else t
  }

  // ----------------------------------------------------- list bookkeeping

  lemma DistinctTail<T>(s: seq<T>)
    requires Distinct(s) && s != []
    ensures Distinct(s[1..]) && s[0] !in s[1..] && s == [s[0]] + s[1..]
  {
    assert forall i, j :: 0 <= i < j < |s[1..]| ==> s[1..][i] == s[i + 1] && s[1..][j] == s[j + 1];
  }

  lemma DistinctCons<T>(x: T, s: seq<T>)
    requires Distinct(s) && x !in s
    ensures Distinct([x] + s)
  {
  }

  lemma DistinctSnoc<T>(s: seq<T>, x: T)
    requires Distinct(s) && x !in s
    ensures Distinct(s + [x]) && forall y :: y in s + [x] <==> y in s || y == x
  {
    assert (s + [x])[|s|] == x;
  }

  lemma {:induction false} WithoutIndexIs(s: seq<Entity>, e: Entity)
    requires Distinct(s) && e in s
    requires forall a, b :: a in s && b in s && a.index == b.index ==> a == b
    ensures Distinct(WithoutIndex(s, e.index))
    ensures forall x :: x in WithoutIndex(s, e.index) <==> x in s && x != e
  {
    DistinctTail(s);
    hide Distinct;
    assert s[0] in s;
    if s[0].index != e.index {
      WithoutIndexIs(s[1..], e);
      DistinctCons(s[0], WithoutIndex(s[1..], e.index));
    }
  }

  lemma {:induction false} PendingGenerationIs(s: seq<Entity>, i: nat)
    ensures match PendingGeneration(s, i)
            case Some(g) => Entity(i, g) in s
            case None => forall p :: p in s ==> p.index != i
  {
    if s != [] {
      assert s == [s[0]] + s[1..];
      PendingGenerationIs(s[1..], i);
    }
  }

  lemma AppendsHaveOneIndex(t: Table)
    requires HeldSlots(t)
    ensures forall a, b :: a in t.appends && b in t.appends && a.index == b.index ==> a == b
  {
    forall a, b | a in t.appends && b in t.appends && a.index == b.index
      ensures a == b
    {
      assert Reservation(a, false) in t.live && Reservation(b, false) in t.live;
    }
  }

  // ----------------------------------------------------------- preservation

  lemma PendingMeansHeld(t: Table)
    requires HeldSlots(t) && t.appends != []
    ensures t.live != {}
  {
    assert t.appends[0] in t.appends;
  }

  /** An immediate create while nothing is pending hands out a handle never seen before and loses no slot. */
  lemma CreatedKeepsHandles(t: Table)
    requires HandleInv(t) && t.pendingCreates == 0
    ensures var (u, e) := Created(t);
            && HandleInv(u) && (Covered(t) ==> Covered(u))
            && e !in t.issued && u.issued == t.issued + {e}
            && u.entities == (if e.index < |t.entities| then t.entities[e.index := EntityState(e.generation, true, false)]
                              else t.entities + [EntityState(e.generation, true, false)])
            && (e.index < |t.entities| ==> !t.entities[e.index].alive)
  {
    assert t.live == {};
    if t.appends != [] {
      PendingMeansHeld(t);
    }
    if t.free != [] {
      PopKeepsFree(t);
    }
    if Covered(t) {
      CreatedCovers(t);
    }
  }

  lemma CreatedCovers(t: Table)
    requires FreeSlots(t) && Covered(t)
    ensures Covered(Created(t).0)
  {
    var u := Created(t).0;
    if t.free != [] {
      PopKeepsFree(t);
    }
    forall i: nat | i < |u.entities|
      ensures IsCovered(u, i)
    {
      assert i < |t.entities| ==> IsCovered(t, i);
      assert HeldAt(t, i) ==> HeldAt(u, i);
    }
  }

  lemma CreatedKeepsInv(t: Table)
    requires TableInv(t) && t.pendingCreates == 0
    ensures var (u, e) := Created(t);
            && TableInv(u)
            && e !in t.issued && u.issued == t.issued + {e}
            && u.entities == (if e.index < |t.entities| then t.entities[e.index := EntityState(e.generation, true, false)]
                              else t.entities + [EntityState(e.generation, true, false)])
            && (e.index < |t.entities| ==> !t.entities[e.index].alive)
  {
    CreatedKeepsHandles(t);
    hide HandleInv, Covered;
  }

  /** What popping the free list leaves. */
  lemma PopKeepsFree(t: Table)
    requires FreeSlots(t) && t.free != []
    ensures var n := |t.free| - 1;
            && Distinct(t.free[..n])
            && t.free[n] < |t.entities| && !t.entities[t.free[n]].alive && !t.entities[t.free[n]].reserved
            && forall i :: i in t.free[..n] <==> i in t.free && i != t.free[n]
  {
    var n := |t.free| - 1;
    assert t.free[n] in t.free;
    forall i | i in t.free && i != t.free[n]
      ensures i in t.free[..n]
    {
      var k :| 0 <= k < |t.free| && t.free[k] == i;
      assert t.free[..n][k] == i;
    }
  }

  /** A reservation hands out a handle never seen before. */
  lemma ReservedKeepsHandles(t: Table, next: nat)
    requires HandleInv(t) && IsNextAppend(t, next)
    ensures var (u, r) := Reserved(t, next);
            && HandleInv(u) && (Covered(t) ==> Covered(u))
            && r !in t.live && u.live == t.live + {r}
            && r.identity !in t.issued && u.issued == t.issued + {r.identity}
            && u.entities == t.entities
  {
    if t.free != [] {
      PopKeepsFree(t);
      ReuseKeepsHandles(t);
    } else {
      AppendKeepsHandles(t, next);
    }
    if Covered(t) {
      ReservedCovers(t, next);
    }
  }

  lemma ReservedKeepsInv(t: Table, next: nat)
    requires TableInv(t) && IsNextAppend(t, next)
    ensures var (u, r) := Reserved(t, next);
            && TableInv(u)
            && r !in t.live && u.live == t.live + {r}
            && r.identity !in t.issued && u.issued == t.issued + {r.identity}
            && u.entities == t.entities
  {
    ReservedKeepsHandles(t, next);
    hide HandleInv, Covered;
  }

  lemma HeldNow(t: Table, r: Reservation)
    requires HandleInv(t) && r in t.live
    ensures Holds(t, r) && r.identity in t.issued && t.pendingCreates == |t.live| > 0
  {
    assert t.live != {};
  }

  lemma HeldIs(t: Table, r: Reservation)
    requires r in t.live
    ensures HeldAt(t, r.identity.index)
  {
  }

  lemma ReservedCovers(t: Table, next: nat)
    requires FreeSlots(t) && Covered(t)
    ensures Covered(Reserved(t, next).0)
  {
    var (u, r) := Reserved(t, next);
    if t.free != [] {
      PopKeepsFree(t);
    }
    forall i: nat | i < |u.entities|
      ensures IsCovered(u, i)
    {
      assert IsCovered(t, i);
      if HeldAt(t, i) {
        var a :| a in t.live && a.identity.index == i;
        HeldIs(u, a);
      }
      HeldIs(u, r);
    }
  }

  /** A free slot is held by nobody and its current generation has not been handed out. */
  lemma FreeIsUnused(t: Table, i: nat)
    requires HandleInv(t) && i in t.free
    ensures i < |t.entities| && !HeldAt(t, i)
    ensures Entity(i, t.entities[i].generation) !in t.issued
  {
    HeldIsUnused(t);
    assert !WasIssued(t, Entity(i, t.entities[i].generation));
  }

  lemma ReuseKeepsHandles(t: Table)
    requires HandleInv(t) && t.free != [] && t.free[|t.free| - 1] < |t.entities|
    ensures var (u, r) := Reserved(t, 0);
            HandleInv(u) && r !in t.live && r.identity !in t.issued
  {
    hide FreeSlots, AliveSlots, HeldSlots, IssuedHandles, HeldAt;
    var (u, r) := Reserved(t, 0);
    assert r.identity.index in t.free;
    FreeIsUnused(t, r.identity.index);
    if r in t.live { HeldIs(t, r); }
    ReuseKeepsHeld(t);
    ReuseKeepsSlots(t);
    ReuseKeepsIssued(t);
  }

  lemma ReuseKeepsSlots(t: Table)
    requires FreeSlots(t) && AliveSlots(t) && t.free != [] && t.free[|t.free| - 1] < |t.entities|
    ensures FreeSlots(Reserved(t, 0).0) && AliveSlots(Reserved(t, 0).0)
  {
    PopKeepsFree(t);
  }

  lemma ReuseKeepsIssued(t: Table)
    requires FreeSlots(t) && IssuedHandles(t) && t.free != [] && t.free[|t.free| - 1] < |t.entities|
    ensures IssuedHandles(Reserved(t, 0).0)
  {
    PopKeepsFree(t);
    var (u, r) := Reserved(t, 0);
    forall e | e in u.issued
      ensures WasIssued(u, e)
    {
      assert e in t.issued ==> WasIssued(t, e);
    }
  }

  lemma ReuseKeepsHeld(t: Table)
    requires HandleInv(t) && t.free != [] && t.free[|t.free| - 1] < |t.entities|
    ensures HeldSlots(Reserved(t, 0).0)
  {
    hide HandleInv, HeldAt, Holds, HasEntity;
    var (u, r) := Reserved(t, 0);
    var i := r.identity.index;
    PopKeepsHolding(t);
    forall a | a in t.live
      ensures a.identity.index != i
    {
      HeldIs(t, a);
    }
    if r in t.live { HeldIs(t, r); }
    HeldOneMore(t, u, r);
  }

  /** The slot on top of the free list is held by nobody, and taking it from the list changes no other holding. */
  lemma PopKeepsHolding(t: Table)
    requires HandleInv(t) && t.free != [] && t.free[|t.free| - 1] < |t.entities|
    ensures var (u, r) := Reserved(t, 0);
            HeldSlots(t) && Holds(u, r) && !HeldAt(t, r.identity.index) && forall a :: a in t.live ==> Holds(u, a)
  {
    hide AliveSlots, IssuedHandles, HeldAt;
    PopKeepsFree(t);
    assert t.free[|t.free| - 1] in t.free;
    FreeIsUnused(t, t.free[|t.free| - 1]);
    forall a | a in t.live
      ensures Holds(Reserved(t, 0).0, a)
    {
      assert Holds(t, a);
    }
  }

  lemma HeldOneMore(t: Table, u: Table, r: Reservation)
    requires HeldSlots(t) && r !in t.live && r.reusesFreeSlot && u.live == t.live + {r} && u.appends == t.appends
    requires u.pendingCreates == t.pendingCreates + 1 && forall a :: a in u.live ==> Holds(u, a)
    requires forall a :: a in t.live ==> a.identity.index != r.identity.index
    ensures HeldSlots(u)
  {
    hide Holds, Distinct;
  }

  lemma AppendKeepsHandles(t: Table, next: nat)
    requires HandleInv(t) && t.free == [] && IsNextAppend(t, next)
    ensures var (u, r) := Reserved(t, next);
            HandleInv(u) && r !in t.live && r.identity !in t.issued
  {
    AppendKeepsHeld(t, next);
    AppendKeepsIssued(t, next);
    hide HeldSlots, IssuedHandles;
  }

  lemma AppendKeepsIssued(t: Table, next: nat)
    requires IssuedHandles(t) && t.free == [] && IsNextAppend(t, next)
    ensures IssuedHandles(Reserved(t, next).0) && Reserved(t, next).1.identity !in t.issued
  {
    var (u, r) := Reserved(t, next);
    assert !WasIssued(t, r.identity);
    assert forall p :: p in u.appends ==> p in t.appends || p == r.identity;
    forall e | e in u.issued
      ensures WasIssued(u, e)
    {
      assert e in t.issued ==> WasIssued(t, e);
    }
    hide WasIssued, IsNextAppend;
  }

  lemma AppendKeepsHeld(t: Table, next: nat)
    requires HandleInv(t) && t.free == [] && IsNextAppend(t, next)
    ensures var (u, r) := Reserved(t, next);
            HeldSlots(u) && r !in t.live
  {
    var (u, r) := Reserved(t, next);
    hide AliveSlots, IssuedHandles;
    forall a | a in t.live
      ensures Holds(u, a) && a.identity.index != next
    {
      assert Holds(t, a);
    }
    assert r.identity !in t.appends;
    assert Holds(u, r);
    assert Distinct(u.appends);
  }

  // ------------------------------------------------------- giving up a promise

  /** A commit that failed halfway has pushed the slot of the reservation without getting to its command. */
  predicate Materialised(t: Table, r: Reservation) { !r.reusesFreeSlot && r.identity.index < |t.entities| }

  /** Releasing any reservation keeps every handle unique. */
  lemma ReleasedKeepsHandles(t: Table, r: Reservation)
    requires HandleInv(t) && r in t.live
    ensures HandleInv(Released(t, r))
    ensures Released(t, r).live == t.live - {r} && Released(t, r).issued == t.issued
    ensures forall e :: HasEntity(Released(t, r), e) <==> HasEntity(t, e)
  {
    HeldNow(t, r);
    if r.reusesFreeSlot {
      ReleaseReusedKeepsHandles(t, r);
    } else {
      ReleaseAppendHeld(t, r);
      ReleaseAppendIssued(t, r);
      hide FreeSlots, HeldSlots, IssuedHandles;
      assert FreeSlots(t) ==> FreeSlots(Released(t, r)) by { SameFree(t, Released(t, r)); }
    }
  }

  /**
   * Releasing a reservation keeps the invariant exactly when its slot is not one that a commit
   * materialised and did not get to: such a slot would stay reserved with nobody holding it.
   */
  lemma ReleasedKeepsInv(t: Table, r: Reservation)
    requires TableInv(t) && r in t.live
    ensures TableInv(Released(t, r)) <==> !Materialised(t, r)
    ensures Released(t, r).live == t.live - {r} && Released(t, r).issued == t.issued
    ensures forall e :: HasEntity(Released(t, r), e) <==> HasEntity(t, e)
  {
    ReleasedKeepsHandles(t, r);
    if Materialised(t, r) {
      SlotLost(t, r);
    } else {
      ReleasedCovers(t, r);
    }
    hide HandleInv, Covered;
  }

  lemma ReleasedCovers(t: Table, r: Reservation)
    requires Covered(t) && r in t.live && (r.reusesFreeSlot ==> r.identity.index < |t.entities|) && !Materialised(t, r)
    ensures Covered(Released(t, r))
  {
    var u := Released(t, r);
    HeldElsewhere(t, u, r);
    assert r.reusesFreeSlot ==> u.free[|t.free|] == r.identity.index;
    forall i: nat | i < |u.entities|
      ensures IsCovered(u, i)
    {
      assert IsCovered(t, i);
    }
  }

  /** The slot of a materialised reservation that is released is neither alive nor free nor held. */
  lemma SlotLost(t: Table, r: Reservation)
    requires HandleInv(t) && r in t.live && Materialised(t, r)
    ensures var u := Released(t, r);
            && u.entities[r.identity.index] == EntityState(r.identity.generation, false, true)
            && r.identity.index !in u.free && !HeldAt(u, r.identity.index)
            && !IsCovered(u, r.identity.index) && !Covered(u)
  {
    var u := Released(t, r);
    var i := r.identity.index;
    HeldNow(t, r);
    HeldIsUnused(t);
    assert HeldAt(t, i);
    assert !HeldAt(u, i);
  }

  lemma OthersHeld(t: Table, r: Reservation, a: Reservation)
    requires HandleInv(t) && r in t.live && a in t.live && a != r
    ensures a.identity.index != r.identity.index && Holds(t, a)
  {
  }

  lemma HeldElsewhere(t: Table, u: Table, r: Reservation)
    requires r in t.live && u.live == t.live - {r}
    ensures forall j: nat :: HeldAt(t, j) && j != r.identity.index ==> HeldAt(u, j)
  {
    forall j: nat | HeldAt(t, j) && j != r.identity.index
      ensures HeldAt(u, j)
    {
      var a :| a in t.live && a.identity.index == j;
      assert a in u.live;
    }
  }

  lemma ReleaseReusedKeepsHandles(t: Table, r: Reservation)
    requires HandleInv(t) && r in t.live && r.reusesFreeSlot
    ensures HandleInv(Released(t, r))
    ensures forall e :: HasEntity(Released(t, r), e) <==> HasEntity(t, e)
  {
    hide FreeSlots, AliveSlots, HeldSlots, IssuedHandles;
    HeldNow(t, r);
    ReleaseReusedKeepsSlots(t, r);
    ReleaseReusedKeepsHeld(t, r);
    ReleaseReusedKeepsIssued(t, r);
  }

  lemma ReleaseReusedKeepsSlots(t: Table, r: Reservation)
    requires FreeSlots(t) && AliveSlots(t) && Holds(t, r) && r.reusesFreeSlot
    ensures FreeSlots(Released(t, r)) && AliveSlots(Released(t, r))
  {
    var u := Released(t, r);
    assert r.identity.index in u.free by { assert u.free[|t.free|] == r.identity.index; }
  }

  lemma ReleaseReusedKeepsHeld(t: Table, r: Reservation)
    requires HandleInv(t) && r in t.live && r.reusesFreeSlot
    ensures HeldSlots(Released(t, r))
  {
    var u := Released(t, r);
    HeldNow(t, r);
    forall a | a in u.live
      ensures Holds(u, a)
    {
      OthersHeld(t, r, a);
    }
  }

  lemma ReleaseReusedKeepsIssued(t: Table, r: Reservation)
    requires IssuedHandles(t) && Holds(t, r) && r.reusesFreeSlot
    ensures IssuedHandles(Released(t, r))
  {
    var u := Released(t, r);
    forall e | e in u.issued
      ensures WasIssued(u, e)
    {
      assert WasIssued(t, e);
    }
  }

  lemma SameFree(t: Table, u: Table)
    requires u.free == t.free && u.entities == t.entities
    ensures FreeSlots(t) ==> FreeSlots(u)
  {
  }

  lemma ReleaseAppendHeld(t: Table, r: Reservation)
    requires HandleInv(t) && r in t.live && !r.reusesFreeSlot
    ensures HeldSlots(Released(t, r))
  {
    var u := Released(t, r);
    HeldNow(t, r);
    AppendsHaveOneIndex(t);
    WithoutIndexIs(t.appends, r.identity);
    forall a | a in u.live
      ensures Holds(u, a)
    {
      OthersHeld(t, r, a);
    }
    hide FreeSlots, IssuedHandles, AliveSlots, Distinct, Holds;
  }

  lemma ReleaseAppendIssued(t: Table, r: Reservation)
    requires HandleInv(t) && r in t.live && !r.reusesFreeSlot
    ensures IssuedHandles(Released(t, r))
  {
    var u := Released(t, r);
    HeldNow(t, r);
    AppendsHaveOneIndex(t);
    WithoutIndexIs(t.appends, r.identity);
    hide HeldSlots;
    forall e | e in u.issued
      ensures WasIssued(u, e)
    {
      assert WasIssued(t, e);
    }
    hide WasIssued, HeldAt;
  }

  // -------------------------------------------------------- committing creates

  lemma GrownKeepsHandles(t: Table)
    requires HandleInv(t)
    ensures HandleInv(Grown(t)) && (Covered(t) ==> Covered(Grown(t)))
    ensures Grown(t).live == t.live && Grown(t).issued == t.issued
    ensures |Grown(t).entities| == |t.entities| + 1 && t.entities <= Grown(t).entities
  {
    GrownKeepsHeld(t);
    GrownKeepsIssued(t);
    if Covered(t) {
      GrownCovers(t);
    }
    DistinctSnoc(t.free, |t.entities|);
    hide HeldSlots, IssuedHandles, Covered, Distinct;
  }

  lemma GrownKeepsHeld(t: Table)
    requires HeldSlots(t) && FreeSlots(t)
    ensures HeldSlots(Grown(t))
  {
    var u := Grown(t);
    PendingGenerationIs(t.appends, |t.entities|);
    AppendsHaveOneIndex(t);
    forall a | a in u.live
      ensures Holds(u, a)
    {
      assert Holds(t, a);
    }
    hide Holds, Distinct, FreeSlots;
  }

  lemma GrownCovers(t: Table)
    requires HeldSlots(t) && Covered(t) && FreeSlots(t)
    ensures Covered(Grown(t))
  {
    var u := Grown(t);
    var n := |t.entities|;
    PendingGenerationIs(t.appends, n);
    if PendingGeneration(t.appends, n).Some? {
      assert Reservation(Entity(n, PendingGeneration(t.appends, n).value), false) in u.live;
      assert HeldAt(u, n);
    }
    hide Holds, Distinct;
    forall i: nat | i < |u.entities|
      ensures IsCovered(u, i)
    {
      assert i < n ==> IsCovered(t, i);
      assert HeldAt(u, i) <==> HeldAt(t, i);
    }
  }

  lemma GrownKeepsIssued(t: Table)
    requires HandleInv(t)
    ensures IssuedHandles(Grown(t))
  {
    var u := Grown(t);
    var i := |t.entities|;
    PendingGenerationIs(t.appends, i);
    hide HeldSlots;
    forall e | e in u.issued
      ensures WasIssued(u, e)
    {
      assert WasIssued(t, e);
      if e.index == i && PendingGeneration(t.appends, i).Some? {
        assert Entity(i, PendingGeneration(t.appends, i).value) in t.appends;
      }
    }
  }

  lemma {:induction false} GrownToKeepsHandles(t: Table, n: nat)
    requires HandleInv(t)
    ensures var u := GrownTo(t, n);
            && HandleInv(u) && (Covered(t) ==> Covered(u)) && u.live == t.live && u.issued == t.issued
            && t.entities <= u.entities && |u.entities| == if |t.entities| >= n then |t.entities| else n
    decreases n - |t.entities|
  {
    hide HandleInv, Covered, Grown;
    if |t.entities| < n {
      GrownKeepsHandles(t);
      GrownToKeepsHandles(Grown(t), n);
    }
  }

  lemma GrownToKeepsInv(t: Table, n: nat)
    requires TableInv(t)
    ensures var u := GrownTo(t, n);
            && TableInv(u) && u.live == t.live && u.issued == t.issued
            && t.entities <= u.entities && |u.entities| == if |t.entities| >= n then |t.entities| else n
  {
    GrownToKeepsHandles(t, n);
    hide HandleInv, Covered;
  }

  /** A held slot within the table comes alive under the promised handle. */
  lemma ActivatedKeepsHandles(t: Table, r: Reservation)
    requires HandleInv(t) && r in t.live && r.identity.index < |t.entities|
    ensures var u := Activated(t, r);
            && HandleInv(u) && (Covered(t) ==> Covered(u)) && u.live == t.live - {r} && u.issued == t.issued
            && u.entities == t.entities[r.identity.index := EntityState(r.identity.generation, true, false)]
    ensures !t.entities[r.identity.index].alive && t.entities[r.identity.index].reserved == !r.reusesFreeSlot
    ensures t.entities[r.identity.index].generation == r.identity.generation
  {
    HeldNow(t, r);
    ActivatedSlots(t, r);
    hide HeldSlots, IssuedHandles, Covered, FreeSlots, AliveSlots;
    ActivatedHeld(t, r);
    ActivatedIssued(t, r);
    if Covered(t) {
      ActivatedCovers(t, r);
    }
  }

  lemma ActivatedSlots(t: Table, r: Reservation)
    requires HandleInv(t) && r in t.live && r.identity.index < |t.entities|
    ensures FreeSlots(Activated(t, r)) && AliveSlots(Activated(t, r))
  {
    HeldNow(t, r);
    HeldIsUnused(t);
    assert HeldAt(t, r.identity.index);
    hide HeldSlots, IssuedHandles;
  }

  lemma ActivatedKeepsInv(t: Table, r: Reservation)
    requires TableInv(t) && r in t.live && r.identity.index < |t.entities|
    ensures var u := Activated(t, r);
            && TableInv(u) && u.live == t.live - {r} && u.issued == t.issued
            && u.entities == t.entities[r.identity.index := EntityState(r.identity.generation, true, false)]
    ensures !t.entities[r.identity.index].alive && t.entities[r.identity.index].reserved == !r.reusesFreeSlot
    ensures t.entities[r.identity.index].generation == r.identity.generation
  {
    ActivatedKeepsHandles(t, r);
    hide HandleInv, Covered;
  }

  lemma ActivatedCovers(t: Table, r: Reservation)
    requires Covered(t) && r in t.live && r.identity.index < |t.entities|
    ensures Covered(Activated(t, r))
  {
    var u := Activated(t, r);
    HeldElsewhere(t, u, r);
    forall i: nat | i < |u.entities|
      ensures IsCovered(u, i)
    {
      assert IsCovered(t, i);
    }
  }

  lemma ActivatedIssued(t: Table, r: Reservation)
    requires HandleInv(t) && r in t.live && r.identity.index < |t.entities|
    ensures IssuedHandles(Activated(t, r))
  {
    HeldNow(t, r);
    HeldIsUnused(t);
    assert HeldAt(t, r.identity.index);
    AppendsHaveOneIndex(t);
    if !r.reusesFreeSlot {
      WithoutIndexIs(t.appends, r.identity);
    }
    hide HeldSlots, FreeSlots, HeldAt, AliveSlots;
    forall e | e in t.issued
      ensures WasIssued(Activated(t, r), e)
    {
      assert WasIssued(t, e);
    }
  }

  lemma ActivatedHeld(t: Table, r: Reservation)
    requires HandleInv(t) && r in t.live && r.identity.index < |t.entities|
    ensures HeldSlots(Activated(t, r))
  {
    var u := Activated(t, r);
    HeldNow(t, r);
    AppendsHaveOneIndex(t);
    if !r.reusesFreeSlot {
      WithoutIndexIs(t.appends, r.identity);
    }
    forall a | a in u.live
      ensures Holds(u, a)
    {
      OthersHeld(t, r, a);
    }
    forall e | e in u.appends
      ensures Reservation(e, false) in u.live
    {
      assert Reservation(e, false) in t.live;
    }
    hide FreeSlots, IssuedHandles, AliveSlots, Distinct, Holds;
  }

  /** Committing a held create always succeeds and makes exactly the promised handle alive. */
  lemma AppliedKeepsHandles(t: Table, r: Reservation)
    requires HandleInv(t) && r in t.live && r.identity.index < INVALID_INDEX
    ensures var u := Applied(t, r);
            && HandleInv(u) && (Covered(t) ==> Covered(u)) && u.live == t.live - {r} && u.issued == t.issued
            && HasEntity(u, r.identity) && !HasEntity(t, r.identity)
            && forall e :: e != r.identity ==> (HasEntity(u, e) <==> HasEntity(t, e))
  {
    hide HandleInv, Covered, HasEntity, Holds, GrownTo, Activated;
    HeldNow(t, r);
    var n := r.identity.index + 1;
    var g := if r.reusesFreeSlot then t else GrownTo(t, n);
    GrownToKeepsHandles(t, n);
    ActivatedKeepsHandles(g, r);
    GrowsDead(t, n);
    OnlyOneComesAlive(g, Activated(g, r), r.identity);
  }

  lemma AppliedKeepsInv(t: Table, r: Reservation)
    requires TableInv(t) && r in t.live && r.identity.index < INVALID_INDEX
    ensures var u := Applied(t, r);
            && TableInv(u) && u.live == t.live - {r} && u.issued == t.issued
            && HasEntity(u, r.identity) && !HasEntity(t, r.identity)
            && forall e :: e != r.identity ==> (HasEntity(u, e) <==> HasEntity(t, e))
  {
    AppliedKeepsHandles(t, r);
    hide HandleInv, Covered, HasEntity;
  }

  lemma OnlyOneComesAlive(t: Table, u: Table, e: Entity)
    requires e.index < |t.entities| && e.index < INVALID_INDEX && !t.entities[e.index].alive
    requires u.entities == t.entities[e.index := EntityState(e.generation, true, false)]
    ensures HasEntity(u, e) && !HasEntity(t, e)
    ensures forall x :: x != e ==> (HasEntity(u, x) <==> HasEntity(t, x))
  {
  }

  lemma {:induction false} GrowsDead(t: Table, n: nat)
    ensures forall e :: HasEntity(GrownTo(t, n), e) <==> HasEntity(t, e)
    decreases n - |t.entities|
  {
    if |t.entities| < n {
      GrowsDead(Grown(t), n);
      assert forall e :: HasEntity(Grown(t), e) <==> HasEntity(t, e);
    }
  }

  // --------------------------------------------------------------- destroying

  lemma DestroyedKeepsHandles(t: Table, e: Entity)
    requires HandleInv(t)
    ensures var u := Destroyed(t, e);
            && HandleInv(u) && (Covered(t) ==> Covered(u)) && u.live == t.live && u.issued == t.issued
            && !HasEntity(u, e) && forall x :: x != e ==> (HasEntity(u, x) <==> HasEntity(t, x))
  {
    var u := Destroyed(t, e);
    if HasEntity(t, e) {
      HeldIsUnused(t);
      assert u.free[|t.free|] == e.index;
      assert FreeSlots(u) by { hide HeldSlots, IssuedHandles; }
      assert HeldSlots(u) by {
        forall a | a in u.live
          ensures Holds(u, a)
        {
          assert Holds(t, a) && HeldAt(t, a.identity.index);
        }
        hide FreeSlots, IssuedHandles, AliveSlots, Distinct;
      }
      assert AliveSlots(u) by { hide HeldSlots, IssuedHandles; }
      assert IssuedHandles(u) by {
        hide HeldSlots, FreeSlots;
        forall x | x in u.issued
          ensures WasIssued(u, x)
        {
          assert WasIssued(t, x);
        }
      }
      if Covered(t) {
        DestroyedCovers(t, e);
      }
      hide FreeSlots, HeldSlots, AliveSlots, IssuedHandles, Covered;
    }
  }

  lemma DestroyedCovers(t: Table, e: Entity)
    requires Covered(t) && HasEntity(t, e)
    ensures Covered(Destroyed(t, e))
  {
    var u := Destroyed(t, e);
    assert u.free[|t.free|] == e.index;
    forall i: nat | i < |u.entities|
      ensures IsCovered(u, i)
    {
      assert IsCovered(t, i);
      assert HeldAt(u, i) <==> HeldAt(t, i);
    }
  }

  lemma DestroyedKeepsInv(t: Table, e: Entity)
    requires TableInv(t)
    ensures var u := Destroyed(t, e);
            && TableInv(u) && u.live == t.live && u.issued == t.issued
            && !HasEntity(u, e) && forall x :: x != e ==> (HasEntity(u, x) <==> HasEntity(t, x))
  {
    DestroyedKeepsHandles(t, e);
    hide HandleInv, Covered, HasEntity;
  }
}

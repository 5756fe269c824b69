/** Whole runs of the entity table: no handle is handed out twice, and which runs lose no slot. */
module EntityRuns {
  import opened Wrappers
  import opened Reordering
  import H = HierarchySpec
  import opened EntityTableSpec

  datatype TableOp =
    | CREATE
    | RESERVE(next: nat)
    | RELEASE(given: Reservation)
    | COMMIT(held: Reservation)
    | DESTROY(target: H.Entity)

  /** What the table requires of the caller of an operation. */
  ghost predicate Allowed(t: Table, op: TableOp) {
    match op
    case CREATE => true
    case RESERVE(next) => IsNextAppend(t, next)
    case RELEASE(r) => r in t.live
    case COMMIT(r) => r in t.live && r.identity.index < H.INVALID_INDEX
    case DESTROY(e) => true
  }

  /** An immediate create is refused while deferred ones are pending. */
  ghost function Do(t: Table, op: TableOp): Table {
    match op
    case CREATE => if t.pendingCreates > 0 then t else Created(t).0
    case RESERVE(next) => Reserved(t, next).0
    case RELEASE(r) => Released(t, r)
    case COMMIT(r) => Applied(t, r)
    case DESTROY(e) => Destroyed(t, e)
  }

  /** The handle the caller receives, if any. */
  ghost function Handed(t: Table, op: TableOp): seq<H.Entity> {
    match op
    case CREATE => if t.pendingCreates > 0 then [] else [Created(t).1]
    case RESERVE(next) => [Reserved(t, next).1.identity]
    case RELEASE(_) => []
    case COMMIT(_) => []
    case DESTROY(_) => []
  }

  ghost predicate AllowedRun(t: Table, ops: seq<TableOp>)
    decreases |ops|
  {
    ops != [] ==> Allowed(t, ops[0]) && AllowedRun(Do(t, ops[0]), ops[1..])
  }

  ghost function RunTable(t: Table, ops: seq<TableOp>): Table
    decreases |ops|
  {
    if ops == [] then t else RunTable(Do(t, ops[0]), ops[1..])
  }

  ghost function HandedAll(t: Table, ops: seq<TableOp>): seq<H.Entity>
    decreases |ops|
  {
    if ops == [] then [] else Handed(t, ops[0]) + HandedAll(Do(t, ops[0]), ops[1..])
  }

  /** No reservation that a failed commit has materialised is rolled back on the way. */
  ghost predicate LosesNoSlot(t: Table, ops: seq<TableOp>)
    decreases |ops|
  {
    ops != [] ==> (ops[0].RELEASE? ==> !Materialised(t, ops[0].given)) && LosesNoSlot(Do(t, ops[0]), ops[1..])
  }

  lemma DoKeepsHandles(t: Table, op: TableOp)
    requires HandleInv(t) && Allowed(t, op)
    ensures HandleInv(Do(t, op))
    ensures t.issued <= Do(t, op).issued
    ensures |Handed(t, op)| <= 1
    ensures forall e :: e in Handed(t, op) ==> e !in t.issued && e in Do(t, op).issued
  {
    hide HandleInv;
    match op
    case CREATE =>
      if t.pendingCreates == 0 {
        CreatedKeepsHandles(t);
      }
    case RESERVE(next) => ReservedKeepsHandles(t, next);
    case RELEASE(r) => ReleasedKeepsHandles(t, r);
    case COMMIT(r) => AppliedKeepsHandles(t, r);
    case DESTROY(e) => DestroyedKeepsHandles(t, e);
  }

  lemma DoKeepsCovered(t: Table, op: TableOp)
    requires HandleInv(t) && Covered(t) && Allowed(t, op)
    ensures Covered(Do(t, op)) <==> !(op.RELEASE? && Materialised(t, op.given))
  {
    match op
    case CREATE =>
      if t.pendingCreates == 0 {
        CreatedKeepsHandles(t);
      }
    case RESERVE(next) => ReservedKeepsHandles(t, next);
    case RELEASE(r) =>
      HeldNow(t, r);
      if Materialised(t, r) {
        SlotLost(t, r);
      } else {
        ReleasedCovers(t, r);
      }
    case COMMIT(r) => AppliedKeepsHandles(t, r);
    case DESTROY(e) => DestroyedKeepsHandles(t, e);
  }

  /**
   * Over any run of creates, reservations, rollbacks, commits and destructions, whether or not commits
   * fail halfway, no (index, generation) handle is handed out twice.
   */
  lemma {:induction false} HandlesNeverRepeat(t: Table, ops: seq<TableOp>)
    requires HandleInv(t) && AllowedRun(t, ops)
    ensures Distinct(HandedAll(t, ops))
    ensures forall e :: e in HandedAll(t, ops) ==> e !in t.issued
    ensures HandleInv(RunTable(t, ops))
    decreases |ops|
  {
    if ops != [] {
      DoKeepsHandles(t, ops[0]);
      var u := Do(t, ops[0]);
      HandlesNeverRepeat(u, ops[1..]);
      hide Do, HandleInv, RunTable, Allowed, Handed;
      var first, rest := Handed(t, ops[0]), HandedAll(u, ops[1..]);
      if first != [] {
        assert first[0] in first && first == [first[0]];
        DistinctCons(first[0], rest);
      } else {
        assert first + rest == rest;
      }
    }
  }

  /** As long as no materialised reservation is rolled back, every slot stays alive, free once, or held by one reservation. */
  lemma {:induction false} SlotsStayPartitioned(t: Table, ops: seq<TableOp>)
    requires TableInv(t) && AllowedRun(t, ops) && LosesNoSlot(t, ops)
    ensures TableInv(RunTable(t, ops)) && Partitioned(RunTable(t, ops))
    decreases |ops|
  {
    if ops == [] {
      InvPartitions(t);
    } else {
      DoKeepsHandles(t, ops[0]);
      DoKeepsCovered(t, ops[0]);
      hide HandleInv, Covered, Do;
      SlotsStayPartitioned(Do(t, ops[0]), ops[1..]);
    }
  }

  /** A stale handle stays stale: once a handed-out handle is dead and no longer held, no run revives it. */
  ghost predicate Dead(t: Table, e: H.Entity) {
    e in t.issued && !HasEntity(t, e) && forall r :: r in t.live ==> r.identity != e
  }

  lemma DeadStaysDead(t: Table, op: TableOp, e: H.Entity)
    requires HandleInv(t) && Allowed(t, op) && Dead(t, e)
    ensures Dead(Do(t, op), e)
  {
    hide HandleInv;
    match op
    case CREATE =>
      if t.pendingCreates == 0 {
        CreatedKeepsHandles(t);
        var (u, h) := Created(t);
        assert h != e;
      }
    case RESERVE(next) =>
      ReservedKeepsHandles(t, next);
    case RELEASE(r) =>
      ReleasedKeepsHandles(t, r);
    case COMMIT(r) =>
      AppliedKeepsHandles(t, r);
    case DESTROY(x) =>
      DestroyedKeepsHandles(t, x);
  }

  lemma {:induction false} DestroyedHandlesNeverComeBack(t: Table, ops: seq<TableOp>, e: H.Entity)
    requires HandleInv(t) && AllowedRun(t, ops) && Dead(t, e)
    ensures !HasEntity(RunTable(t, ops), e)
    decreases |ops|
  {
    if ops != [] {
      DoKeepsHandles(t, ops[0]);
      DeadStaysDead(t, ops[0], e);
      DestroyedHandlesNeverComeBack(Do(t, ops[0]), ops[1..], e);
    }
  }

  // ------------------------------------------------------------ a lost slot

  const FIRST := Reservation(H.Entity(0, 0), false)
  const SECOND := Reservation(H.Entity(1, 1), false)

  const BOTH_ISSUED := {FIRST.identity, SECOND.identity}

  const RESERVED_ONCE := Table([], [], [FIRST.identity], 1, 1, {FIRST}, {FIRST.identity})
  const RESERVED_TWICE := Table([], [], [FIRST.identity, SECOND.identity], 2, 2, {FIRST, SECOND}, BOTH_ISSUED)
  const HALF_COMMITTED :=
    Table([EntityState(0, false, true), EntityState(1, true, false)], [], [FIRST.identity], 1, 4, {FIRST}, BOTH_ISSUED)
  const ROLLED_BACK := HALF_COMMITTED.(appends := [], pendingCreates := 0, live := {})

  lemma FirstReserved()
    ensures IsNextAppend(EMPTY_TABLE, 0) && Reserved(EMPTY_TABLE, 0).0 == RESERVED_ONCE
  {
  }

  lemma SecondReserved()
    ensures IsNextAppend(RESERVED_ONCE, 1) && Reserved(RESERVED_ONCE, 1).0 == RESERVED_TWICE
  {
    assert AppendTaken(RESERVED_ONCE, 0) by {
      assert FIRST.identity in RESERVED_ONCE.appends;
    }
  }

  lemma SecondCommitted()
    ensures Applied(RESERVED_TWICE, SECOND) == HALF_COMMITTED
  {
    var t := RESERVED_TWICE;
    assert t.appends[1..] == [SECOND.identity];
    assert PendingGeneration([SECOND.identity], 1) == Some(1);
    var u := Grown(t);
    var v := Grown(u);
    assert v.entities == [EntityState(0, false, true), EntityState(1, false, true)];
    assert GrownTo(v, 2) == v && GrownTo(u, 2) == v && GrownTo(t, 2) == v;
    assert WithoutIndex([SECOND.identity], 1) == [];
    assert WithoutIndex(t.appends, 1) == [FIRST.identity];
    assert {FIRST, SECOND} - {SECOND} == {FIRST};
  }

  lemma FirstRolledBack()
    ensures Released(HALF_COMMITTED, FIRST) == ROLLED_BACK && !IsCovered(ROLLED_BACK, 0)
  {
    assert [FIRST.identity][1..] == [];
    assert WithoutIndex([FIRST.identity], 0) == [];
  }

  lemma RunOn(t: Table, op: TableOp, rest: seq<TableOp>)
    ensures AllowedRun(t, [op] + rest) <==> Allowed(t, op) && AllowedRun(Do(t, op), rest)
    ensures LosesNoSlot(t, [op] + rest) <==>
              (op.RELEASE? ==> !Materialised(t, op.given)) && LosesNoSlot(Do(t, op), rest)
    ensures RunTable(t, [op] + rest) == RunTable(Do(t, op), rest)
  {
    assert ([op] + rest)[1..] == rest;
  }

  /** Two creates are deferred; the commit gets to the second one only, and the first is rolled back. */
  const LOSING_RUN := [RESERVE(0)] + ([RESERVE(1)] + ([COMMIT(SECOND)] + ([RELEASE(FIRST)] + [])))

  /** A run from the empty table that leaves slot 0 reserved for good: not alive, not free and held by nobody. */
  lemma RollbackLosesSlot()
    ensures AllowedRun(EMPTY_TABLE, LOSING_RUN) && !LosesNoSlot(EMPTY_TABLE, LOSING_RUN)
    ensures var end := RunTable(EMPTY_TABLE, LOSING_RUN);
            && |end.entities| == 2 && end.entities[0] == EntityState(0, false, true)
            && !IsCovered(end, 0) && end.live == {}
  {
    hide Applied, Reserved, Released, LosesNoSlot, AllowedRun, IsNextAppend, IsCovered;
    FirstReserved();
    SecondReserved();
    SecondCommitted();
    FirstRolledBack();
    RunOn(HALF_COMMITTED, RELEASE(FIRST), []);
    RunOn(RESERVED_TWICE, COMMIT(SECOND), [RELEASE(FIRST)] + []);
    RunOn(RESERVED_ONCE, RESERVE(1), [COMMIT(SECOND)] + ([RELEASE(FIRST)] + []));
    RunOn(EMPTY_TABLE, RESERVE(0), [RESERVE(1)] + ([COMMIT(SECOND)] + ([RELEASE(FIRST)] + [])));
    assert AllowedRun(ROLLED_BACK, []) by { NothingRefused(ROLLED_BACK); }
  }

  lemma NothingRefused(t: Table)
    ensures AllowedRun(t, [])
  {
  }
}

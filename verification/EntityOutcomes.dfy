// Which identity each operation of the entity table hands out and what it leaves of the slots, over the free list,
// the pending appends and the generations.
module EntityOutcomes {
  import opened Wrappers
  import opened Reordering
  import H = HierarchySpec
  import opened EntityTableSpec

  /** Only the slot at index differs, and no slot comes or goes. */
  ghost predicate OnlySlot(t: Table, u: Table, index: nat) {
    && |u.entities| == |t.entities|
    && forall i :: 0 <= i < |t.entities| && i != index ==> u.entities[i] == t.entities[i]
  }

  /** The indices of [begin, end) that no pending append names, in ascending order. */
  function Unnamed(appends: seq<H.Entity>, begin: nat, end: nat): (indices: seq<nat>)
    requires begin <= end
    ensures forall i :: i in indices <==> (begin <= i < end && forall p :: p in appends ==> p.index != i)
    ensures forall j, k :: 0 <= j < k < |indices| ==> indices[j] < indices[k]
    decreases end
  {
    if begin == end then []
    else
      var rest := Unnamed(appends, begin, end - 1);
      assert forall i :: i in rest + [end - 1] <==> i in rest || i == end - 1;
      assert forall j :: 0 <= j < |rest| ==> rest[j] in rest;
      if exists p | p in appends :: p.index == end - 1 then rest else rest + [end - 1]
  }

  /**
   * An immediate create takes the slot freed last, under the generation it has reached; with nothing free it appends
   * a slot under the next unused generation. No other slot changes.
   */
  lemma CreateMeans(t: Table)
    requires TableInv(t)
    ensures var (u, e), free := Created(t), |t.free|;
      && e.index < |u.entities| && u.entities[e.index] == EntityState(e.generation, true, false)
      && u.appends == t.appends && u.pendingCreates == t.pendingCreates
      && (free > 0 ==>
            && e.index == t.free[free - 1] && e.index < |t.entities| && e.generation == t.entities[e.index].generation
            && u.free == t.free[..free - 1] && u.nextGeneration == t.nextGeneration && OnlySlot(t, u, e.index))
      && (free == 0 ==>
            && e == H.Entity(|t.entities|, t.nextGeneration)
            && u.free == [] && u.nextGeneration == t.nextGeneration + 1 && u.entities[..|t.entities|] == t.entities)
  {
    hide Covered;
    if t.free != [] { assert t.free[|t.free| - 1] in t.free; }
  }

  /**
   * A reservation takes the slot freed last, under the generation it has reached; with nothing free it names the first
   * index past the table that no pending append names, under the next unused generation. No slot changes yet.
   */
  lemma ReserveMeans(t: Table, next: nat)
    requires TableInv(t) && IsNextAppend(t, next)
    ensures var (u, r), free := Reserved(t, next), |t.free|;
      && u.entities == t.entities && u.pendingCreates == t.pendingCreates + 1
      && (r.reusesFreeSlot <==> free > 0)
      && (free > 0 ==>
            && r.identity.index == t.free[free - 1] && r.identity.index < |t.entities|
            && r.identity.generation == t.entities[r.identity.index].generation
            && u.free == t.free[..free - 1] && u.appends == t.appends && u.nextGeneration == t.nextGeneration)
      && (free == 0 ==>
            && r.identity.index >= |t.entities| && r.identity.generation == t.nextGeneration
            && (forall p :: p in t.appends ==> p.index != r.identity.index)
            && Unnamed(t.appends, |t.entities|, r.identity.index) == []
            && u.free == [] && u.appends == t.appends + [r.identity] && u.nextGeneration == t.nextGeneration + 1)
  {
    hide Covered;
    if t.free != [] { assert t.free[|t.free| - 1] in t.free; } else { AllNamed(t, next, next); }
  }

  lemma {:induction false} AllNamed(t: Table, next: nat, end: nat)
    requires IsNextAppend(t, next) && |t.entities| <= end <= next
    ensures Unnamed(t.appends, |t.entities|, end) == []
    decreases end
  {
    if end > |t.entities| {
      AllNamed(t, next, end - 1);
      assert AppendTaken(t, end - 1);
    }
  }

  /**
   * Giving a reservation up returns a reused slot to the free list, as the one freed last and one generation on; an
   * append only leaves the pending ones. No other slot changes.
   */
  lemma ReleaseMeans(t: Table, r: Reservation)
    requires TableInv(t) && r in t.live
    ensures var u, index := Released(t, r), r.identity.index;
      && u.pendingCreates == t.pendingCreates - 1 && u.nextGeneration == t.nextGeneration
      && (r.reusesFreeSlot ==>
            && index < |t.entities| && OnlySlot(t, u, index)
            && u.entities[index] == EntityState(r.identity.generation + 1, false, false)
            && u.free == t.free + [index] && u.appends == t.appends)
      && (!r.reusesFreeSlot ==>
            && u.entities == t.entities && u.free == t.free
            && forall p :: p in u.appends <==> p in t.appends && p != r.identity)
  {
    hide Covered;
    HeldNow(t, r);
    if !r.reusesFreeSlot {
      AppendsHaveOneIndex(t);
      WithoutIndexIs(t.appends, r.identity);
    }
  }

  /** Growing appends dead slots: reserved ones under the promised generations for the pending appends, free ones under
      unused generations for the others; every new slot uses up a generation. */
  ghost predicate GrownMeans(t: Table, u: Table, n: nat)
    requires |t.entities| <= n
  {
    && |u.entities| == n && u.entities[..|t.entities|] == t.entities
    && u.nextGeneration == t.nextGeneration + n - |t.entities|
    && u.free == t.free + Unnamed(t.appends, |t.entities|, n)
    && u.appends == t.appends && u.pendingCreates == t.pendingCreates
    && forall i :: |t.entities| <= i < n ==>
         && (forall p :: p in t.appends && p.index == i ==> u.entities[i] == EntityState(p.generation, false, true))
         && ((forall p :: p in t.appends ==> p.index != i) ==>
               u.entities[i] == EntityState(t.nextGeneration + i - |t.entities|, false, false))
  }

  ghost predicate OneIndexEach(appends: seq<H.Entity>) {
    forall p, q :: p in appends && q in appends && p.index == q.index ==> p == q
  }

  lemma OneMoreGrown(t: Table)
    requires OneIndexEach(t.appends)
    ensures GrownMeans(t, Grown(t), |t.entities| + 1)
  {
    var i := |t.entities|;
    PendingGenerationIs(t.appends, i);
    assert Unnamed(t.appends, i, i) == [];
    assert Grown(t).entities[..i] == t.entities;
    if p :| p in t.appends && p.index == i { assert PendingGeneration(t.appends, i) == Some(p.generation); }
  }

  lemma GrowsOn(t: Table, u: Table, m: nat, w: Table)
    requires |t.entities| <= m && GrownMeans(t, u, m) && GrownMeans(u, w, m + 1)
    ensures GrownMeans(t, w, m + 1)
  {
    UnnamedSplits(t.appends, |t.entities|, m);
    SlotsGrowOn(t, u, m, w);
  }

  lemma UnnamedSplits(appends: seq<H.Entity>, begin: nat, m: nat)
    requires begin <= m
    ensures Unnamed(appends, begin, m + 1) == Unnamed(appends, begin, m) + Unnamed(appends, m, m + 1)
  {
    assert Unnamed(appends, m, m) == [];
    assert Unnamed(appends, m, m + 1) == if exists p | p in appends :: p.index == m then [] else [m];
  }

  lemma SlotsGrowOn(t: Table, u: Table, m: nat, w: Table)
    requires |t.entities| <= m && GrownMeans(t, u, m) && GrownMeans(u, w, m + 1)
    ensures w.entities[..|t.entities|] == t.entities
    ensures forall i :: |t.entities| <= i < m ==> w.entities[i] == u.entities[i]
  {
    hide Unnamed;
    assert w.entities[..|t.entities|] == t.entities by { assert w.entities[..m] == u.entities; }
    forall i | |t.entities| <= i < m
      ensures w.entities[i] == u.entities[i]
    {
      assert w.entities[..m][i] == u.entities[i];
    }
  }

  lemma {:induction false} GrownToLast(t: Table, n: nat)
    requires |t.entities| < n
    ensures GrownTo(t, n) == Grown(GrownTo(t, n - 1)) && |GrownTo(t, n - 1).entities| == n - 1
    decreases n - |t.entities|
  {
    hide Grown;
    GrowsByOne(t);
    if |t.entities| < n - 1 { GrownToLast(Grown(t), n); }
  }

  lemma GrowsByOne(t: Table)
    ensures |Grown(t).entities| == |t.entities| + 1
  {
  }

  lemma {:induction false} GrowthMeans(t: Table, n: nat)
    requires OneIndexEach(t.appends) && |t.entities| <= n
    ensures GrownMeans(t, GrownTo(t, n), n)
    decreases n
  {
    hide Grown, GrownMeans, OneIndexEach;
    if |t.entities| == n {
      NothingGrown(t);
    } else {
      var u := GrownTo(t, n - 1);
      GrowthMeans(t, n - 1);
      GrownToLast(t, n);
      SameAppends(t, u, n - 1);
      OneMoreGrown(u);
      GrowsOn(t, u, n - 1, Grown(u));
    }
  }

  lemma NothingGrown(t: Table)
    ensures GrownMeans(t, t, |t.entities|)
  {
  }

  lemma SameAppends(t: Table, u: Table, n: nat)
    requires |t.entities| <= n && GrownMeans(t, u, n)
    ensures u.appends == t.appends && |u.entities| == n
  {
  }

  /**
   * Committing a held create brings its slot to life under the promised generation, and no other. A slot past the end
   * grows the table up to it first.
   */
  lemma CommitMeans(t: Table, r: Reservation)
    requires TableInv(t) && r in t.live
    ensures var u, index := Applied(t, r), r.identity.index;
      && index < |u.entities| && u.entities[index] == EntityState(r.identity.generation, true, false)
      && u.pendingCreates == t.pendingCreates - 1
      && (forall p :: p in u.appends <==> p in t.appends && !(p == r.identity && !r.reusesFreeSlot))
      && (index < |t.entities| ==> OnlySlot(t, u, index) && u.free == t.free && u.nextGeneration == t.nextGeneration)
      && (index >= |t.entities| ==>
            exists g :: GrownMeans(t, g, index + 1) && OnlySlot(g, u, index) && u.free == g.free
                        && u.nextGeneration == g.nextGeneration)
  {
    hide Covered, GrownTo, GrownMeans;
    var index := r.identity.index;
    HeldNow(t, r);
    AppendsHaveOneIndex(t);
    if r.reusesFreeSlot {
    } else {
      WithoutIndexIs(t.appends, r.identity);
      if index >= |t.entities| {
        GrowthMeans(t, index + 1);
        GrownSlot(t, GrownTo(t, index + 1), r.identity);
      } else {
        NoGrowth(t, index + 1);
      }
    }
  }

  lemma NoGrowth(t: Table, n: nat)
    requires n <= |t.entities|
    ensures GrownTo(t, n) == t
  {
  }

  lemma GrownSlot(t: Table, g: Table, e: H.Entity)
    requires |t.entities| <= e.index && GrownMeans(t, g, e.index + 1) && e in t.appends
    ensures |g.entities| == e.index + 1 && g.entities[e.index] == EntityState(e.generation, false, true)
    ensures g.appends == t.appends && g.pendingCreates == t.pendingCreates
  {
  }

  /** Destroying frees the slot of a live entity, as the one freed last and one generation on, and does nothing else; a
      stale handle changes nothing. */
  lemma DestroyMeans(t: Table, e: H.Entity)
    ensures var u := Destroyed(t, e);
      if e.index < |t.entities| && e.index != H.INVALID_INDEX && t.entities[e.index] == EntityState(e.generation, true, t.entities[e.index].reserved)
      then
        && OnlySlot(t, u, e.index) && u.entities[e.index] == EntityState(e.generation + 1, false, false)
        && u.free == t.free + [e.index] && u.appends == t.appends && u.pendingCreates == t.pendingCreates
        && u.nextGeneration == t.nextGeneration
      else u == t
  {
  }
}

// What the locked blocks of the coordinator decide, over the footprints, keys and fields they are given.
module CoordinatorBlocks {
  import opened Wrappers
  import opened AccessScopes
  import opened CoordinatorSpec
  import opened CoordinatorInvariant

  // ------------------------------------------------------------- admission

  /** A set or a range names something, nothing carries a coordinate it has no use for, and no range wraps. */
  ghost predicate WellFormed(scope: AccessScope) {
    && (scope.elements != [] <==> scope.kind == ENTITY_SET)
    && (scope.count > 0 <==> scope.kind == CHUNK)
    && (scope.begin > 0 ==> scope.kind in {CHUNK, ENTITY, RESOURCE})
    && scope.begin + scope.count < MODULUS
  }

  /** Exactly the well-formed scopes are admitted. */
  lemma AdmissibleScopes(scope: AccessScope)
    ensures Normalize(scope).Ok? <==> WellFormed(scope)
    ensures Normalize(scope).Ok? ==> Normalize(scope).value.kind == scope.kind
  {
    hide SortUnique;
  }

  /** The footprint as it is stored: the same domain and requirement, and a scope that covers the same. */
  ghost predicate SameAccess(left: AccessFootprint, right: AccessFootprint) {
    && left.domain == right.domain && left.requirement == right.requirement && left.scope.kind == right.scope.kind
    && forall cell :: Covers(left.scope, cell) <==> Covers(right.scope, cell)
  }

  lemma {:induction false} AdmissibleFootprints(footprints: seq<AccessFootprint>)
    ensures NormalizeAll(footprints).Ok? <==>
      forall i :: 0 <= i < |footprints| ==>
        && footprints[i].domain.owner > 0 && footprints[i].domain.typeId > 0 && footprints[i].domain.generation > 0
        && WellFormed(footprints[i].scope)
    ensures NormalizeAll(footprints).Ok? ==>
      && |NormalizeAll(footprints).value| == |footprints|
      && forall i :: 0 <= i < |footprints| ==> SameAccess(NormalizeAll(footprints).value[i], footprints[i])
  {
    hide Covers, WellFormed, Normalize;
    if footprints != [] {
      AdmissibleFootprints(footprints[1..]);
      AdmissibleScopes(footprints[0].scope);
      if Normalize(footprints[0].scope).Ok? { NormalizeKeepsCover(footprints[0].scope); }
      assert footprints == [footprints[0]] + footprints[1..];
    }
  }

  /**
   * A call is admitted exactly when admission is open, nothing has failed, every footprint is well formed and names a
   * registered domain, and every key is one this coordinator has handed out.
   */
  lemma AdmittedExactly(s: State, t: nat, footprints: seq<AccessFootprint>, keys: seq<OperationKey>)
    requires t !in s.threads
    ensures Step(s, Schedule(t, footprints, keys)) != s <==>
      && !s.closed && !s.hasFailure
      && (forall i :: 0 <= i < |footprints| ==>
            && footprints[i].domain.owner > 0 && footprints[i].domain.typeId > 0 && footprints[i].domain.generation > 0
            && WellFormed(footprints[i].scope)
            && exists d :: 0 <= d < |s.domains| && s.domains[d].key == footprints[i].domain)
      && (forall i :: 0 <= i < |keys| ==> keys[i].owner == s.owner && 1 <= keys[i].sequence <= |s.operations|)
  {
    hide Step, WellFormed, SameAccess, Admit;
    StepIsBlock(s, Schedule(t, footprints, keys));
    AdmissibleFootprints(footprints);
    AdmitsExactly(s, footprints, keys);
    var normalized := NormalizeAll(footprints);
    if normalized.Ok? {
      forall i | 0 <= i < |footprints|
        ensures normalized.value[i].domain == footprints[i].domain
      {
        SameDomain(normalized.value[i], footprints[i]);
      }
      assert forall i :: 0 <= i < |footprints| ==>
        (IsRegistered(s.domains, normalized.value[i].domain) <==> IsRegistered(s.domains, footprints[i].domain));
    }
  }

  lemma AdmitsExactly(s: State, footprints: seq<AccessFootprint>, keys: seq<OperationKey>)
    ensures Admit(s, footprints, keys).Some? <==>
      && NormalizeAll(footprints).Ok? && !s.closed && !s.hasFailure
      && (forall i :: 0 <= i < |NormalizeAll(footprints).value| ==>
            IsRegistered(s.domains, NormalizeAll(footprints).value[i].domain))
      && (forall i :: 0 <= i < |keys| ==> keys[i].owner == s.owner && 1 <= keys[i].sequence <= |s.operations|)
  {
    hide NormalizeAll, Conflicting, Explicit, IsRegistered;
    assert forall i :: 0 <= i < |keys| ==>
      (Resolve(s, keys[i]) == None <==> !(keys[i].owner == s.owner && 1 <= keys[i].sequence <= |s.operations|));
  }

  lemma SameDomain(left: AccessFootprint, right: AccessFootprint)
    requires SameAccess(left, right)
    ensures left.domain == right.domain
  {
  }

  /**
   * An admitted operation joins last and waits. It depends on exactly the operations it names and those that still hold
   * access and share a cell of a domain with it, or mix a resource with entities there, unless both only read.
   */
  lemma AdmittedBehindExactly(s: State, t: nat, footprints: seq<AccessFootprint>, keys: seq<OperationKey>)
    requires t !in s.threads && FootprintsNormalized(s.operations)
    requires Step(s, Schedule(t, footprints, keys)) != s
    ensures var e, n := Step(s, Schedule(t, footprints, keys)), |s.operations|;
      && |e.operations| == n + 1 && e.operations[..n] == s.operations
      && e.operations[n].status == WAITING && e.operations[n].hasFunction && !e.operations[n].retiring
      && |e.operations[n].footprints| == |footprints|
      && (forall i :: 0 <= i < |footprints| ==> SameAccess(e.operations[n].footprints[i], footprints[i]))
      && forall d: nat :: d in e.operations[n].dependencies <==>
           && d < n
           && ((exists k :: 0 <= k < |keys| && keys[k].sequence == d + 1)
               || ((s.operations[d].status in {WAITING, QUEUED, RUNNING} || s.operations[d].hasFunction || s.operations[d].retiring)
                   && exists i, j :: 0 <= i < |s.operations[d].footprints| && 0 <= j < |footprints|
                                     && InTheWay(s.operations[d].footprints[i], footprints[j])))
  {
    hide Step, WellFormed, SameAccess, InTheWay, OperationsClash, NormalizeAll, Explicit, Conflicting;
    StepIsBlock(s, Schedule(t, footprints, keys));
    AdmissibleFootprints(footprints);
    NormalizeAllNormalizes(footprints);
    var normalized := NormalizeAll(footprints).value;
    forall d: nat
      ensures d in Conflicting(s.operations, normalized) <==>
        && d < |s.operations|
        && (s.operations[d].status in {WAITING, QUEUED, RUNNING} || s.operations[d].hasFunction || s.operations[d].retiring)
        && exists i, j :: 0 <= i < |s.operations[d].footprints| && 0 <= j < |footprints|
                          && InTheWay(s.operations[d].footprints[i], footprints[j])
    {
      ConflictingMeans(s.operations, normalized, footprints, d);
    }
    forall d: nat
      ensures d in Explicit(s, keys) <==> d < |s.operations| && exists k :: 0 <= k < |keys| && keys[k].sequence == d + 1
    {
      ExplicitMeans(s, keys, d);
    }
  }

  lemma ExplicitMeans(s: State, keys: seq<OperationKey>, d: nat)
    requires forall i :: 0 <= i < |keys| ==> Resolve(s, keys[i]) != None
    ensures d in Explicit(s, keys) <==> d < |s.operations| && exists k :: 0 <= k < |keys| && keys[k].sequence == d + 1
  {
    if k :| 0 <= k < |keys| && keys[k].sequence == d + 1 && d < |s.operations| {
      assert Resolve(s, keys[k]) == Some(d);
    }
  }

  lemma ConflictingMeans(ops: seq<Operation>, stored: seq<AccessFootprint>, given: seq<AccessFootprint>, d: nat)
    requires FootprintsNormalized(ops) && AllNormalized(stored) && |stored| == |given|
    requires forall j :: 0 <= j < |given| ==> SameAccess(stored[j], given[j])
    ensures d in Conflicting(ops, stored) <==>
      && d < |ops|
      && (ops[d].status in {WAITING, QUEUED, RUNNING} || ops[d].hasFunction || ops[d].retiring)
      && exists i, j :: 0 <= i < |ops[d].footprints| && 0 <= j < |given| && InTheWay(ops[d].footprints[i], given[j])
  {
    hide OperationsClash, InTheWay, SameAccess, AllNormalized;
    if d < |ops| {
      ClashMeansInTheWay(ops[d].footprints, stored, given);
      HoldsAccessMeans(ops[d]);
    }
  }

  /** An operation keeps its access until it has ended and its payload is gone. */
  lemma HoldsAccessMeans(op: Operation)
    ensures op.HoldsAccess() <==> op.status in {WAITING, QUEUED, RUNNING} || op.hasFunction || op.retiring
  {
    assert op.status.WAITING? || op.status.QUEUED? || op.status.RUNNING? || IsTerminal(op.status);
  }

  /** The same domain, not both reading, and a cell in common or a resource against an entity scope. */
  ghost predicate InTheWay(left: AccessFootprint, right: AccessFootprint) {
    && left.domain == right.domain
    && !(left.requirement == READ && right.requirement == READ)
    && ((exists cell :: Covers(left.scope, cell) && Covers(right.scope, cell))
        || (left.scope.kind == RESOURCE) != (right.scope.kind == RESOURCE))
  }

  lemma SameIsInTheWay(left: AccessFootprint, stored: AccessFootprint, given: AccessFootprint)
    requires SameAccess(stored, given)
    ensures InTheWay(left, stored) <==> InTheWay(left, given)
  {
    hide Covers;
  }

  lemma ClashMeansInTheWay(left: seq<AccessFootprint>, stored: seq<AccessFootprint>, given: seq<AccessFootprint>)
    requires AllNormalized(left) && AllNormalized(stored) && |stored| == |given|
    requires forall j :: 0 <= j < |given| ==> SameAccess(stored[j], given[j])
    ensures OperationsClash(left, stored) <==>
      exists i, j :: 0 <= i < |left| && 0 <= j < |given| && InTheWay(left[i], given[j])
  {
    hide OperationsClash, AllNormalized, SameAccess;
    ClashesExactly(left, stored);
    forall i, j | 0 <= i < |left| && 0 <= j < |given|
      ensures InTheWay(left[i], stored[j]) <==> InTheWay(left[i], given[j])
    {
      SameIsInTheWay(left[i], stored[j], given[j]);
    }
  }

  /**
   * A domain is registered exactly when its key is complete, its lifetime is given, admission is open, nothing has
   * failed, and the registration it would replace is older and nothing that holds access names it. It replaces the first
   * one of the same owner and type, or joins last.
   */
  lemma RegisteredExactly(s: State, key: DomainKey, hasLifetime: bool, at: nat)
    requires at <= |s.domains|
    requires forall k :: 0 <= k < at ==> !(s.domains[k].key.owner == key.owner && s.domains[k].key.typeId == key.typeId)
    requires at < |s.domains| ==> s.domains[at].key.owner == key.owner && s.domains[at].key.typeId == key.typeId
    ensures var e := Step(s, RegisterDomain(key, hasLifetime));
      && (e != s <==>
            && key.owner > 0 && key.typeId > 0 && key.generation > 0 && hasLifetime && !s.closed && !s.hasFailure
            && (at < |s.domains| ==>
                  && key.generation > s.domains[at].key.generation
                  && !exists i, j ::
                       && 0 <= i < |s.operations| && 0 <= j < |s.operations[i].footprints|
                       && s.operations[i].footprints[j].domain == s.domains[at].key
                       && (s.operations[i].status in {WAITING, QUEUED, RUNNING}
                           || s.operations[i].hasFunction || s.operations[i].retiring)))
      && (e != s ==> e.domains == if at < |s.domains| then s.domains[at := Domain(key, true)] else s.domains + [Domain(key, true)])
  {
    hide ScheduleStep, CancelStep, ScanStep, SubmitFailedStep, ReleaseStep, EndRunStep, CompleteSealStep, DropStopTokenStep,
      FindDomain, DomainInUse;
    FirstOfItsKind(s.domains, key, at);
    if at < |s.domains| { InUseMeans(s.operations, s.domains[at].key); }
  }

  lemma InUseMeans(ops: seq<Operation>, key: DomainKey)
    ensures DomainInUse(ops, key) <==>
      exists i, j ::
        && 0 <= i < |ops| && 0 <= j < |ops[i].footprints|
        && ops[i].footprints[j].domain == key
        && (ops[i].status in {WAITING, QUEUED, RUNNING} || ops[i].hasFunction || ops[i].retiring)
  {
    forall i | 0 <= i < |ops|
      ensures ops[i].HoldsAccess() <==>
        ops[i].status in {WAITING, QUEUED, RUNNING} || ops[i].hasFunction || ops[i].retiring
    {
      HoldsAccessMeans(ops[i]);
    }
  }

  lemma {:induction false} FirstOfItsKind(domains: seq<Domain>, key: DomainKey, at: nat)
    requires at <= |domains|
    requires forall k :: 0 <= k < at ==> !(domains[k].key.owner == key.owner && domains[k].key.typeId == key.typeId)
    requires at < |domains| ==> domains[at].key.owner == key.owner && domains[at].key.typeId == key.typeId
    ensures FindDomain(domains, key) == at
  {
    if at > 0 { FirstOfItsKind(domains[1..], key, at - 1); }
  }

  // -------------------------------------------------------------- progress

  /** Whether one of the operations a waiting one depends on has failed or was cancelled. */
  ghost predicate BehindFailure(ops: seq<Operation>, dependencies: set<nat>) {
    exists d :: d in dependencies && d < |ops| && ops[d].status in {FAILED, CANCELLED}
  }

  ghost predicate AllComplete(ops: seq<Operation>, dependencies: set<nat>) {
    forall d :: d in dependencies ==> d < |ops| && ops[d].status == COMPLETED
  }

  /** What a scan from index to bound leaves of the operations. */
  ghost predicate Scanned(ops: seq<Operation>, e: seq<Operation>, index: nat, bound: nat)
    requires index <= bound <= |ops|
  {
    && |e| == |ops|
    && (forall k :: index <= k < bound && ops[k].status == WAITING ==>
          if BehindFailure(e, ops[k].dependencies) then e[k] == ops[k].(status := CANCELLED)
          else e[k] == ops[k] && !AllComplete(e, ops[k].dependencies))
    && (forall k :: index <= k < bound && ops[k].status != WAITING ==> e[k] == ops[k])
    && (forall k :: (0 <= k < index || bound < k < |ops|) ==> e[k] == ops[k])
    && (bound < |ops| ==>
          && ops[bound].status == WAITING && AllComplete(e, ops[bound].dependencies)
          && e[bound] == ops[bound].(status := QUEUED))
  }

  lemma {:induction false} ScanFromMeans(ops: seq<Operation>, index: nat)
    requires index <= |ops| && DependenciesPointBack(ops)
    ensures var (e, ready) := ScanFrom(ops, index);
      && (ready.Some? ==> index <= ready.value < |ops|)
      && Scanned(ops, e, index, if ready.Some? then ready.value else |ops|)
    decreases |ops| - index
  {
    if index < |ops| {
      var op := ops[index];
      hide Scanned;
      if op.status == WAITING && HasFailedDependency(ops, op) {
        var ops' := ops[index := op.(status := CANCELLED)];
        ScanFromMeans(ops', index + 1);
        ScannedBehindFailure(ops, ops', index);
      } else if op.status == WAITING && AllDependenciesCompleted(ops, op) {
        ScannedReady(ops, index);
      } else {
        ScanFromMeans(ops, index + 1);
        ScannedPast(ops, index);
      }
    } else {
      NothingScanned(ops);
    }
  }

  lemma NothingScanned(ops: seq<Operation>)
    ensures Scanned(ops, ops, |ops|, |ops|)
  {
  }

  lemma ScannedReady(ops: seq<Operation>, index: nat)
    requires index < |ops| && DependenciesPointBack(ops)
    requires ops[index].status == WAITING && AllDependenciesCompleted(ops, ops[index])
    ensures Scanned(ops, ops[index := ops[index].(status := QUEUED)], index, index)
  {
  }

  lemma ScannedPast(ops: seq<Operation>, index: nat)
    requires index < |ops| && DependenciesPointBack(ops)
    requires ops[index].status == WAITING ==>
               !HasFailedDependency(ops, ops[index]) && !AllDependenciesCompleted(ops, ops[index])
    requires var (e, ready) := ScanFrom(ops, index + 1);
             && (ready.Some? ==> index + 1 <= ready.value < |ops|)
             && Scanned(ops, e, index + 1, if ready.Some? then ready.value else |ops|)
    ensures var (e, ready) := ScanFrom(ops, index + 1);
            Scanned(ops, e, index, if ready.Some? then ready.value else |ops|)
  {
    hide ScanFrom;
  }

  lemma ScannedBehindFailure(ops: seq<Operation>, ops': seq<Operation>, index: nat)
    requires index < |ops| && DependenciesPointBack(ops)
    requires ops[index].status == WAITING && HasFailedDependency(ops, ops[index])
    requires ops' == ops[index := ops[index].(status := CANCELLED)]
    requires var (e, ready) := ScanFrom(ops', index + 1);
             && (ready.Some? ==> index + 1 <= ready.value < |ops|)
             && Scanned(ops', e, index + 1, if ready.Some? then ready.value else |ops|)
    ensures var (e, ready) := ScanFrom(ops', index + 1);
            Scanned(ops, e, index, if ready.Some? then ready.value else |ops|)
  {
    hide ScanFrom;
  }

  /**
   * One scan queues the first waiting operation all of whose dependencies have completed. Of the waiting ones before it,
   * or of all if there is none, it cancels exactly those behind a failed or cancelled one, cancelled in the same scan
   * or earlier; each of the others still has an incomplete dependency. Nothing else changes.
   */
  lemma ScanMeans(s: State, t: nat)
    requires DependenciesPointBack(s.operations) && t in s.threads && s.threads[t].Progressing?
    ensures var e := Step(s, Scan(t));
      && t in e.threads
      && ((e.threads[t] == Releasing(s.threads[t].tail) && Scanned(s.operations, e.operations, 0, |s.operations|))
          || (e.threads[t].Submitting? && e.threads[t].tail == s.threads[t].tail && e.threads[t].index < |s.operations|
              && Scanned(s.operations, e.operations, 0, e.threads[t].index)))
  {
    hide Step, Scanned, ScanFrom;
    StepIsBlock(s, Scan(t));
    ScanFromMeans(s.operations, 0);
    var (e, ready) := ScanFrom(s.operations, 0);
    if ready.Some? {
      assert Scanned(s.operations, e, 0, ready.value);
    } else {
      assert Scanned(s.operations, e, 0, |s.operations|);
    }
  }

  /**
   * A release takes the payload of the first operation that has ended and still has one; when there is none, no
   * operation changes and the call goes on.
   */
  lemma ReleaseMeans(s: State, t: nat, i: nat)
    requires t in s.threads && s.threads[t].Releasing? && i <= |s.operations|
    requires forall k :: 0 <= k < i ==> !(s.operations[k].status in {COMPLETED, FAILED, CANCELLED} && s.operations[k].hasFunction)
    requires i < |s.operations| ==> s.operations[i].status in {COMPLETED, FAILED, CANCELLED} && s.operations[i].hasFunction
    ensures var e := Step(s, Release(t));
      && (i == |s.operations| ==> e.operations == s.operations && e.retiring == s.retiring)
      && (i < |s.operations| ==>
            && e.operations == s.operations[i := s.operations[i].(hasFunction := false, retiring := true)]
            && e.retiring == s.retiring + 1 && t in e.threads && e.threads[t] == Retiring(i, s.threads[t].tail))
  {
    hide Step, Releasable;
    StepIsBlock(s, Release(t));
    FirstReleasable(s.operations, i);
  }

  lemma FirstReleasable(ops: seq<Operation>, i: nat)
    requires i <= |ops|
    requires forall k :: 0 <= k < i ==> !(ops[k].status in {COMPLETED, FAILED, CANCELLED} && ops[k].hasFunction)
    requires i < |ops| ==> ops[i].status in {COMPLETED, FAILED, CANCELLED} && ops[i].hasFunction
    ensures FindReleasable(ops, 0) == i
  {
    hide FindReleasable;
    var first := FindReleasable(ops, 0);
    assert first < |ops| ==> Releasable(ops[first]);
    assert forall k :: 0 <= k < first ==> !Releasable(ops[k]);
    assert i < |ops| ==> Releasable(ops[i]);
  }
}

// The locked blocks of the access coordinator, as they update its fields
// (ecs/internal/access_coordinator.cpp).  Each method is one block that holds the metadata
// lock, and takes the state machine exactly one step.
module AccessCoordinatorClass {
  import opened Wrappers
  import opened AccessScopes
  import opened CoordinatorSpec

  class AccessCoordinator {
    const owner: nat
    var operations: seq<Operation>
    var domains: seq<Domain>
    var running: nat
    var retiring: nat
    var closed: bool
    var sealed: bool
    var sealCompleted: bool
    var hasFailure: bool
    // Where the calls in progress stand, and what has happened outside the lock.
    ghost var released: seq<Domain>
    ghost var drainCalls: nat
    ghost var threads: map<nat, Thread>
    ghost var history: seq<Event>

    constructor (owner: nat)
      ensures View() == Initial(owner)
    {
      this.owner := owner;
      operations, domains, running, retiring := [], [], 0, 0;
      closed, sealed, sealCompleted, hasFailure := false, false, false, false;
      released, drainCalls, threads, history := [], 0, map[], [];
    }

    ghost function View(): State
      reads this
    {
      State(owner, operations, domains, running, retiring, closed, sealed, sealCompleted, hasFailure,
            released, drainCalls, threads, history)
    }

    method MakeKey(index: nat) returns (key: OperationKey)
      ensures index < |operations| ==> Resolve(View(), key) == Some(index)
    {
      key := OperationKey(owner, index + 1);
    }

    // ------------------------------------------------------------ admission

    /** Looks the footprints' domains up among the registered ones. */
    method AllRegistered(footprints: seq<AccessFootprint>) returns (all: bool)
      ensures all <==> forall i :: 0 <= i < |footprints| ==> IsRegistered(domains, footprints[i].domain)
    {
      for i := 0 to |footprints|
        invariant forall k :: 0 <= k < i ==> IsRegistered(domains, footprints[k].domain)
      {
        var found := false;
        for d := 0 to |domains|
          invariant found <==> exists k :: 0 <= k < d && domains[k].key == footprints[i].domain
        {
          found := found || domains[d].key == footprints[i].domain;
        }
        if !found {
          assert !IsRegistered(domains, footprints[i].domain);
          return false;
        }
      }
      all := true;
    }

    /** The explicit dependencies, or None when a key is unknown or foreign. */
    method ResolveAll(keys: seq<OperationKey>) returns (dependencies: Option<set<nat>>)
      ensures dependencies == None <==> exists i :: 0 <= i < |keys| && Resolve(View(), keys[i]) == None
      ensures dependencies.Some? ==> dependencies.value == Explicit(View(), keys)
    {
      var found: set<nat> := {};
      for i := 0 to |keys|
        invariant forall k :: 0 <= k < i ==> Resolve(View(), keys[k]).Some?
        invariant found == Explicit(View(), keys[..i])
      {
        var key := keys[i];
        if key.owner != owner || key.sequence == 0 || key.sequence > |operations| {
          assert Resolve(View(), keys[i]) == None;
          return None;
        }
        assert Resolve(View(), key) == Some(key.sequence - 1);
        ExplicitNext(View(), keys, i);
        found := found + {key.sequence - 1};
      }
      assert keys[..|keys|] == keys;
      dependencies := Some(found);
    }

    /** The operations in the way of new footprints. */
    method FindConflicts(footprints: seq<AccessFootprint>) returns (conflicts: set<nat>)
      ensures conflicts == Conflicting(operations, footprints)
    {
      conflicts := {};
      for index := 0 to |operations|
        invariant conflicts == set i: nat | i < index && operations[i].HoldsAccess()
                                            && OperationsClash(operations[i].footprints, footprints)
      {
        if operations[index].HoldsAccess() && OperationsClash(operations[index].footprints, footprints) {
          conflicts := conflicts + {index};
        }
      }
    }

    /** Admits an operation behind everything it clashes with; None when the call throws. */
    method Schedule(footprints: seq<AccessFootprint>, keys: seq<OperationKey>, ghost t: nat)
      returns (key: Option<OperationKey>)
      requires t !in threads
      modifies this
      ensures View() == Step(old(View()), CoordinatorSpec.Schedule(t, footprints, keys))
      ensures key.Some? <==> Admit(old(View()), footprints, keys).Some?
      ensures key.Some? ==> Resolve(View(), key.value) == Some(|old(operations)|)
    {
      hide Step, FootprintsClash, NormalizeAll;
      StepIsBlock(View(), CoordinatorSpec.Schedule(t, footprints, keys));
      var normalized := NormalizeAll(footprints);
      if normalized.Err? || closed || hasFailure {
        return None;
      }
      var registered := AllRegistered(normalized.value);
      if !registered {
        return None;
      }
      var explicit := ResolveAll(keys);
      if explicit == None {
        return None;
      }
      var conflicts := FindConflicts(normalized.value);
      operations := operations + [Operation(normalized.value, true, explicit.value + conflicts, WAITING, false)];
      threads := threads[t := Progressing(LEAVE(|operations| - 1))];
      var made := MakeKey(|operations| - 1);
      key := Some(made);
    }

    /** Registers a domain, or replaces an older generation nothing holds access to. */
    method RegisterDomain(key: DomainKey, hasLifetime: bool) returns (ok: bool)
      modifies this
      ensures View() == Step(old(View()), CoordinatorSpec.RegisterDomain(key, hasLifetime))
      ensures ok <==> Registered(old(View()), key, hasLifetime).Some?
    {
      if !ValidKey(key) || !hasLifetime || closed || hasFailure {
        return false;
      }
      var at := FindDomain(domains, key);
      if at == |domains| {
        domains := domains + [Domain(key, true)];
        return true;
      }
      if key.generation <= domains[at].key.generation || DomainInUse(operations, domains[at].key) {
        return false;
      }
      domains := domains[at := Domain(key, true)];
      ok := true;
    }

    // ------------------------------------------------------------- progress

    /** Cancels waiting work behind failures on the way and queues the first ready operation. */
    method Scan(ghost t: nat) returns (ready: Option<nat>)
      requires t in threads && threads[t].Progressing?
      modifies this
      ensures View() == Step(old(View()), CoordinatorSpec.Scan(t))
      ensures ready == ScanFrom(old(operations), 0).1
    {
      hide Step, ScanFrom, HasFailedDependency, AllDependenciesCompleted;
      StepIsBlock(View(), CoordinatorSpec.Scan(t));
      ghost var tail, before := threads[t].tail, operations;
      ready := None;
      var index := 0;
      while index < |operations| && ready == None
        invariant index <= |operations|
        invariant ready == None ==> ScanFrom(before, 0) == ScanFrom(operations, index)
        invariant ready != None ==> ScanFrom(before, 0) == (operations, ready)
        invariant View() == old(View()).(operations := operations)
        decreases |operations| - index, if ready == None then 1 else 0
      {
        ScanOne(operations, index);
        var op := operations[index];
        if op.status == WAITING {
          if HasFailedDependency(operations, op) {
            operations := operations[index := op.(status := CANCELLED)];
          } else if AllDependenciesCompleted(operations, op) {
            operations := operations[index := op.(status := QUEUED)];
            ready := Some(index);
          }
        }
        index := index + 1;
      }
      NothingToScan(operations);
      threads := threads[t := match ready case None => Releasing(tail) case Some(i) => Submitting(i, tail)];
    }

    /** Publishing the operation threw. */
    method SubmitFailed(index: nat, ghost t: nat)
      requires t in threads && threads[t].Submitting? && threads[t].index == index
      requires index < |operations|
      modifies this
      ensures View() == Step(old(View()), CoordinatorSpec.SubmitFailed(t))
      ensures operations == old(operations)[index := old(operations)[index].(status :=
                if old(operations)[index].status == QUEUED then FAILED else old(operations)[index].status)]
      ensures hasFailure == (old(hasFailure) || old(operations)[index].status == QUEUED)
    {
      hide Step;
      StepIsBlock(View(), CoordinatorSpec.SubmitFailed(t));
      if operations[index].status == QUEUED {
        operations := operations[index := operations[index].(status := FAILED)];
        hasFailure := true;
      }
      threads := threads[t := Progressing(threads[t].tail)];
    }

    // ------------------------------------------------------------ releasing

    /** Moves the first payload of an ended operation out. */
    method Release(ghost t: nat) returns (index: Option<nat>)
      requires t in threads && threads[t].Releasing?
      modifies this
      ensures View() == Step(old(View()), CoordinatorSpec.Release(t))
      ensures index == None <==> forall i :: 0 <= i < |old(operations)| ==> !Releasable(old(operations)[i])
    {
      hide Step, ReleaseStep, AfterRelease, Releasable;
      StepIsBlock(View(), CoordinatorSpec.Release(t));
      ghost var tail := threads[t].tail;
      var i := 0;
      while i < |operations| && !Releasable(operations[i])
        invariant i <= |operations|
        invariant forall k :: 0 <= k < i ==> !Releasable(operations[k])
      {
        i := i + 1;
      }
      ReleaseEffect(View(), t, i);
      if i == |operations| {
        threads := AfterRelease(View(), t, tail).threads;
        return None;
      }
      operations := operations[i := operations[i].(hasFunction := false, retiring := true)];
      retiring := retiring + 1;
      threads := threads[t := Retiring(i, tail)];
      index := Some(i);
    }

    /** The payload has been destroyed outside the lock. */
    method Retired(index: nat, ghost t: nat)
      requires t in threads && threads[t].Retiring? && threads[t].index == index
      requires index < |operations| && retiring > 0
      modifies this
      ensures View() == Step(old(View()), CoordinatorSpec.Retired(t))
      ensures operations == old(operations)[index := old(operations)[index].(retiring := false)]
      ensures retiring == old(retiring) - 1
    {
      hide ScheduleStep;
      operations := operations[index := operations[index].(retiring := false)];
      retiring := retiring - 1;
      threads := threads[t := Releasing(threads[t].tail)];
    }

    // -------------------------------------------------------------- running

    /** Claims a queued operation; a cancelled one is left alone. */
    method BeginRun(index: nat) returns (claimed: bool)
      requires index < |operations|
      modifies this
      ensures View() == Step(old(View()), CoordinatorSpec.BeginRun(index))
      ensures claimed <==> old(operations)[index].status == QUEUED
      ensures !claimed ==> View() == old(View())
      ensures claimed ==> operations == old(operations)[index := old(operations)[index].(status := RUNNING, hasFunction := false)]
      ensures claimed ==> running == old(running) + 1
    {
      claimed := operations[index].status == QUEUED;
      if claimed {
        operations := operations[index := operations[index].(status := RUNNING, hasFunction := false)];
        running := running + 1;
      }
    }

    method EndRun(index: nat, failed: bool, ghost t: nat)
      requires index < |operations| && operations[index].status == RUNNING && running > 0 && t !in threads
      modifies this
      ensures View() == Step(old(View()), CoordinatorSpec.EndRun(index, t, failed))
      ensures |operations| == |old(operations)| && running == old(running) - 1
      ensures operations[index] == old(operations)[index].(status := if failed then FAILED else COMPLETED)
      ensures hasFailure == (old(hasFailure) || failed)
      ensures forall k :: 0 <= k < |operations| && k != index ==> operations[k] == old(operations)[k]
    {
      hide Step;
      StepIsBlock(View(), CoordinatorSpec.EndRun(index, t, failed));
      hasFailure := hasFailure || failed;
      operations := operations[index := operations[index].(status := if failed then FAILED else COMPLETED)];
      running := running - 1;
      threads := threads[t := Progressing(SEAL)];
    }

    /** Only work that has not started can be cancelled; None when the key is unknown or foreign. */
    method Cancel(key: OperationKey, ghost t: nat) returns (cancelled: Option<bool>)
      requires t !in threads
      modifies this
      ensures View() == Step(old(View()), CoordinatorSpec.Cancel(t, key))
      ensures cancelled == match Resolve(old(View()), key)
                           case None => None
                           case Some(i) => Some(old(operations)[i].status in {WAITING, QUEUED})
      ensures cancelled == None <==> !(key.owner == owner && 1 <= key.sequence <= |old(operations)|)
      ensures cancelled != Some(true) ==> View() == old(View())
      ensures cancelled == Some(true) ==>
                operations == old(operations)[key.sequence - 1 := old(operations)[key.sequence - 1].(status := CANCELLED)]
    {
      hide Step, CancelStep, Resolve;
      StepIsBlock(View(), CoordinatorSpec.Cancel(t, key));
      CancelEffect(View(), t, key);
      if key.owner != owner || key.sequence == 0 || key.sequence > |operations| {
        return None;
      }
      var i := key.sequence - 1;
      if operations[i].status != WAITING && operations[i].status != QUEUED {
        return Some(false);
      }
      operations := operations[i := operations[i].(status := CANCELLED)];
      threads := threads[t := Progressing(SEAL)];
      cancelled := Some(true);
    }

    // ------------------------------------------------------------ end of life

    method Seal(ghost t: nat) returns (ok: bool)
      requires t !in threads
      modifies this
      ensures View() == Step(old(View()), CoordinatorSpec.Seal(t)) && ok == !old(closed)
      ensures ok ==> closed && sealed && operations == old(operations)
    {
      ok := !closed;
      if ok {
        closed, sealed := true, true;
        threads := threads[t := Progressing(SEAL)];
      }
    }

    method Stop(ghost t: nat)
      requires t !in threads
      modifies this
      ensures View() == Step(old(View()), CoordinatorSpec.Stop(t))
      ensures closed && |operations| == |old(operations)|
      ensures forall k :: 0 <= k < |operations| ==>
                operations[k] == if old(operations)[k].status in {WAITING, QUEUED}
                                 then old(operations)[k].(status := CANCELLED) else old(operations)[k]
    {
      hide ScheduleStep, CancelStep, ScanStep, SubmitFailedStep, ReleaseStep, EndRunStep, CompleteSealStep,
        DropStopTokenStep, Registered, AfterSeal;
      ghost var before := operations;
      closed := true;
      for i := 0 to |operations|
        invariant |operations| == |before|
        invariant View() == old(View()).(closed := true, operations := operations)
        invariant forall k :: 0 <= k < i ==> operations[k] == CancelPending(before)[k]
        invariant forall k :: i <= k < |before| ==> operations[k] == before[k]
      {
        if operations[i].status != RUNNING && !IsTerminal(operations[i].status) {
          operations := operations[i := operations[i].(status := CANCELLED)];
        }
      }
      assert operations == CancelPending(before);
      threads := threads[t := Releasing(STOP)];
    }

    /** Completes the seal once nothing runs, retires or holds access. */
    method CompleteSeal(ghost t: nat) returns (completed: bool)
      requires t in threads && threads[t].CompletingSeal?
      modifies this
      ensures View() == Step(old(View()), CoordinatorSpec.CompleteSeal(t))
      ensures completed <==>
        && old(sealed) && !old(sealCompleted) && old(running) == 0 && old(retiring) == 0
        && forall i :: 0 <= i < |old(operations)| ==>
             && old(operations)[i].status in {COMPLETED, FAILED, CANCELLED}
             && !old(operations)[i].hasFunction && !old(operations)[i].retiring
      ensures completed ==> sealCompleted && domains == [] && released == old(domains)
      ensures !completed ==> View() == old(View()).(threads := threads)
    {
      hide Step;
      StepIsBlock(View(), CoordinatorSpec.CompleteSeal(t));
      ghost var stops := threads[t].stops;
      var held := false;
      for i := 0 to |operations|
        invariant held <==> exists k :: 0 <= k < i && operations[k].HoldsAccess()
      {
        held := held || operations[i].HoldsAccess();
      }
      if !sealed || sealCompleted || running != 0 || retiring != 0 || held {
        threads := AfterSeal(View(), t, stops).threads;
        return false;
      }
      sealCompleted := true;
      released := domains;
      domains := [];
      threads := threads[t := DroppingTokens(stops)];
      completed := true;
    }

    /** Stop lets go of the next owner token, until none is left. */
    method DropStopToken(ghost t: nat) returns (more: bool)
      requires t in threads && threads[t] == StoppingTokens
      modifies this
      ensures View() == Step(old(View()), CoordinatorSpec.DropStopToken(t))
    {
      hide Step;
      StepIsBlock(View(), CoordinatorSpec.DropStopToken(t));
      var i := 0;
      while i < |domains| && !domains[i].hasLifetime
        invariant i <= |domains|
        invariant FindToken(domains, 0) == FindToken(domains, i)
      {
        i := i + 1;
      }
      more := i < |domains|;
      if more {
        domains := domains[i := domains[i].(hasLifetime := false)];
      } else {
        threads := threads - {t};
      }
    }
  }

  lemma CancelEffect(s: State, t: nat, key: OperationKey)
    requires t !in s.threads
    ensures Resolve(s, key) == None <==> key.owner != s.owner || key.sequence == 0 || key.sequence > |s.operations|
    ensures Resolve(s, key).Some? ==> Resolve(s, key).value == key.sequence - 1 < |s.operations|
    ensures CancelStep(s, t, key) ==
            if Resolve(s, key) == None || s.operations[key.sequence - 1].status !in {WAITING, QUEUED} then s
            else s.(operations := s.operations[key.sequence - 1 := s.operations[key.sequence - 1].(status := CANCELLED)],
                    threads := s.threads[t := Progressing(SEAL)])
  {
  }

  lemma ReleaseEffect(s: State, t: nat, i: nat)
    requires t in s.threads && s.threads[t].Releasing?
    requires i <= |s.operations| && forall k :: 0 <= k < i ==> !Releasable(s.operations[k])
    requires i < |s.operations| ==> Releasable(s.operations[i])
    ensures var tail := s.threads[t].tail;
            ReleaseStep(s, t) ==
            if i == |s.operations| then s.(threads := AfterRelease(s, t, tail).threads)
            else s.(operations := s.operations[i := s.operations[i].(hasFunction := false, retiring := true)],
                    retiring := s.retiring + 1, threads := s.threads[t := Retiring(i, tail)])
  {
    hide FindReleasable, Releasable;
  }

  lemma ScanOne(operations: seq<Operation>, index: nat)
    requires index < |operations|
    ensures ScanFrom(operations, index) ==
            var op := operations[index];
            if op.status == WAITING && HasFailedDependency(operations, op) then
              ScanFrom(operations[index := op.(status := CANCELLED)], index + 1)
            else if op.status == WAITING && AllDependenciesCompleted(operations, op) then
              (operations[index := op.(status := QUEUED)], Some(index))
            else ScanFrom(operations, index + 1)
  {
    hide HasFailedDependency, AllDependenciesCompleted;
  }

  lemma NothingToScan(operations: seq<Operation>)
    ensures ScanFrom(operations, |operations|) == (operations, None)
  {
  }

  lemma ExplicitNext(s: State, keys: seq<OperationKey>, i: nat)
    requires i < |keys| && Resolve(s, keys[i]).Some?
    ensures Explicit(s, keys[..i + 1]) == Explicit(s, keys[..i]) + {Resolve(s, keys[i]).value}
  {
    var more, fewer := keys[..i + 1], keys[..i];
    assert forall k :: 0 <= k < i ==> more[k] == fewer[k];
    forall x | x in Explicit(s, more)
      ensures x in Explicit(s, fewer) + {Resolve(s, keys[i]).value}
    {
      var k :| 0 <= k < |more| && Resolve(s, more[k]).Some? && Resolve(s, more[k]).value == x;
      if k < i { assert Resolve(s, fewer[k]) == Some(x); }
    }
    forall x | x in Explicit(s, fewer)
      ensures x in Explicit(s, more)
    {
      var k :| 0 <= k < |fewer| && Resolve(s, fewer[k]).Some? && Resolve(s, fewer[k]).value == x;
      assert Resolve(s, more[k]) == Some(x);
    }
    assert Resolve(s, more[i]) == Resolve(s, keys[i]);
  }
}

/** What every step of the coordinator keeps. */
module CoordinatorInvariant {
  import opened Wrappers
  import opened AccessScopes
  import opened CoordinatorSpec

  // ------------------------------------------------------------- operations

  ghost predicate DependenciesPointBack(ops: seq<Operation>) {
    forall j, d :: 0 <= j < |ops| && d in ops[j].dependencies ==> d < j
  }

  ghost predicate FootprintsNormalized(ops: seq<Operation>) {
    forall j :: 0 <= j < |ops| ==> AllNormalized(ops[j].footprints)
  }

  /** Of two clashing operations the later one depends on the earlier one, unless that had
      already ended when the later one was admitted. */
  ghost predicate ClashesOrdered(ops: seq<Operation>) {
    forall i, j :: 0 <= i < j < |ops| && OperationsClash(ops[i].footprints, ops[j].footprints)
      ==> i in ops[j].dependencies || IsTerminal(ops[i].status)
  }

  /** Nothing is queued, run or finished before everything it depends on has completed. */
  ghost predicate StartedAfterDependencies(ops: seq<Operation>) {
    forall j, d :: 0 <= j < |ops| && d in ops[j].dependencies && ops[j].status !in {WAITING, CANCELLED}
      ==> d < |ops| && ops[d].status == COMPLETED
  }

  ghost predicate PayloadsMatchStatus(ops: seq<Operation>) {
    forall j :: 0 <= j < |ops| ==>
      && (ops[j].status in {WAITING, QUEUED} ==> ops[j].hasFunction)
      && (ops[j].status in {RUNNING, COMPLETED} ==> !ops[j].hasFunction)
      && (ops[j].retiring ==> ops[j].status in {FAILED, CANCELLED} && !ops[j].hasFunction)
  }

  ghost predicate OperationsSound(ops: seq<Operation>) {
    && DependenciesPointBack(ops) && FootprintsNormalized(ops) && ClashesOrdered(ops)
    && StartedAfterDependencies(ops) && PayloadsMatchStatus(ops)
  }

  // --------------------------------------------------------------- counters

  function CountTrue(flags: seq<bool>): nat {
    if flags == [] then 0 else CountTrue(flags[..|flags| - 1]) + if flags[|flags| - 1] then 1 else 0
  }

  function RunningFlags(ops: seq<Operation>): seq<bool> {
    seq(|ops|, i requires 0 <= i < |ops| => ops[i].status == RUNNING)
  }

  function RetiringFlags(ops: seq<Operation>): seq<bool> {
    seq(|ops|, i requires 0 <= i < |ops| => ops[i].retiring)
  }

  ghost predicate CountersSound(s: State) {
    s.running == CountTrue(RunningFlags(s.operations)) && s.retiring == CountTrue(RetiringFlags(s.operations))
  }

  lemma {:induction false} CountUpdate(flags: seq<bool>, i: nat, flag: bool)
    requires i < |flags|
    ensures CountTrue(flags[i := flag]) + (if flags[i] then 1 else 0) == CountTrue(flags) + if flag then 1 else 0
  {
    var last := |flags| - 1;
    if i < last {
      CountUpdate(flags[..last], i, flag);
      assert flags[i := flag][..last] == flags[..last][i := flag];
    } else {
      assert flags[i := flag][..last] == flags[..last];
    }
  }

  lemma {:induction false} CountZero(flags: seq<bool>)
    ensures CountTrue(flags) == 0 <==> forall i :: 0 <= i < |flags| ==> !flags[i]
  {
    if flags != [] {
      CountZero(flags[..|flags| - 1]);
    }
  }

  lemma CountersAfterUpdate(ops: seq<Operation>, i: nat, op: Operation)
    requires i < |ops|
    ensures CountTrue(RunningFlags(ops[i := op])) + (if ops[i].status == RUNNING then 1 else 0)
         == CountTrue(RunningFlags(ops)) + if op.status == RUNNING then 1 else 0
    ensures CountTrue(RetiringFlags(ops[i := op])) + (if ops[i].retiring then 1 else 0)
         == CountTrue(RetiringFlags(ops)) + if op.retiring then 1 else 0
  {
    CountUpdate(RunningFlags(ops), i, op.status == RUNNING);
    assert RunningFlags(ops[i := op]) == RunningFlags(ops)[i := op.status == RUNNING];
    CountUpdate(RetiringFlags(ops), i, op.retiring);
    assert RetiringFlags(ops[i := op]) == RetiringFlags(ops)[i := op.retiring];
  }

  lemma CountersAfterAppend(ops: seq<Operation>, op: Operation)
    ensures CountTrue(RunningFlags(ops + [op])) == CountTrue(RunningFlags(ops)) + if op.status == RUNNING then 1 else 0
    ensures CountTrue(RetiringFlags(ops + [op])) == CountTrue(RetiringFlags(ops)) + if op.retiring then 1 else 0
  {
    assert RunningFlags(ops + [op]) == RunningFlags(ops) + [op.status == RUNNING];
    assert (RunningFlags(ops) + [op.status == RUNNING])[..|ops|] == RunningFlags(ops);
    assert RetiringFlags(ops + [op]) == RetiringFlags(ops) + [op.retiring];
    assert (RetiringFlags(ops) + [op.retiring])[..|ops|] == RetiringFlags(ops);
  }

  lemma CountersZero(s: State)
    requires CountersSound(s)
    ensures s.running == 0 <==> forall i :: 0 <= i < |s.operations| ==> s.operations[i].status != RUNNING
    ensures s.retiring == 0 <==> forall i :: 0 <= i < |s.operations| ==> !s.operations[i].retiring
  {
    CountZero(RunningFlags(s.operations));
    CountZero(RetiringFlags(s.operations));
    assert forall i :: 0 <= i < |s.operations| ==> RunningFlags(s.operations)[i] == (s.operations[i].status == RUNNING);
    assert forall i :: 0 <= i < |s.operations| ==> RetiringFlags(s.operations)[i] == s.operations[i].retiring;
  }

  // ---------------------------------------------------------------- threads

  /** Payloads being destroyed and the threads destroying them match one to one. */
  ghost predicate RetirersMatch(s: State) {
    && (forall t :: t in s.threads && s.threads[t].Retiring? ==>
          s.threads[t].index < |s.operations| && s.operations[s.threads[t].index].retiring)
    && (forall t, u :: (t in s.threads && u in s.threads && s.threads[t].Retiring? && s.threads[u].Retiring?
                        && s.threads[t].index == s.threads[u].index) ==> t == u)
    && (forall i :: 0 <= i < |s.operations| && s.operations[i].retiring ==>
          exists t :: t in s.threads && s.threads[t].Retiring? && s.threads[t].index == i)
  }

  ghost predicate Advances(thread: Thread) { thread.Progressing? || thread.Submitting? }

  ghost predicate Releases(thread: Thread) { Advances(thread) || thread.Releasing? || thread.Retiring? }

  ghost predicate SomeThread(s: State, p: Thread -> bool) {
    exists t :: t in s.threads && p(s.threads[t])
  }

  /** A waiting operation that a scan would queue or cancel. */
  ghost predicate Actionable(ops: seq<Operation>, i: nat) {
    && i < |ops| && ops[i].status == WAITING
    && (HasFailedDependency(ops, ops[i]) || AllDependenciesCompleted(ops, ops[i]))
  }

  /** Whatever a scan could move on, some call is still going to scan. */
  ghost predicate NoLostWakeup(s: State) {
    SomeThread(s, Advances) || forall i :: !Actionable(s.operations, i)
  }

  /** Whatever payload can be released, some call is still going to look for it. */
  ghost predicate NoLostPayload(s: State) {
    SomeThread(s, Releases) || forall i :: 0 <= i < |s.operations| ==> !Releasable(s.operations[i])
  }

  // ------------------------------------------------------------ end of life

  ghost predicate Quiet(s: State) { s.closed && !SomeHoldsAccess(s.operations) }

  /** Admission is closed and no payload is waiting to be run or released. */
  ghost predicate NothingPending(s: State) {
    s.closed && forall i :: 0 <= i < |s.operations| ==> s.operations[i].status !in {WAITING, QUEUED}
  }

  /** A Stop call that has seen the coordinator drained. */
  ghost predicate Stopped(thread: Thread) {
    thread in {CompletingSeal(true), DroppingTokens(true), CallingBack(true), StoppingTokens}
  }

  ghost predicate StopSound(s: State) {
    && (forall t :: t in s.threads && Releases(s.threads[t]) && s.threads[t].tail == STOP ==> NothingPending(s))
    && (forall t :: t in s.threads && s.threads[t] == AwaitingDrain ==>
          NothingPending(s) && forall i :: 0 <= i < |s.operations| ==> !s.operations[i].hasFunction)
    && (forall t :: t in s.threads && Stopped(s.threads[t]) ==> Quiet(s))
    && (forall i :: 0 <= i < |s.domains| && !s.domains[i].hasLifetime ==> Quiet(s))
  }

  ghost predicate Draining(thread: Thread) { thread.DroppingTokens? || thread.CallingBack? }

  /** The drain callback is called at most once, and only on an empty coordinator. */
  ghost predicate SealSound(s: State) {
    && (s.sealed ==> s.closed)
    && (!s.sealCompleted ==> s.drainCalls == 0 && s.released == [] && forall t :: t in s.threads ==> !Draining(s.threads[t]))
    && (s.sealCompleted ==> s.sealed && Quiet(s) && s.domains == [])
    && (s.drainCalls > 0 ==> s.drainCalls == 1 && s.released == [] && forall t :: t in s.threads ==> !Draining(s.threads[t]))
    && (forall t :: t in s.threads && s.threads[t].CallingBack? ==> s.released == [])
    && (forall t, u :: t in s.threads && u in s.threads && Draining(s.threads[t]) && Draining(s.threads[u]) ==> t == u)
  }

  ghost predicate TokenHeld(domains: seq<Domain>, key: DomainKey) {
    exists i :: 0 <= i < |domains| && domains[i].key == key && domains[i].hasLifetime
  }

  /** The owners of everything that can still be accessed are kept alive. */
  ghost predicate TokensSound(s: State) {
    forall i, f :: 0 <= i < |s.operations| && s.operations[i].HoldsAccess() && f in s.operations[i].footprints
      ==> TokenHeld(s.domains, f.domain)
  }

  // ---------------------------------------------------------------- history

  ghost predicate HistorySound(s: State) {
    && (forall x :: 0 <= x < |s.history| ==>
          && s.history[x].at == x
          && s.history[x].op < |s.operations|
          && s.operations[s.history[x].op].status in {RUNNING, COMPLETED, FAILED})
    && (forall x, y :: 0 <= x < y < |s.history| && s.history[y].op < s.history[x].op ==>
          !OperationsClash(s.operations[s.history[y].op].footprints, s.operations[s.history[x].op].footprints))
  }

  ghost predicate Inv(s: State) {
    && OperationsSound(s.operations) && CountersSound(s) && RetirersMatch(s)
    && NoLostWakeup(s) && NoLostPayload(s)
    && StopSound(s) && SealSound(s) && TokensSound(s) && HistorySound(s)
  }

  lemma InitialSound(owner: nat)
    ensures Inv(Initial(owner))
  {
  }

  // ------------------------------------------------- how operations may change

  /** What any step may do to the operations already admitted. */
  ghost predicate Evolves(ops: seq<Operation>, ops': seq<Operation>) {
    && |ops'| == |ops|
    && forall i :: 0 <= i < |ops| ==> OperationEvolves(ops[i], ops'[i])
  }

  ghost predicate OperationEvolves(op: Operation, op': Operation) {
    && op'.footprints == op.footprints && op'.dependencies == op.dependencies
    && (op'.HoldsAccess() ==> op.HoldsAccess())
    && (op'.hasFunction ==> op.hasFunction)
    && (op'.status in {WAITING, QUEUED} ==> op.status in {WAITING, QUEUED})
    && (op.status in {RUNNING, COMPLETED, FAILED} ==> op'.status in {RUNNING, COMPLETED, FAILED})
    && (IsTerminal(op.status) ==> op'.status == op.status)
  }

  lemma KeptByEvolution(s: State, s': State)
    requires Evolves(s.operations, s'.operations) && s'.domains == s.domains && s'.history == s.history
    requires s.closed ==> s'.closed
    ensures TokensSound(s) ==> TokensSound(s')
    ensures HistorySound(s) ==> HistorySound(s')
    ensures Quiet(s) ==> Quiet(s')
    ensures NothingPending(s) ==> NothingPending(s')
  {
    forall i | 0 <= i < |s.operations|
      ensures OperationEvolves(s.operations[i], s'.operations[i])
    {
    }
  }

  lemma OperationsAfterUpdate(ops: seq<Operation>, i: nat, op: Operation)
    requires OperationsSound(ops) && i < |ops| && OperationEvolves(ops[i], op)
    requires op.status !in {WAITING, CANCELLED} ==> AllDependenciesCompleted(ops, ops[i])
    requires PayloadsMatchStatus([op])
    ensures OperationsSound(ops[i := op]) && Evolves(ops, ops[i := op])
  {
    var ops' := ops[i := op];
    assert [op][0] == op;
    forall j, d | 0 <= j < |ops'| && d in ops'[j].dependencies && ops'[j].status !in {WAITING, CANCELLED}
      ensures d < |ops'| && ops'[d].status == COMPLETED
    {
      assert d in ops[j].dependencies;
    }
  }

  // --------------------------------------------------------------- the scan

  /** What a scan does: some waiting operations are cancelled, at most one is queued. */
  ghost predicate ScanChange(op: Operation, op': Operation) {
    op' == op || (op.status == WAITING && op'.status in {CANCELLED, QUEUED} && op' == op.(status := op'.status))
  }

  lemma {:induction false} ScanEffect(ops: seq<Operation>, index: nat)
    requires OperationsSound(ops) && index <= |ops|
    requires forall k: nat :: k < index ==> !Actionable(ops, k)
    ensures var (ops', ready) := ScanFrom(ops, index);
      && OperationsSound(ops') && |ops'| == |ops|
      && (forall i :: 0 <= i < |ops| ==> ScanChange(ops[i], ops'[i]))
      && (ready == None ==> forall k: nat :: !Actionable(ops', k))
      && (ready != None ==> ready.value < |ops| && ops'[ready.value].status == QUEUED)
    decreases |ops| - index
  {
    hide ClashesOrdered;
    if index < |ops| {
      var op := ops[index];
      if op.status == WAITING && HasFailedDependency(ops, op) {
        var op' := op.(status := CANCELLED);
        OperationsAfterUpdate(ops, index, op');
        NothingBehindIsActionable(ops, index, op', ops[index := op']);
        ScanEffect(ops[index := op'], index + 1);
      } else if op.status == WAITING && AllDependenciesCompleted(ops, op) {
        OperationsAfterUpdate(ops, index, op.(status := QUEUED));
      } else {
        ScanEffect(ops, index + 1);
      }
    }
  }

  lemma NothingBehindIsActionable(ops: seq<Operation>, index: nat, op: Operation, ops': seq<Operation>)
    requires DependenciesPointBack(ops) && index < |ops| && op.status != WAITING && ops' == ops[index := op]
    requires forall k: nat :: k < index ==> !Actionable(ops, k)
    ensures forall k: nat :: k <= index ==> !Actionable(ops', k)
  {
    forall k: nat | k < index
      ensures !Actionable(ops', k)
    {
      assert !Actionable(ops, k);
      forall d: nat | d in ops[k].dependencies
        ensures d < k && ops'[d] == ops[d]
      {
      }
    }
  }

  lemma {:induction false} ScanKeepsCounters(ops: seq<Operation>, ops': seq<Operation>)
    requires |ops'| == |ops| && forall i :: 0 <= i < |ops| ==> ScanChange(ops[i], ops'[i])
    ensures RunningFlags(ops') == RunningFlags(ops) && RetiringFlags(ops') == RetiringFlags(ops)
  {
  }
}

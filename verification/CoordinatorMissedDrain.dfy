// When Seal can miss the drain callback, the missing run: everything else is driven to its end
// while the Schedule call destroys a payload, and that call leaves last.
module CoordinatorMissedDrain {
  import opened Wrappers
  import opened AccessScopes
  import opened CoordinatorSpec
  import opened CoordinatorInvariant
  import opened CoordinatorSteps
  import opened CoordinatorTheorems
  import opened CoordinatorDrain

  // ------------------------------------------------------------------ runs

  ghost predicate Leads(s: State, e: State) {
    exists actions :: LegalRun(s, actions) && RunActions(s, actions) == e
  }

  lemma Stays(s: State)
    ensures Leads(s, s)
  {
    assert LegalRun(s, []) && RunActions(s, []) == s;
  }

  lemma StepLeads(s: State, action: Action)
    requires Legal(s, action)
    ensures Leads(s, Step(s, action))
  {
    hide Step, Legal;
    var actions := [action];
    var next := Step(s, action);
    assert actions[0] == action && actions[1..] == [];
    assert LegalRun(next, actions[1..]) && RunActions(next, actions[1..]) == next;
    assert LegalRun(s, actions) && RunActions(s, actions) == next;
  }

  lemma {:induction false} RunAppend(s: State, a: seq<Action>, b: seq<Action>)
    requires LegalRun(s, a) && LegalRun(RunActions(s, a), b)
    ensures LegalRun(s, a + b) && RunActions(s, a + b) == RunActions(RunActions(s, a), b)
    decreases |a|
  {
    hide Step, Legal;
    if a == [] {
      assert a + b == b;
    } else {
      assert (a + b)[1..] == a[1..] + b;
      RunAppend(Step(s, a[0]), a[1..], b);
    }
  }

  lemma LeadsOn(s: State, m: State, e: State)
    requires Leads(s, m) && Leads(m, e)
    ensures Leads(s, e)
  {
    hide LegalRun, RunActions;
    var a :| LegalRun(s, a) && RunActions(s, a) == m;
    var b :| LegalRun(m, b) && RunActions(m, b) == e;
    RunAppend(s, a, b);
  }

  // ------------------------------------------------------------- the measure

  function WaitingFlags(ops: seq<Operation>): seq<bool> {
    seq(|ops|, i requires 0 <= i < |ops| => ops[i].status == WAITING)
  }

  function PayloadFlags(ops: seq<Operation>): seq<bool> {
    seq(|ops|, i requires 0 <= i < |ops| => ops[i].hasFunction)
  }

  function BusyFlags(ops: seq<Operation>): seq<bool> {
    seq(|ops|, i requires 0 <= i < |ops| => !IsTerminal(ops[i].status))
  }

  function Waiting(s: State): nat { CountTrue(WaitingFlags(s.operations)) }

  function Payloads(s: State): nat { CountTrue(PayloadFlags(s.operations)) }

  function Busy(s: State): nat { CountTrue(BusyFlags(s.operations)) }

  function Rank(thread: Thread): nat {
    if thread.Submitting? then 5 else if thread.Progressing? then 4 else if thread.Retiring? then 3
    else if thread.Releasing? then 2 else 1
  }

  lemma {:induction false} CountLess(a: seq<bool>, b: seq<bool>)
    requires |a| == |b| && forall i :: 0 <= i < |a| && b[i] ==> a[i]
    ensures CountTrue(b) <= CountTrue(a)
    ensures (exists i :: 0 <= i < |a| && a[i] && !b[i]) ==> CountTrue(b) < CountTrue(a)
  {
    if a != [] {
      var n := |a| - 1;
      CountLess(a[..n], b[..n]);
      if i :| 0 <= i < |a| && a[i] && !b[i] {
        assert i < n ==> a[..n][i] && !b[..n][i];
      }
    }
  }

  /** What driving calls on does to the operations: waiting ones are queued or cancelled, payloads are released. */
  ghost predicate Drives(s: State, e: State) {
    && e.owner == s.owner && |e.operations| == |s.operations|
    && forall i :: 0 <= i < |s.operations| ==> DrivesOne(s.operations[i], e.operations[i])
  }

  ghost predicate DrivesOne(op: Operation, op': Operation) {
    && op'.dependencies == op.dependencies && (op'.hasFunction ==> op.hasFunction)
    && (op'.status == op.status || (op.status == WAITING && op'.status in {QUEUED, CANCELLED}))
  }

  lemma DrivesOn(s: State, m: State, e: State)
    requires Drives(s, m) && Drives(m, e)
    ensures Drives(s, e)
  {
    forall i | 0 <= i < |s.operations|
      ensures DrivesOne(s.operations[i], e.operations[i])
    {
      assert DrivesOne(s.operations[i], m.operations[i]) && DrivesOne(m.operations[i], e.operations[i]);
    }
  }

  lemma DrivesLowers(s: State, e: State)
    requires Drives(s, e)
    ensures Waiting(e) <= Waiting(s) && Payloads(e) <= Payloads(s) && Busy(e) <= Busy(s)
    ensures (exists i :: 0 <= i < |s.operations| && s.operations[i].status == WAITING != e.operations[i].status) ==>
              Waiting(e) < Waiting(s)
    ensures (exists i :: 0 <= i < |s.operations| && s.operations[i].hasFunction && !e.operations[i].hasFunction) ==>
              Payloads(e) < Payloads(s)
  {
    hide CountTrue;
    forall i | 0 <= i < |s.operations|
      ensures WaitingFlags(e.operations)[i] ==> WaitingFlags(s.operations)[i]
      ensures PayloadFlags(e.operations)[i] ==> PayloadFlags(s.operations)[i]
      ensures BusyFlags(e.operations)[i] ==> BusyFlags(s.operations)[i]
    {
      assert DrivesOne(s.operations[i], e.operations[i]);
    }
    CountLess(WaitingFlags(s.operations), WaitingFlags(e.operations));
    CountLess(PayloadFlags(s.operations), PayloadFlags(e.operations));
    CountLess(BusyFlags(s.operations), BusyFlags(e.operations));
    if i :| 0 <= i < |s.operations| && s.operations[i].status == WAITING != e.operations[i].status {
      assert WaitingFlags(s.operations)[i] && !WaitingFlags(e.operations)[i];
    }
    if i :| 0 <= i < |s.operations| && s.operations[i].hasFunction && !e.operations[i].hasFunction {
      assert PayloadFlags(s.operations)[i] && !PayloadFlags(e.operations)[i];
    }
  }

  // ------------------------------------------------------- driving one call

  ghost predicate NoStops(s: State) {
    forall t :: t in s.threads ==> IsDrivable(s.threads[t])
  }

  ghost predicate IsDrivable(thread: Thread) {
    (Releases(thread) && thread.tail != STOP) || thread == CompletingSeal(false)
  }

  /** Sealed, not yet completed, and no Stop call anywhere. */
  ghost predicate Driven(s: State) { Inv(s) && s.sealed && !s.sealCompleted && NoStops(s) }

  ghost predicate Lower(s: State, e: State, v: nat)
    requires v in s.threads && v in e.threads
  {
    || Waiting(e) < Waiting(s)
    || (Waiting(e) == Waiting(s) && (Payloads(e) < Payloads(s) ||
         (Payloads(e) == Payloads(s) && Rank(e.threads[v]) < Rank(s.threads[v]))))
  }

  /** The call moves on and is lower, or has left. */
  ghost predicate MovesOn(s: State, e: State, v: nat)
    requires v in s.threads
  {
    if v in e.threads then
      && e.threads == s.threads[v := e.threads[v]] && Lower(s, e, v)
      && (Leaves(s.threads[v]) ==> Leaves(e.threads[v]) && e.threads[v].tail == s.threads[v].tail)
    else e.threads == s.threads - {v}
  }

  lemma DrivenStep(s: State, action: Action, v: nat, thread: Option<Thread>)
    requires Driven(s) && Legal(s, action) && ThreadMoves(s, Step(s, action), v, thread)
    requires thread.Some? ==> IsDrivable(thread.value)
    requires Step(s, action).sealed && !Step(s, action).sealCompleted
    ensures Driven(Step(s, action)) && Leads(s, Step(s, action))
  {
    StepKeepsInv(s, action);
    StepLeads(s, action);
    hide Inv, Step, Legal;
  }

  lemma DriveScan(s: State, v: nat) returns (e: State)
    requires Driven(s) && v in s.threads && s.threads[v].Progressing?
    ensures e == Step(s, Scan(v)) && Leads(s, e) && Driven(e) && Drives(s, e) && MovesOn(s, e, v) && v in e.threads
    ensures forall i :: 0 <= i < |s.operations| ==> e.operations[i].hasFunction == s.operations[i].hasFunction
    ensures !e.threads[v].Retiring?
  {
    e := ScanStep(s, v);
    assert e == Step(s, Scan(v));
    ScanIsDriven(s, v);
    ScanDrives(s, v);
    ScanMoves(s, v);
    hide *;
  }

  lemma ScanMoves(s: State, v: nat)
    requires Inv(s) && v in s.threads && s.threads[v].Progressing?
    ensures MovesOn(s, ScanStep(s, v), v) && v in ScanStep(s, v).threads && !ScanStep(s, v).threads[v].Retiring?
  {
    hide Inv, ScanFrom, Drives, Waiting, Payloads;
    ScanDrives(s, v);
  }

  lemma ScanIsDriven(s: State, v: nat)
    requires Driven(s) && v in s.threads && s.threads[v].Progressing?
    ensures Driven(Step(s, Scan(v))) && Leads(s, Step(s, Scan(v)))
  {
    hide Inv, ScanFrom;
    DrivenStep(s, Scan(v), v, Some(ScanStep(s, v).threads[v]));
  }

  lemma ScanDrives(s: State, v: nat)
    requires Inv(s) && v in s.threads && s.threads[v].Progressing?
    ensures var e := ScanStep(s, v);
      && Drives(s, e) && Waiting(e) <= Waiting(s) && Payloads(e) == Payloads(s)
      && (v in e.threads && e.threads[v].Submitting? ==> Waiting(e) < Waiting(s))
      && forall i :: 0 <= i < |s.operations| ==> e.operations[i].hasFunction == s.operations[i].hasFunction
  {
    hide OperationsSound, Actionable, ScanFrom, OperationsClash;
    var e := ScanStep(s, v);
    ScanEffect(s.operations, 0);
    var (ops, ready) := ScanFrom(s.operations, 0);
    forall i | 0 <= i < |s.operations|
      ensures DrivesOne(s.operations[i], e.operations[i]) && e.operations[i].hasFunction == s.operations[i].hasFunction
    {
      assert ScanChange(s.operations[i], ops[i]);
    }
    SamePayloads(s, e);
    assert Drives(s, e);
    if ready.Some? { ScanQueues(s.operations, 0); }
    DrivesLowers(s, e);
  }

  lemma {:induction false} ScanQueues(ops: seq<Operation>, index: nat)
    requires index <= |ops| && ScanFrom(ops, index).1.Some?
    ensures var (ops', ready) := ScanFrom(ops, index);
            ready.value < |ops| == |ops'| && ops[ready.value].status == WAITING && ops'[ready.value].status == QUEUED
    decreases |ops| - index
  {
    if index < |ops| {
      var op := ops[index];
      if op.status == WAITING && HasFailedDependency(ops, op) {
        ScanQueues(ops[index := op.(status := CANCELLED)], index + 1);
      } else if !(op.status == WAITING && AllDependenciesCompleted(ops, op)) {
        ScanQueues(ops, index + 1);
      }
    }
  }

  lemma SamePayloads(s: State, e: State)
    requires |e.operations| == |s.operations|
    requires forall i :: 0 <= i < |s.operations| ==> e.operations[i].hasFunction == s.operations[i].hasFunction
    ensures Payloads(e) == Payloads(s)
  {
    assert PayloadFlags(e.operations) == PayloadFlags(s.operations);
  }

  lemma DriveSubmitted(s: State, v: nat) returns (e: State)
    requires Driven(s) && v in s.threads && s.threads[v].Submitting?
    ensures e == Step(s, Submitted(v)) && e == Move(s, v, Progressing(s.threads[v].tail))
    ensures Leads(s, e) && Driven(e) && Drives(s, e) && MovesOn(s, e, v)
  {
    hide Inv;
    e := Step(s, Submitted(v));
    assert IsDrivable(s.threads[v]);
    DrivenStep(s, Submitted(v), v, Some(e.threads[v]));
  }

  lemma DriveRelease(s: State, v: nat) returns (e: State)
    requires Driven(s) && v in s.threads && s.threads[v].Releasing?
    ensures e == Step(s, Release(v)) && Leads(s, e) && Driven(e) && Drives(s, e) && MovesOn(s, e, v)
    ensures (exists i :: 0 <= i < |s.operations| && Releasable(s.operations[i])) ==> v in e.threads && e.threads[v].Retiring?
    ensures Leaves(s.threads[v]) && v in e.threads ==> e.threads[v].Retiring?
  {
    hide Leads, Inv;
    e := ReleaseStep(s, v);
    assert e == Step(s, Release(v)) && IsDrivable(s.threads[v]);
    ReleaseIsDriven(s, v);
    ReleaseDrives(s, v);
    ReleaseMoves(s, v);
    if exists i :: 0 <= i < |s.operations| && Releasable(s.operations[i]) { ReleaseFinds(s, v); }
  }

  lemma ReleaseMoves(s: State, v: nat)
    requires v in s.threads && s.threads[v].Releasing? && s.threads[v].tail != STOP
    ensures var e := ReleaseStep(s, v);
      MovesOn(s, e, v) && (Leaves(s.threads[v]) && v in e.threads ==> e.threads[v].Retiring?)
  {
    hide Waiting, Payloads, Drives, FindReleasable;
    ReleaseDrives(s, v);
  }

  lemma ReleaseFinds(s: State, v: nat)
    requires v in s.threads && s.threads[v].Releasing?
    requires exists i :: 0 <= i < |s.operations| && Releasable(s.operations[i])
    ensures v in ReleaseStep(s, v).threads && ReleaseStep(s, v).threads[v].Retiring?
  {
  }

  lemma ReleaseIsDriven(s: State, v: nat)
    requires Driven(s) && v in s.threads && s.threads[v].Releasing?
    ensures Driven(Step(s, Release(v))) && Leads(s, Step(s, Release(v)))
  {
    hide Inv, Leads, ScheduleStep;
    assert IsDrivable(s.threads[v]);
    var e := ReleaseStep(s, v);
    DrivenStep(s, Release(v), v, if v in e.threads then Some(e.threads[v]) else None);
  }

  lemma ReleaseDrives(s: State, v: nat)
    requires v in s.threads && s.threads[v].Releasing?
    ensures var e := ReleaseStep(s, v);
      && Drives(s, e) && Waiting(e) <= Waiting(s) && Payloads(e) <= Payloads(s)
      && (v in e.threads && e.threads[v].Retiring? ==> Payloads(e) < Payloads(s))
  {
    hide Waiting, Payloads, FindReleasable;
    var e, i := ReleaseStep(s, v), FindReleasable(s.operations, 0);
    if i < |s.operations| {
      PayloadTaken(s, e, i);
    } else {
      assert e.operations == s.operations && e.owner == s.owner;
      SameOperationsDrive(s, e);
    }
  }

  lemma SameOperationsDrive(s: State, e: State)
    requires e.operations == s.operations && e.owner == s.owner
    ensures Drives(s, e) && Waiting(e) == Waiting(s) && Payloads(e) == Payloads(s)
  {
  }

  lemma PayloadTaken(s: State, e: State, i: nat)
    requires i < |s.operations| && s.operations[i].hasFunction && e.owner == s.owner
    requires e.operations == s.operations[i := s.operations[i].(hasFunction := false, retiring := true)]
    ensures Drives(s, e) && Waiting(e) <= Waiting(s) && Payloads(e) < Payloads(s)
  {
    forall k | 0 <= k < |s.operations|
      ensures DrivesOne(s.operations[k], e.operations[k])
    {
    }
    assert Drives(s, e);
    hide Waiting, Payloads, Drives;
    DrivesLowers(s, e);
  }

  lemma RetirerKnown(s: State, v: nat)
    requires Inv(s) && v in s.threads && s.threads[v].Retiring?
    ensures s.threads[v].index < |s.operations| && s.operations[s.threads[v].index].retiring && s.retiring > 0
  {
    CountersZero(s);
  }

  lemma DriveRetired(s: State, v: nat) returns (e: State)
    requires Driven(s) && v in s.threads && s.threads[v].Retiring?
    ensures e == Step(s, Retired(v)) && Leads(s, e) && Driven(e) && Drives(s, e) && MovesOn(s, e, v)
    ensures v in e.threads && e.threads[v] == Releasing(s.threads[v].tail)
  {
    hide Drives, Waiting, Payloads, RunActions, Inv;
    e := Step(s, Retired(v));
    RetirerKnown(s, v);
    RetiredIsDriven(s, v);
    RetiredDrives(s, v);
  }

  lemma RetiredIsDriven(s: State, v: nat)
    requires Driven(s) && v in s.threads && s.threads[v].Retiring?
    ensures Driven(Step(s, Retired(v))) && Leads(s, Step(s, Retired(v)))
  {
    hide Inv;
    assert IsDrivable(s.threads[v]);
    RetirerKnown(s, v);
    DrivenStep(s, Retired(v), v, Some(Releasing(s.threads[v].tail)));
  }

  lemma RetiredDrives(s: State, v: nat)
    ensures var e := Step(s, Retired(v)); Drives(s, e) && Waiting(e) <= Waiting(s) && Payloads(e) == Payloads(s)
  {
    hide Waiting;
    var e := Step(s, Retired(v));
    assert Drives(s, e);
    DrivesLowers(s, e);
    SamePayloads(s, e);
  }

  lemma DriveSeal(s: State, v: nat) returns (e: State)
    requires Driven(s) && v in s.threads && s.threads[v] == CompletingSeal(false) && !ReadyToSeal(s)
    ensures e == Step(s, CompleteSeal(v)) && Leads(s, e) && Driven(e) && Drives(s, e) && e.threads == s.threads - {v}
  {
    e := Step(s, CompleteSeal(v));
    hide Inv, ReadyToSeal;
    DrivenStep(s, CompleteSeal(v), v, None);
  }

  /** One step of a call towards its end. */
  lemma DriveStep(s: State, v: nat) returns (e: State)
    requires Driven(s) && v in s.threads && !ReadyToSeal(s)
    ensures Leads(s, e) && Driven(e) && Drives(s, e) && MovesOn(s, e, v)
  {
    assert IsDrivable(s.threads[v]);
    hide Driven, Drives, MovesOn, Leads, ReadyToSeal, Step;
    match s.threads[v]
    case Progressing(_) => e := DriveScan(s, v);
    case Submitting(_, _) => e := DriveSubmitted(s, v);
    case Releasing(_) => e := DriveRelease(s, v);
    case Retiring(_, _) => e := DriveRetired(s, v);
    case CompletingSeal(_) =>
      e := DriveSeal(s, v);
      Left(s, e, v);
  }

  lemma Left(s: State, e: State, v: nat)
    requires v in s.threads && e.threads == s.threads - {v}
    ensures MovesOn(s, e, v)
  {
  }

  // ------------------------------------------- driving the others to their end

  /** As long as w does not move, the seal cannot be completed. */
  ghost predicate Blocks(s: State, w: nat, k: nat) {
    w in s.threads && (s.threads[w].Retiring? || (k < |s.operations| && s.operations[k].status == QUEUED))
  }

  lemma BlockedIsNotReady(s: State, w: nat, k: nat)
    requires Inv(s) && Blocks(s, w, k)
    ensures !ReadyToSeal(s)
  {
    if s.threads[w].Retiring? {
      RetirerKnown(s, w);
    } else {
      assert s.operations[k].HoldsAccess();
    }
  }

  lemma StaysBlocked(s: State, e: State, w: nat, k: nat)
    requires Blocks(s, w, k) && Drives(s, e) && w in e.threads && e.threads[w] == s.threads[w]
    ensures Blocks(e, w, k)
  {
    if k < |s.operations| {
      assert DrivesOne(s.operations[k], e.operations[k]);
    }
  }

  lemma DriveBlocked(s: State, v: nat, w: nat, k: nat) returns (m: State)
    requires Driven(s) && v in s.threads && v != w && Blocks(s, w, k)
    ensures Leads(s, m) && Driven(m) && Drives(s, m) && Blocks(m, w, k)
    ensures m.threads - {v} == s.threads - {v} && (v in m.threads ==> Lower(s, m, v))
  {
    hide Leads, Drives, Lower, Inv;
    BlockedIsNotReady(s, w, k);
    m := DriveStep(s, v);
    assert w in m.threads && m.threads[w] == s.threads[w];
    StaysBlocked(s, m, w, k);
    RestStays(s, m, v);
  }

  lemma RestStays(s: State, m: State, v: nat)
    requires v in s.threads && MovesOn(s, m, v)
    ensures m.threads - {v} == s.threads - {v}
  {
    hide Lower, Leaves;
  }

  lemma {:induction false} FinishThread(s: State, v: nat, w: nat, k: nat) returns (e: State)
    requires Driven(s) && v in s.threads && v != w && Blocks(s, w, k)
    ensures Leads(s, e) && Driven(e) && Drives(s, e) && e.threads == s.threads - {v} && Blocks(e, w, k)
    decreases Waiting(s), Payloads(s), Rank(s.threads[v])
  {
    hide Driven, Blocks, Drives, Leads, Waiting, Payloads, Leaves;
    var m := DriveBlocked(s, v, w, k);
    if v in m.threads {
      e := FinishThread(m, v, w, k);
      LeadsOn(s, m, e);
      DrivesOn(s, m, e);
    } else {
      assert m.threads - {v} == m.threads;
      e := m;
    }
  }

  lemma {:induction false} FinishOthers(s: State, w: nat, k: nat) returns (e: State)
    requires Driven(s) && Blocks(s, w, k)
    ensures Leads(s, e) && Driven(e) && Drives(s, e) && Blocks(e, w, k)
    ensures w in s.threads && e.threads == map[w := s.threads[w]]
    decreases |s.threads.Keys|
  {
    hide Driven, Leads;
    assert w in s.threads.Keys;
    if v :| v in s.threads && v != w {
      var m := FinishThread(s, v, w, k);
      assert m.threads.Keys == s.threads.Keys - {v};
      e := FinishOthers(m, w, k);
      LeadsOn(s, m, e);
      DrivesOn(s, m, e);
    } else {
      Stays(s);
      e := s;
      assert forall u :: u in s.threads <==> u == w;
    }
  }

  // --------------------------------------------------------- ending operations

  ghost predicate IsActive(s: State, i: nat) {
    i < |s.operations| && s.operations[i].status in {QUEUED, RUNNING}
  }

  /** A queued or running operation is run to its end by a call of its own. */
  lemma EndOne(s: State, i: nat, v: nat) returns (e: State)
    requires Driven(s) && IsActive(s, i) && v !in s.threads
    ensures Leads(s, e) && Driven(e) && e.threads == s.threads[v := Progressing(SEAL)]
    ensures e.owner == s.owner && |e.operations| == |s.operations| && IsTerminal(e.operations[i].status)
    ensures forall j :: 0 <= j < |s.operations| && j != i ==> e.operations[j] == s.operations[j]
    ensures Busy(e) < Busy(s)
  {
    hide Inv, Leads;
    var m := BeginOne(s, i);
    RunningCounted(m, i);
    e := Step(m, EndRun(i, v, false));
    DrivenStep(m, EndRun(i, v, false), v, Some(Progressing(SEAL)));
    LeadsOn(s, m, e);
    LessBusy(s, e, i);
  }

  lemma LessBusy(s: State, e: State, i: nat)
    requires |e.operations| == |s.operations| && IsActive(s, i) && IsTerminal(e.operations[i].status)
    requires forall j :: 0 <= j < |s.operations| && j != i ==> e.operations[j] == s.operations[j]
    ensures Busy(e) < Busy(s)
  {
    assert forall j :: 0 <= j < |s.operations| && BusyFlags(e.operations)[j] ==> BusyFlags(s.operations)[j];
    assert BusyFlags(s.operations)[i] && !BusyFlags(e.operations)[i];
    CountLess(BusyFlags(s.operations), BusyFlags(e.operations));
  }

  lemma RunningCounted(s: State, i: nat)
    requires Inv(s) && i < |s.operations| && s.operations[i].status == RUNNING
    ensures s.running > 0
  {
    CountersZero(s);
  }

  lemma BeginOne(s: State, i: nat) returns (m: State)
    requires Driven(s) && IsActive(s, i)
    ensures Leads(s, m) && Driven(m) && m.threads == s.threads && m.owner == s.owner
    ensures |m.operations| == |s.operations| && m.operations[i].status == RUNNING
    ensures forall j :: 0 <= j < |s.operations| && j != i ==> m.operations[j] == s.operations[j]
  {
    hide Inv;
    if s.operations[i].status == RUNNING {
      Stays(s);
      m := s;
    } else {
      m := Step(s, BeginRun(i));
      StepKeepsInv(s, BeginRun(i));
      StepLeads(s, BeginRun(i));
    }
  }

  // --------------------------------------------------- the last call to leave

  /** While w destroys a payload everything else ends. */
  lemma {:induction false} QuietDown(s: State, w: nat) returns (e: State)
    requires Driven(s) && w in s.threads && Leaves(s.threads[w]) && s.threads[w].Retiring?
    ensures Leads(s, e) && Driven(e) && e.threads == map[w := s.threads[w]] && NothingActive(e.operations)
    decreases Busy(s)
  {
    var m := QuietThreads(s, w);
    hide *;
    if i :| 0 <= i < |m.operations| && m.operations[i].status in {QUEUED, RUNNING} {
      var n := EndAnother(m, w, i);
      e := QuietDown(n, w);
      LeadsOn(m, n, e);
      LeadsOn(s, m, e);
    } else {
      NothingStarted(m);
      e := m;
    }
  }

  lemma QuietThreads(s: State, w: nat) returns (m: State)
    requires Driven(s) && w in s.threads && Leaves(s.threads[w]) && s.threads[w].Retiring?
    ensures Leads(s, m) && Driven(m) && Busy(m) <= Busy(s) && m.threads == map[w := s.threads[w]]
  {
    m := FinishOthers(s, w, 0);
    DrivesLowers(s, m);
    hide *;
  }

  lemma EndAnother(m: State, w: nat, i: nat) returns (n: State)
    requires Driven(m) && w in m.threads && m.threads == map[w := m.threads[w]]
    requires i < |m.operations| && m.operations[i].status in {QUEUED, RUNNING}
    ensures Leads(m, n) && Driven(n) && Busy(n) < Busy(m) && w in n.threads && n.threads[w] == m.threads[w]
  {
    n := EndOne(m, i, w + 1);
    hide Driven, Leads, Busy;
  }

  lemma NothingStarted(m: State)
    requires forall i :: 0 <= i < |m.operations| ==> m.operations[i].status !in {QUEUED, RUNNING}
    ensures NothingActive(m.operations)
  {
  }

  ghost predicate AllTerminal(ops: seq<Operation>) {
    forall i :: 0 <= i < |ops| ==> IsTerminal(ops[i].status)
  }

  lemma StaysTerminal(s: State, e: State)
    requires AllTerminal(s.operations) && Drives(s, e)
    ensures AllTerminal(e.operations)
  {
    forall i | 0 <= i < |e.operations|
      ensures IsTerminal(e.operations[i].status)
    {
      assert DrivesOne(s.operations[i], e.operations[i]);
    }
  }

  lemma NobodyLeft(e: State)
    requires Driven(e) && e.threads == map[] && AllTerminal(e.operations)
    ensures MissesDrain(e)
  {
    AllEnded(e);
  }

  /** Alone, a Schedule call that only has payloads to release leaves without completing the seal. */
  lemma {:induction false} LastLeaves(s: State, w: nat) returns (e: State)
    requires Driven(s) && s.threads.Keys == {w} && Leaves(s.threads[w]) && !Advances(s.threads[w])
    requires AllTerminal(s.operations)
    ensures Leads(s, e) && MissesDrain(e)
    decreases Payloads(s), Rank(s.threads[w])
  {
    var m := LastStep(s, w);
    if w in m.threads {
      hide Driven, Drives, Leads, MissesDrain, AllTerminal, Payloads, Leaves, Waiting;
      e := LastLeaves(m, w);
      LeadsOn(s, m, e);
    } else {
      NobodyLeft(m);
      e := m;
    }
  }

  lemma LastStep(s: State, w: nat) returns (m: State)
    requires Driven(s) && s.threads.Keys == {w} && Leaves(s.threads[w]) && !Advances(s.threads[w])
    requires AllTerminal(s.operations)
    ensures Leads(s, m) && Driven(m) && AllTerminal(m.operations)
    ensures if w in m.threads then m.threads.Keys == {w} && Leaves(m.threads[w]) && !Advances(m.threads[w]) && Lower(s, m, w)
            else m.threads == map[]
    ensures Waiting(m) == Waiting(s)
  {
    hide Driven, Drives, Leads, AllTerminal, Payloads, Waiting, Lower;
    m := LastMove(s, w);
    StaysTerminal(s, m);
    NoneWaits(s, m);
    if w in m.threads {
      assert m.threads.Keys == {w};
    } else {
      assert m.threads == map[];
    }
  }

  lemma LastMove(s: State, w: nat) returns (m: State)
    requires Driven(s) && s.threads.Keys == {w} && Leaves(s.threads[w]) && !Advances(s.threads[w])
    ensures Leads(s, m) && Driven(m) && Drives(s, m) && w in s.threads && MovesOn(s, m, w)
    ensures w in m.threads ==> !Advances(m.threads[w])
  {
    hide Driven, Leads, Drives, MovesOn, Step;
    assert w in s.threads;
    if s.threads[w].Retiring? {
      m := DriveRetired(s, w);
    } else {
      m := DriveRelease(s, w);
    }
  }

  lemma NoneWaits(s: State, m: State)
    requires AllTerminal(s.operations) && AllTerminal(m.operations)
    ensures Waiting(m) == Waiting(s) == 0
  {
    CountZero(WaitingFlags(s.operations));
    CountZero(WaitingFlags(m.operations));
  }

  lemma NobodyAdvances(s: State, w: nat)
    requires Driven(s) && s.threads.Keys == {w} && !Advances(s.threads[w]) && NothingActive(s.operations)
    ensures AllTerminal(s.operations)
  {
    AllEnded(s);
  }

  /** From a state in which a Schedule call destroys a payload the callback can be missed. */
  lemma RetiringMisses(s: State, w: nat) returns (e: State)
    requires Driven(s) && w in s.threads && Leaves(s.threads[w]) && s.threads[w].Retiring?
    ensures Leads(s, e) && MissesDrain(e)
  {
    hide Driven, Leads, MissesDrain, AllTerminal;
    var m := QuietDown(s, w);
    assert m.threads.Keys == {w};
    NobodyAdvances(m, w);
    e := LastLeaves(m, w);
    LeadsOn(s, m, e);
  }
}

/** Parallel runs, with scoped systems or without. With scoped systems a run goes through an access coordinator, to
    which the systems are handed in canonical order with the footprints they declare (ecs/world.cpp, StartScoped and
    PrepareScopedInvocations); whatever the coordinator's calls and the callbacks do in between, the run equals the
    sequential one. */
module ScopedRuns {
  import opened Wrappers
  import opened Reordering
  import opened SystemGraphSpec
  import opened SystemRuns
  import opened HierarchySpec
  import A = AccessScopes
  import B = ScopedBatch
  import C = CoordinatorSpec
  import I = CoordinatorInvariant
  import S = CoordinatorSteps
  import H = CoordinatorTheorems
  import T = EntityTableSpec

  /** What a run is prepared from: the registered systems and their graph, the declarations and the resolved entries
      of the scoped ones against the frozen entity table, and the domains of the world and of each component. */
  datatype Plan = Plan(systems: seq<System>, graph: ExecutionGraph, table: T.Table, worldId: nat,
                       declarations: nat -> seq<B.Declaration>, entries: nat -> seq<B.ViewEntry>,
                       present: (nat, EntityReference) -> bool,
                       world: A.DomainKey, domain: nat -> A.DomainKey)

  // ------------------------------------------------------------ publication

  const WHOLE := A.AccessScope(A.WHOLE_STORAGE, 0, 0, [])

  function Requirement(mode: Mode): A.AccessRequirement { if mode == WRITE then A.WRITE else A.READ }

  /** The footprints a system is scheduled with. One that declares nothing excludes all others. */
  function FootprintsOf(plan: Plan, a: nat): seq<A.AccessFootprint>
    requires a < |plan.systems|
  {
    var system := plan.systems[a];
    if system.scoped then B.Footprints(plan.declarations(a), plan.world, plan.domain)
    else
      [A.AccessFootprint(plan.world, WHOLE, if system.access == [] then A.EXCLUSIVE else A.READ)] +
      seq(|system.access|, k requires 0 <= k < |system.access| =>
            A.AccessFootprint(plan.domain(system.access[k].component), WHOLE, Requirement(system.access[k].mode)))
  }

  /** An ordinary system is admitted for the whole of every component it declares, and for reading the world; one that
      declares nothing excludes all others. */
  lemma FootprintPerAccess(plan: Plan, a: nat)
    requires a < |plan.systems| && !plan.systems[a].scoped
    ensures var f, access := FootprintsOf(plan, a), plan.systems[a].access;
      && |f| == |access| + 1
      && f[0].domain == plan.world && f[0].requirement == (if access == [] then A.EXCLUSIVE else A.READ)
      && (forall k, cell :: 0 <= k < |f| ==> A.Covers(f[k].scope, cell))
      && forall k :: 0 <= k < |access| ==>
           && f[k + 1].domain == plan.domain(access[k].component)
           && f[k + 1].requirement == (match access[k].mode case WRITE => A.WRITE case READ => A.READ)
  {
  }

  /** Where a system stands in the order; the length if it does not. */
  function Position(order: seq<nat>, a: nat): (k: nat)
    ensures k <= |order| && (k < |order| ==> order[k] == a) && (a in order ==> k < |order|)
  {
    if order == [] || order[0] == a then 0 else 1 + Position(order[1..], a)
  }

  /** The keys that scheduling the dependencies has returned. */
  function KeysOf(plan: Plan, owner: nat, a: nat): seq<C.OperationKey>
    requires a < |plan.graph.dependencies|
  {
    var dependencies := plan.graph.dependencies[a];
    seq(|dependencies|, k requires 0 <= k < |dependencies| =>
      C.OperationKey(owner, Position(plan.graph.order, dependencies[k]) + 1))
  }

  /** A Schedule call is the run's: it hands the next system of the order to the coordinator. */
  ghost predicate SchedulesNext(plan: Plan, s: C.State, action: C.Action) {
    action.Schedule? && C.Step(s, action) != s ==>
      var k := |s.operations|;
      && k < |plan.graph.order| && plan.graph.order[k] < |plan.systems| && plan.graph.order[k] < |plan.graph.dependencies|
      && action.footprints == FootprintsOf(plan, plan.graph.order[k])
      && action.keys == KeysOf(plan, s.owner, plan.graph.order[k])
  }

  ghost predicate Publishes(plan: Plan, s: C.State, actions: seq<C.Action>)
    decreases |actions|
  {
    actions != [] ==> SchedulesNext(plan, s, actions[0]) && Publishes(plan, C.Step(s, actions[0]), actions[1..])
  }

  // ------------------------------------- what the coordinator's steps leave alone

  /** Operations keep what they were admitted with. */
  ghost predicate KeepsDeclared(ops: seq<C.Operation>, ops': seq<C.Operation>) {
    && |ops'| >= |ops|
    && forall i :: 0 <= i < |ops| ==> ops'[i].footprints == ops[i].footprints && ops'[i].dependencies == ops[i].dependencies
  }

  lemma {:induction false} ScanKeepsDeclared(ops: seq<C.Operation>, index: nat)
    requires index <= |ops|
    ensures KeepsDeclared(ops, C.ScanFrom(ops, index).0) && |C.ScanFrom(ops, index).0| == |ops|
    decreases |ops| - index
  {
    if index < |ops| {
      var op := ops[index];
      if op.status == C.WAITING && C.HasFailedDependency(ops, op) {
        ScanKeepsDeclared(ops[index := op.(status := C.CANCELLED)], index + 1);
      } else if !(op.status == C.WAITING && C.AllDependenciesCompleted(ops, op)) {
        ScanKeepsDeclared(ops, index + 1);
      }
    }
  }

  lemma UpdateKeepsDeclared(ops: seq<C.Operation>, i: nat, op: C.Operation)
    requires i < |ops| && op.footprints == ops[i].footprints && op.dependencies == ops[i].dependencies
    ensures KeepsDeclared(ops, ops[i := op]) && KeepsDeclared(ops, ops)
  {
  }

  lemma CancelKeepsDeclared(ops: seq<C.Operation>)
    ensures KeepsDeclared(ops, C.CancelPending(ops)) && |C.CancelPending(ops)| == |ops|
  {
  }

  lemma SameKeepsDeclared(ops: seq<C.Operation>)
    ensures KeepsDeclared(ops, ops)
  {
  }

  ghost predicate KeepsAdmitted(s: C.State, s': C.State) {
    KeepsDeclared(s.operations, s'.operations) && |s'.operations| == |s.operations| && s'.owner == s.owner
  }

  lemma FailureKeepsDeclared(s: C.State, t: nat)
    ensures KeepsAdmitted(s, C.SubmitFailedStep(s, t))
  {
    hide KeepsDeclared;
    SameKeepsDeclared(s.operations);
    if t in s.threads && s.threads[t].Submitting? && s.threads[t].index < |s.operations| {
      UpdateKeepsDeclared(s.operations, s.threads[t].index, s.operations[s.threads[t].index].(status := C.FAILED));
    }
  }

  lemma ReleaseKeepsDeclared(s: C.State, t: nat)
    ensures KeepsAdmitted(s, C.ReleaseStep(s, t))
  {
    hide KeepsDeclared, C.FindReleasable, C.Releasable;
    SameKeepsDeclared(s.operations);
    var i := C.FindReleasable(s.operations, 0);
    if i < |s.operations| {
      UpdateKeepsDeclared(s.operations, i, s.operations[i].(hasFunction := false, retiring := true));
    }
  }

  lemma RetiredKeepsDeclared(s: C.State, t: nat)
    ensures KeepsAdmitted(s, C.Step(s, C.Retired(t)))
  {
    hide KeepsDeclared, C.ScheduleStep, C.CancelStep, C.ScanStep, C.SubmitFailedStep, C.ReleaseStep, C.EndRunStep, C.CompleteSealStep,
      C.DropStopTokenStep;
    SameKeepsDeclared(s.operations);
    if t in s.threads && s.threads[t].Retiring? && s.threads[t].index < |s.operations| {
      UpdateKeepsDeclared(s.operations, s.threads[t].index, s.operations[s.threads[t].index].(retiring := false));
    }
  }

  lemma ScanStepKeepsDeclared(s: C.State, t: nat)
    ensures KeepsAdmitted(s, C.ScanStep(s, t))
  {
    hide C.ScanFrom, KeepsDeclared;
    SameKeepsDeclared(s.operations);
    ScanKeepsDeclared(s.operations, 0);
  }

  lemma OperationStepKeepsDeclared(s: C.State, action: C.Action)
    requires action.Cancel? || action.Stop? || action.BeginRun? || action.EndRun?
    ensures KeepsAdmitted(s, C.Step(s, action))
  {
    hide KeepsDeclared, C.CancelPending, C.ScheduleStep, C.ScanStep, C.SubmitFailedStep, C.ReleaseStep, C.CompleteSealStep,
      C.DropStopTokenStep, C.Registered;
    SameKeepsDeclared(s.operations);
    CancelKeepsDeclared(s.operations);
    match action
    case Cancel(_, key) =>
      if C.Resolve(s, key).Some? {
        var i := C.Resolve(s, key).value;
        UpdateKeepsDeclared(s.operations, i, s.operations[i].(status := C.CANCELLED));
      }
    case BeginRun(i) =>
      if i < |s.operations| {
        UpdateKeepsDeclared(s.operations, i, s.operations[i].(status := C.RUNNING, hasFunction := false));
      }
    case EndRun(i, _, failed) =>
      if i < |s.operations| {
        UpdateKeepsDeclared(s.operations, i, s.operations[i].(status := if failed then C.FAILED else C.COMPLETED));
      }
    case Stop(_) =>
  }

  lemma OtherStepKeepsDeclared(s: C.State, action: C.Action)
    requires !action.Schedule? && !action.Cancel? && !action.Stop? && !action.BeginRun? && !action.EndRun?
    requires !action.Scan? && !action.SubmitFailed? && !action.Release? && !action.Retired?
    ensures KeepsAdmitted(s, C.Step(s, action))
  {
    hide KeepsDeclared, C.Step, C.CompleteSealStep, C.DropStopTokenStep;
    SameKeepsDeclared(s.operations);
    C.StepIsBlock(s, action);
    match action
    case CompleteSeal(t) => SealingKeepsOperations(s, t);
    case DropStopToken(t) => SealingKeepsOperations(s, t);
    case _ => RestKeepsOperations(s, action);
  }

  predicate SameOperations(s: C.State, s': C.State) { s'.operations == s.operations && s'.owner == s.owner }

  lemma SealingKeepsOperations(s: C.State, t: nat)
    ensures SameOperations(s, C.CompleteSealStep(s, t)) && SameOperations(s, C.DropStopTokenStep(s, t))
  {
    hide C.ReadyToSeal, C.FindToken;
  }

  lemma RestKeepsOperations(s: C.State, action: C.Action)
    requires action.RegisterDomain? || action.Seal? || action.Submitted? || action.Access? || action.Drained?
          || action.DropTokens? || action.CallBack?
    ensures SameOperations(s, C.Step(s, action))
  {
    hide C.ScheduleStep, C.CancelStep, C.ScanStep, C.SubmitFailedStep, C.ReleaseStep, C.EndRunStep, C.CompleteSealStep,
      C.DropStopTokenStep, C.Registered, C.CancelPending;
  }

  lemma StepKeepsDeclared(s: C.State, action: C.Action)
    requires !action.Schedule?
    ensures KeepsAdmitted(s, C.Step(s, action))
  {
    hide *;
    C.StepIsBlock(s, action);
    match action
    case Cancel(_, _) => OperationStepKeepsDeclared(s, action);
    case Stop(_) => OperationStepKeepsDeclared(s, action);
    case BeginRun(_) => OperationStepKeepsDeclared(s, action);
    case EndRun(_, _, _) => OperationStepKeepsDeclared(s, action);
    case Scan(t) => ScanStepKeepsDeclared(s, t);
    case SubmitFailed(t) => FailureKeepsDeclared(s, t);
    case Release(t) => ReleaseKeepsDeclared(s, t);
    case Retired(t) => RetiredKeepsDeclared(s, t);
    case _ => OtherStepKeepsDeclared(s, action);
  }

  lemma StepKeepsHistory(s: C.State, action: C.Action)
    requires !action.Access?
    ensures C.Step(s, action).history == s.history
  {
    hide C.Step, C.ScheduleStep, C.CancelStep, C.ScanStep, C.SubmitFailedStep, C.ReleaseStep, C.EndRunStep, C.CompleteSealStep,
      C.DropStopTokenStep;
    C.StepIsBlock(s, action);
    match action
    case Schedule(t, footprints, keys) => BlocksKeepHistory(s, t, footprints, keys, C.OperationKey(0, 0), 0, false);
    case Cancel(t, key) => BlocksKeepHistory(s, t, [], [], key, 0, false);
    case Scan(t) => ThreadBlocksKeepHistory(s, t);
    case SubmitFailed(t) => ThreadBlocksKeepHistory(s, t);
    case Release(t) => ThreadBlocksKeepHistory(s, t);
    case EndRun(i, t, failed) => BlocksKeepHistory(s, t, [], [], C.OperationKey(0, 0), i, failed);
    case CompleteSeal(t) => ThreadBlocksKeepHistory(s, t);
    case DropStopToken(t) => ThreadBlocksKeepHistory(s, t);
    case _ => RestKeepsHistory(s, action);
  }

  lemma BlocksKeepHistory(s: C.State, t: nat, footprints: seq<A.AccessFootprint>, keys: seq<C.OperationKey>,
                          key: C.OperationKey, i: nat, failed: bool)
    ensures C.ScheduleStep(s, t, footprints, keys).history == s.history
    ensures C.CancelStep(s, t, key).history == s.history
    ensures C.EndRunStep(s, i, t, failed).history == s.history
  {
    hide C.Admit;
  }

  lemma ThreadBlocksKeepHistory(s: C.State, t: nat)
    ensures C.ScanStep(s, t).history == s.history && C.SubmitFailedStep(s, t).history == s.history
    ensures C.ReleaseStep(s, t).history == s.history && C.CompleteSealStep(s, t).history == s.history
    ensures C.DropStopTokenStep(s, t).history == s.history
  {
    hide C.ScanFrom, C.ReadyToSeal, C.FindToken, C.FindReleasable, C.Releasable;
  }

  lemma RestKeepsHistory(s: C.State, action: C.Action)
    requires action.RegisterDomain? || action.Seal? || action.Stop? || action.Submitted? || action.Retired?
          || action.BeginRun? || action.Drained? || action.DropTokens? || action.CallBack?
    ensures C.Step(s, action).history == s.history
  {
    hide C.ScheduleStep, C.CancelStep, C.ScanStep, C.SubmitFailedStep, C.ReleaseStep, C.EndRunStep, C.CompleteSealStep,
      C.DropStopTokenStep, C.Registered, C.CancelPending;
  }

  // ------------------------------------------------------- the run's invariant

  /** The operations admitted so far are the first systems of the order, behind their dependencies. */
  ghost predicate Published(plan: Plan, s: C.State) {
    && |s.operations| <= |plan.graph.order|
    && forall k :: 0 <= k < |s.operations| ==> PublishedOne(plan, s, k)
  }

  ghost predicate PublishedOne(plan: Plan, s: C.State, k: nat)
    requires k < |s.operations| <= |plan.graph.order|
  {
    var a := plan.graph.order[k];
    && a < |plan.systems| && a < |plan.graph.dependencies|
    && A.NormalizeAll(FootprintsOf(plan, a)) == Ok(s.operations[k].footprints)
    && forall b :: b in plan.graph.dependencies[a] ==> Position(plan.graph.order, b) in s.operations[k].dependencies
  }

  /** No access of an operation is followed by one of an operation it depends on. */
  ghost predicate DependenciesFirst(s: C.State) {
    forall x, y :: 0 <= x < y < |s.history| && s.history[x].op < |s.operations| ==>
      s.history[y].op !in s.operations[s.history[x].op].dependencies
  }

  ghost predicate RunInv(plan: Plan, s: C.State) { I.Inv(s) && Published(plan, s) && DependenciesFirst(s) }

  lemma AdmittedNext(plan: Plan, s: C.State, action: C.Action)
    requires Published(plan, s) && action.Schedule? && SchedulesNext(plan, s, action)
    ensures Published(plan, C.Step(s, action)) && KeepsDeclared(s.operations, C.Step(s, action).operations)
  {
    hide C.Conflicting, FootprintsOf, A.NormalizeAll;
    var s' := C.Step(s, action);
    if s' != s {
      var k, op := |s.operations|, C.Admit(s, action.footprints, action.keys).value;
      var a := plan.graph.order[k];
      forall b | b in plan.graph.dependencies[a]
        ensures Position(plan.graph.order, b) in op.dependencies
      {
        DependencyAdmitted(plan, s, action, b);
      }
      forall j | 0 <= j < k
        ensures PublishedOne(plan, s', j)
      {
        assert PublishedOne(plan, s, j);
      }
      assert PublishedOne(plan, s', k);
    }
  }

  lemma DependencyAdmitted(plan: Plan, s: C.State, action: C.Action, b: nat)
    requires action.Schedule? && C.Admit(s, action.footprints, action.keys).Some?
    requires |s.operations| < |plan.graph.order| && plan.graph.order[|s.operations|] < |plan.graph.dependencies|
    requires action.keys == KeysOf(plan, s.owner, plan.graph.order[|s.operations|])
    requires b in plan.graph.dependencies[plan.graph.order[|s.operations|]]
    ensures Position(plan.graph.order, b) in C.Admit(s, action.footprints, action.keys).value.dependencies
  {
    var dependencies := plan.graph.dependencies[plan.graph.order[|s.operations|]];
    var i :| 0 <= i < |dependencies| && dependencies[i] == b;
    assert C.Resolve(s, action.keys[i]) == Some(Position(plan.graph.order, b));
    assert Position(plan.graph.order, b) in C.Explicit(s, action.keys);
  }

  lemma StillPublished(plan: Plan, s: C.State, s': C.State)
    requires Published(plan, s) && KeepsDeclared(s.operations, s'.operations) && |s'.operations| == |s.operations|
    ensures Published(plan, s')
  {
    forall k | 0 <= k < |s'.operations|
      ensures PublishedOne(plan, s', k)
    {
      assert PublishedOne(plan, s, k);
    }
  }

  lemma StillDependenciesFirst(s: C.State, s': C.State)
    requires I.Inv(s) && DependenciesFirst(s) && KeepsDeclared(s.operations, s'.operations) && s'.history == s.history
    ensures DependenciesFirst(s')
  {
  }

  /** What makes an access runs, and what an operation with accesses depends on has completed. */
  lemma AccessKeepsDependenciesFirst(s: C.State, i: nat)
    requires I.Inv(s) && DependenciesFirst(s)
    ensures DependenciesFirst(C.Step(s, C.Access(i)))
  {
    hide I.Inv, C.Step;
    var s' := C.Step(s, C.Access(i));
    AccessAppends(s, i);
    if s' != s {
      forall x | 0 <= x < |s.history|
        ensures s.history[x].op < |s.operations| && i !in s.operations[s.history[x].op].dependencies
      {
        AccessedBehindNothingRunning(s, i, x);
      }
    }
  }

  lemma AccessAppends(s: C.State, i: nat)
    ensures C.Step(s, C.Access(i)) ==
            if i >= |s.operations| || s.operations[i].status != C.RUNNING then s
            else s.(history := s.history + [C.Event(i, |s.history|)])
  {
    hide C.ScheduleStep, C.CancelStep, C.ScanStep, C.SubmitFailedStep, C.ReleaseStep, C.EndRunStep, C.CompleteSealStep,
      C.DropStopTokenStep, C.Registered, C.CancelPending;
  }

  lemma AccessedBehindNothingRunning(s: C.State, i: nat, x: nat)
    requires I.Inv(s) && i < |s.operations| && s.operations[i].status == C.RUNNING && x < |s.history|
    ensures s.history[x].op < |s.operations| && i !in s.operations[s.history[x].op].dependencies
  {
    hide I.ClashesOrdered;
    assert s.operations[s.history[x].op].status in {C.RUNNING, C.COMPLETED, C.FAILED};
  }

  lemma StepKeepsRunInv(plan: Plan, s: C.State, action: C.Action)
    requires RunInv(plan, s) && SchedulesNext(plan, s, action)
    ensures RunInv(plan, C.Step(s, action))
  {
    hide I.Inv, C.Step, Published, DependenciesFirst, SchedulesNext, KeepsDeclared;
    var s' := C.Step(s, action);
    S.StepKeepsInv(s, action);
    if action.Schedule? {
      AdmittedNext(plan, s, action);
    } else {
      StepKeepsDeclared(s, action);
      StillPublished(plan, s, s');
    }
    if action.Access? {
      AccessKeepsDependenciesFirst(s, action.index);
    } else {
      StepKeepsHistory(s, action);
      StillDependenciesFirst(s, s');
    }
  }

  lemma {:induction false} RunKeepsRunInv(plan: Plan, s: C.State, actions: seq<C.Action>)
    requires RunInv(plan, s) && Publishes(plan, s, actions)
    ensures RunInv(plan, C.RunActions(s, actions))
    decreases |actions|
  {
    hide RunInv, C.Step, SchedulesNext;
    if actions != [] {
      StepKeepsRunInv(plan, s, actions[0]);
      RunKeepsRunInv(plan, C.Step(s, actions[0]), actions[1..]);
    }
  }

  // --------------------------------------------------------- the steps of the run

  /** The accesses of the run, as steps of the systems' callbacks. */
  ghost function StepsMade(order: seq<nat>, history: seq<C.Event>): (q: seq<MicroStep>)
    requires forall e :: e in history ==> e.op < |order|
    ensures |q| == |history|
  {
    if history == [] then []
    else
      var init, last := history[..|history| - 1], history[|history| - 1];
      StepsMade(order, init) + [MicroStep(order[last.op], |H.AccessesOf(init, last.op)|)]
  }

  lemma {:induction false} StepsMadeAt(order: seq<nat>, history: seq<C.Event>, x: nat)
    requires x < |history| && forall e :: e in history ==> e.op < |order|
    ensures StepsMade(order, history)[x] == MicroStep(order[history[x].op], |H.AccessesOf(history[..x], history[x].op)|)
  {
    var init := history[..|history| - 1];
    if x < |init| {
      StepsMadeAt(order, init, x);
      assert init[..x] == history[..x];
    }
  }

  lemma {:induction false} AccessesGrow(history: seq<C.Event>, op: nat, x: nat, y: nat)
    requires x <= y <= |history|
    ensures |H.AccessesOf(history[..x], op)| <= |H.AccessesOf(history[..y], op)|
    ensures x < y && history[x].op == op ==> |H.AccessesOf(history[..x], op)| < |H.AccessesOf(history[..y], op)|
    decreases y
  {
    if x < y {
      assert history[..y][..y - 1] == history[..y - 1];
      AccessesGrow(history, op, x, y - 1);
    }
  }

  lemma {:induction false} FindAccess(history: seq<C.Event>, op: nat, index: nat) returns (x: nat)
    requires index < |H.AccessesOf(history, op)|
    ensures x < |history| && history[x].op == op && |H.AccessesOf(history[..x], op)| == index
  {
    var init, last := history[..|history| - 1], history[|history| - 1];
    if last.op == op && |H.AccessesOf(init, op)| == index {
      x := |history| - 1;
    } else {
      x := FindAccess(init, op, index);
      assert init[..x] == history[..x];
    }
  }

  // --------------------------------------------------------------- confinement

  /** What resolving the declarations of a scoped system promises about its entries. */
  ghost predicate Resolved(plan: Plan, a: nat) {
    && (forall k :: 0 <= k < |plan.declarations(a)| ==> B.ValidScope(plan.table, plan.worldId, plan.declarations(a)[k].scope))
    && exists granted :: IsGrant(plan, a, granted) && B.Lists(plan.entries(a), granted)
  }

  ghost predicate IsGrant(plan: Plan, a: nat, granted: set<B.Grant>) {
    forall g :: g in granted <==>
      && plan.present(g.component, g.entity)
      && B.Granted(plan.table, plan.worldId, plan.declarations(a), |plan.declarations(a)|, g)
  }

  ghost predicate HasView(entries: seq<B.ViewEntry>, component: nat, entity: nat, write: bool) {
    exists e :: e in entries && e.component == component && e.entity.identity.index == entity && (write ==> e.writable)
  }

  ghost predicate SomeScoped(systems: seq<System>) { exists a :: 0 <= a < |systems| && systems[a].scoped }

  /** A scoped system gets at components through its views, an ordinary one at the components it declares; beside
      scoped systems, one that declares nothing may get at anything. All have locals and a buffer of their own. */
  ghost predicate MayUse(plan: Plan, a: nat, p: Place, mode: Mode)
    requires a < |plan.systems|
  {
    if p.LOCAL? then p.system == a
    else if plan.systems[a].scoped then HasView(plan.entries(a), p.component, p.entity, mode == WRITE)
    else (SomeScoped(plan.systems) && plan.systems[a].access == []) || Declares(plan.systems[a], p.component, mode)
  }

  ghost predicate StaysConfined(plan: Plan, a: nat, reach: Footprint<Place>)
    requires a < |plan.systems|
  {
    (forall p :: p in reach.inputs ==> MayUse(plan, a, p, READ)) && (forall p :: p in reach.outputs ==> MayUse(plan, a, p, WRITE))
  }

  /** The footprints reach the entity's component, or everything. */
  ghost predicate FootprintsReach(plan: Plan, f: seq<A.AccessFootprint>, p: Place, mode: Mode)
    requires p.CELL?
  {
    var cell := A.Slot(p.entity);
    || A.MayChange(f, plan.world, A.Slot(0))
    || (A.MayTouch(f, plan.domain(p.component), cell) && (mode == WRITE ==> A.MayChange(f, plan.domain(p.component), cell)))
  }

  lemma UseIsInFootprints(plan: Plan, a: nat, p: Place, mode: Mode)
    requires a < |plan.systems| && |plan.table.entities| <= INVALID_INDEX
    requires plan.systems[a].scoped ==> Resolved(plan, a)
    requires p.CELL? && MayUse(plan, a, p, mode)
    ensures FootprintsReach(plan, FootprintsOf(plan, a), p, mode)
  {
    var f, system := FootprintsOf(plan, a), plan.systems[a];
    if system.scoped {
      var e :| e in plan.entries(a) && e.component == p.component && e.entity.identity.index == p.entity
               && (mode == WRITE ==> e.writable);
      var granted :| IsGrant(plan, a, granted) && B.Lists(plan.entries(a), granted);
      B.EntriesStayInFootprints(plan.table, plan.worldId, plan.declarations(a), plan.entries(a), granted, plan.present,
                                plan.world, plan.domain, e);
    } else if system.access == [] {
      assert f[0].requirement == A.EXCLUSIVE;
    } else {
      var k :| 0 <= k < |system.access| && system.access[k].component == p.component &&
               (mode == READ || system.access[k].mode == WRITE);
      assert f[k + 1] == A.AccessFootprint(plan.domain(p.component), WHOLE, Requirement(system.access[k].mode));
    }
  }

  /** Normalizing footprints does not change what they reach. */
  lemma {:induction false} NormalizeKeepsReach(f: seq<A.AccessFootprint>, domain: A.DomainKey, cell: A.Cell)
    requires A.NormalizeAll(f).Ok?
    ensures A.MayTouch(f, domain, cell) ==> A.MayTouch(A.NormalizeAll(f).value, domain, cell)
    ensures A.MayChange(f, domain, cell) ==> A.MayChange(A.NormalizeAll(f).value, domain, cell)
  {
    var n := A.NormalizeAll(f).value;
    NormalizedFootprints(f);
    if i :| 0 <= i < |f| && f[i].domain == domain && A.Covers(f[i].scope, cell) {
      A.NormalizeKeepsCover(f[i].scope);
      assert A.Covers(n[i].scope, cell);
    }
    if i :| 0 <= i < |f| && f[i].domain == domain && f[i].requirement != A.READ && A.Covers(f[i].scope, cell) {
      A.NormalizeKeepsCover(f[i].scope);
      assert A.Covers(n[i].scope, cell);
    }
  }

  lemma {:induction false} NormalizedFootprints(f: seq<A.AccessFootprint>)
    requires A.NormalizeAll(f).Ok?
    ensures var n := A.NormalizeAll(f).value;
      |n| == |f| && forall i :: 0 <= i < |f| ==> A.Normalize(f[i].scope).Ok? && n[i] == f[i].(scope := A.Normalize(f[i].scope).value)
  {
    if f != [] {
      NormalizedFootprints(f[1..]);
    }
  }

  // --------------------------------------------------- clashing systems in order

  /** Systems that touch a common place, one of them changing it, have clashing footprints. */
  lemma ClashMeansFootprintsClash(plan: Plan, s: C.State, reach: nat -> Footprint<Place>, k: nat, l: nat)
    requires Published(plan, s) && I.FootprintsNormalized(s.operations) && AllStayConfined(plan, reach)
    requires k < |s.operations| && l < |s.operations| && plan.graph.order[k] != plan.graph.order[l]
    requires Clash(reach(plan.graph.order[k]), reach(plan.graph.order[l]))
    ensures A.OperationsClash(s.operations[k].footprints, s.operations[l].footprints)
  {
    assert PublishedOne(plan, s, k) && PublishedOne(plan, s, l);
    var a, b := plan.graph.order[k], plan.graph.order[l];
    if reach(a).outputs * reach(b).All() != iset{} {
      var p :| p in reach(a).outputs * reach(b).All();
      CommonPlace(plan, a, b, p, s.operations[k].footprints, s.operations[l].footprints);
    } else {
      var p :| p in reach(b).outputs * reach(a).All();
      CommonPlace(plan, b, a, p, s.operations[l].footprints, s.operations[k].footprints);
      A.OperationsClashSymmetric(s.operations[l].footprints, s.operations[k].footprints);
    }
  }

  /** Every system stays within what it may use, and the declarations of the scoped ones are resolved. */
  ghost predicate AllStayConfined(plan: Plan, reach: nat -> Footprint<Place>) {
    && |plan.table.entities| <= INVALID_INDEX
    && forall a: nat :: a < |plan.systems| ==>
         StaysConfined(plan, a, reach(a)) && (plan.systems[a].scoped ==> Resolved(plan, a))
  }

  lemma CommonPlace(plan: Plan, a: nat, b: nat, p: Place, f: seq<A.AccessFootprint>, g: seq<A.AccessFootprint>)
    requires a < |plan.systems| && b < |plan.systems| && a != b && |plan.table.entities| <= INVALID_INDEX
    requires plan.systems[a].scoped ==> Resolved(plan, a)
    requires plan.systems[b].scoped ==> Resolved(plan, b)
    requires MayUse(plan, a, p, WRITE) && (MayUse(plan, b, p, READ) || MayUse(plan, b, p, WRITE))
    requires A.NormalizeAll(FootprintsOf(plan, a)) == Ok(f) && A.NormalizeAll(FootprintsOf(plan, b)) == Ok(g)
    requires A.AllNormalized(f) && A.AllNormalized(g)
    ensures A.OperationsClash(f, g)
  {
    var mode := if MayUse(plan, b, p, WRITE) then WRITE else READ;
    UseIsInFootprints(plan, a, p, WRITE);
    UseIsInFootprints(plan, b, p, mode);
    hide MayUse, Resolved;
    var everything, cell := A.Slot(0), A.Slot(p.entity);
    WorldIsTouched(plan, a);
    WorldIsTouched(plan, b);
    NormalizeKeepsReach(FootprintsOf(plan, a), plan.world, everything);
    NormalizeKeepsReach(FootprintsOf(plan, b), plan.world, everything);
    NormalizeKeepsReach(FootprintsOf(plan, a), plan.domain(p.component), cell);
    NormalizeKeepsReach(FootprintsOf(plan, b), plan.domain(p.component), cell);
    hide FootprintsOf, A.MayTouch, A.MayChange, A.OperationsClash, A.AllNormalized, A.NormalizeAll;
    if A.MayChange(f, plan.world, everything) || A.MayChange(g, plan.world, everything) {
      A.SharedCellClashes(f, g, plan.world, everything);
    } else {
      A.SharedCellClashes(f, g, plan.domain(p.component), cell);
    }
  }

  lemma WorldIsTouched(plan: Plan, a: nat)
    requires a < |plan.systems|
    ensures A.MayTouch(FootprintsOf(plan, a), plan.world, A.Slot(0))
  {
    assert FootprintsOf(plan, a)[0].domain == plan.world;
  }

  // ------------------------------------------------------------------ theorem

  /** The coordinator has come to s by a run's calls: every system has been handed to it and has made all its steps. */
  ghost predicate IsCoordinatedRun(plan: Plan, lengths: nat -> nat, actions: seq<C.Action>, owner: nat) {
    var s := C.RunActions(C.Initial(owner), actions);
    && Publishes(plan, C.Initial(owner), actions)
    && |s.operations| == |plan.graph.order|
    && forall k :: 0 <= k < |plan.graph.order| ==> |H.AccessesOf(s.history, k)| == lengths(plan.graph.order[k])
  }

  ghost predicate Finished(plan: Plan, lengths: nat -> nat, s: C.State) {
    && RunInv(plan, s) && |s.operations| == |plan.graph.order|
    && forall k :: 0 <= k < |plan.graph.order| ==> |H.AccessesOf(s.history, k)| == lengths(plan.graph.order[k])
  }

  lemma RunFinishes(plan: Plan, lengths: nat -> nat, actions: seq<C.Action>, owner: nat)
    requires IsCoordinatedRun(plan, lengths, actions, owner)
    ensures Finished(plan, lengths, C.RunActions(C.Initial(owner), actions))
  {
    I.InitialSound(owner);
    assert RunInv(plan, C.Initial(owner));
    RunKeepsRunInv(plan, C.Initial(owner), actions);
  }

  ghost predicate InOrder(plan: Plan, s: C.State) { forall e :: e in s.history ==> e.op < |plan.graph.order| }

  lemma HistoryInOrder(plan: Plan, lengths: nat -> nat, s: C.State)
    requires Finished(plan, lengths, s)
    ensures InOrder(plan, s)
  {
    forall e | e in s.history
      ensures e.op < |plan.graph.order|
    {
      var x :| 0 <= x < |s.history| && s.history[x] == e;
    }
  }

  /** The steps made by two accesses, in the order of the accesses. */
  lemma StepsInOrder(plan: Plan, s: C.State, x: nat, y: nat)
    requires InOrder(plan, s) && x < y < |s.history|
    ensures var q := StepsMade(plan.graph.order, s.history);
      && q[x].system == plan.graph.order[s.history[x].op] && q[y].system == plan.graph.order[s.history[y].op]
      && (s.history[x].op == s.history[y].op ==> q[x].index < q[y].index)
  {
    StepsMadeAt(plan.graph.order, s.history, x);
    StepsMadeAt(plan.graph.order, s.history, y);
    AccessesGrow(s.history, s.history[y].op, x, y);
  }

  lemma StepIsMade(plan: Plan, lengths: nat -> nat, s: C.State, m: MicroStep)
    requires Finished(plan, lengths, s) && InOrder(plan, s) && IsPermutation(plan.graph.order, |plan.systems|)
    ensures m in StepsMade(plan.graph.order, s.history) <==> m.system < |plan.systems| && m.index < lengths(m.system)
  {
    hide I.Inv, Published, DependenciesFirst;
    var order, q := plan.graph.order, StepsMade(plan.graph.order, s.history);
    if m.system < |plan.systems| && m.index < lengths(m.system) {
      assert m.system in order;
      var k :| 0 <= k < |order| && order[k] == m.system;
      var x := FindAccess(s.history, k, m.index);
      StepsMadeAt(order, s.history, x);
      assert q[x] == m;
    }
    if m in q {
      var x :| 0 <= x < |q| && q[x] == m;
      StepsMadeAt(order, s.history, x);
      var op := s.history[x].op;
      assert s.history[x] in s.history && order[op] in order;
      assert s.history[..|s.history|] == s.history;
      AccessesGrow(s.history, op, x, |s.history|);
    }
  }

  lemma CoordinatedRunInterleaves(plan: Plan, lengths: nat -> nat, s: C.State)
    requires IsExecutionGraph(plan.systems, plan.graph) && Finished(plan, lengths, s) && InOrder(plan, s)
    ensures IsInterleaving(plan.systems, plan.graph, lengths, StepsMade(plan.graph.order, s.history))
  {
    hide Finished, CanonicalOrder;
    var order, q := plan.graph.order, StepsMade(plan.graph.order, s.history);
    forall m
      ensures m in q <==> m.system < |plan.systems| && m.index < lengths(m.system)
    {
      StepIsMade(plan, lengths, s, m);
    }
    forall x, y | 0 <= x < y < |q|
      ensures q[x] != q[y] && (q[x].system == q[y].system ==> q[x].index < q[y].index)
    {
      StepsInOrder(plan, s, x, y);
      assert s.history[x] in s.history && s.history[y] in s.history;
    }
    forall a: nat, b: nat | a < |plan.systems| && b in plan.graph.dependencies[a]
      ensures AllBefore(q, b, a)
    {
      DependencyRunsFirst(plan, lengths, s, b, a);
    }
  }

  /** A step of a system is an access of its operation. */
  lemma StepOfSystem(plan: Plan, s: C.State, x: nat, k: nat)
    requires IsPermutation(plan.graph.order, |plan.systems|) && InOrder(plan, s)
    requires x < |s.history| && k < |plan.graph.order|
    requires StepsMade(plan.graph.order, s.history)[x].system == plan.graph.order[k]
    ensures s.history[x].op == k
  {
    StepsMadeAt(plan.graph.order, s.history, x);
    assert s.history[x] in s.history;
  }

  lemma DependencyAccessFirst(s: C.State, x: nat, y: nat)
    requires I.Inv(s) && DependenciesFirst(s) && x < |s.history| && y < |s.history| && s.history[y].op < |s.operations|
    requires s.history[x].op in s.operations[s.history[y].op].dependencies
    ensures x < y
  {
    assert I.DependenciesPointBack(s.operations);
    hide I.Inv;
  }

  /** A system starts only after its dependencies are complete. */
  lemma DependencyRunsFirst(plan: Plan, lengths: nat -> nat, s: C.State, b: nat, a: nat)
    requires IsExecutionGraph(plan.systems, plan.graph) && Finished(plan, lengths, s) && InOrder(plan, s)
    requires a < |plan.systems| && b in plan.graph.dependencies[a]
    ensures AllBefore(StepsMade(plan.graph.order, s.history), b, a)
  {
    hide I.Inv, DependenciesFirst, FootprintsOf;
    var order, q := plan.graph.order, StepsMade(plan.graph.order, s.history);
    assert a in order && b in order;
    var k :| 0 <= k < |order| && order[k] == a;
    assert PublishedOne(plan, s, k);
    forall x, y | 0 <= x < |q| && 0 <= y < |q| && q[x].system == b && q[y].system == a
      ensures x < y
    {
      StepOfSystem(plan, s, x, Position(order, b));
      StepOfSystem(plan, s, y, k);
      DependencyAccessFirst(s, x, y);
    }
  }

  lemma ClashingAccessesInOrder(s: C.State, x: nat, y: nat)
    requires I.Inv(s) && x < |s.history| && y < |s.history|
    requires s.history[x].op < s.history[y].op < |s.operations|
    requires A.OperationsClash(s.operations[s.history[x].op].footprints, s.operations[s.history[y].op].footprints)
    ensures x < y
  {
    assert I.HistorySound(s);
    hide I.Inv, A.OperationsClash;
  }

  lemma CoordinatorOrdersClashes(plan: Plan, lengths: nat -> nat, s: C.State, reach: nat -> Footprint<Place>)
    requires IsExecutionGraph(plan.systems, plan.graph) && Finished(plan, lengths, s) && InOrder(plan, s)
    requires AllStayConfined(plan, reach)
    ensures OrdersClashes(plan.graph.order, reach, StepsMade(plan.graph.order, s.history))
  {
    var order, q := plan.graph.order, StepsMade(plan.graph.order, s.history);
    forall a: nat, b: nat | Precedes(order, b, a) && Clash(reach(b), reach(a))
      ensures AllBefore(q, b, a)
    {
      var k, l :| 0 <= k < l < |order| && order[k] == b && order[l] == a;
      ClashMeansFootprintsClash(plan, s, reach, k, l);
      OperationsInOrder(plan, s, k, l);
    }
  }

  lemma OperationsInOrder(plan: Plan, s: C.State, k: nat, l: nat)
    requires IsPermutation(plan.graph.order, |plan.systems|) && InOrder(plan, s) && I.Inv(s)
    requires k < l < |s.operations| == |plan.graph.order|
    requires A.OperationsClash(s.operations[k].footprints, s.operations[l].footprints)
    ensures AllBefore(StepsMade(plan.graph.order, s.history), plan.graph.order[k], plan.graph.order[l])
  {
    hide I.Inv, A.OperationsClash;
    var order, q := plan.graph.order, StepsMade(plan.graph.order, s.history);
    forall x, y | 0 <= x < |q| && 0 <= y < |q| && q[x].system == order[k] && q[y].system == order[l]
      ensures x < y
    {
      StepOfSystem(plan, s, x, k);
      StepOfSystem(plan, s, y, l);
      ClashingAccessesInOrder(s, x, y);
    }
  }

  /**
   * A successful parallel run with scoped systems leaves the same component store, and every system the same locals
   * and the same recorded commands, as running the callbacks one after another in canonical order; and every step of
   * every callback sees the same values. Nothing is assumed of the order in which the steps come: that systems which
   * clash run in canonical order follows from the footprints they are admitted with.
   */
  lemma CoordinatedRunIsSequential<Val(!new)>(
      plan: Plan, reach: nat -> Footprint<Place>, lengths: nat -> nat, actions: seq<C.Action>, owner: nat,
      act: (MicroStep, map<Place, Val>) -> map<Place, Val>, store: map<Place, Val>)
    requires IsExecutionGraph(plan.systems, plan.graph) && AllStayConfined(plan, reach)
    requires AllConfined(act, Reach(reach)) && IsCoordinatedRun(plan, lengths, actions, owner)
    ensures var s := C.RunActions(C.Initial(owner), actions);
      && InOrder(plan, s)
      && var q := StepsMade(plan.graph.order, s.history);
      && IsInterleaving(plan.systems, plan.graph, lengths, q) && OrdersClashes(plan.graph.order, reach, q)
      && SameRun(reach, act, Sequential(plan.graph.order, lengths), q, store)
  {
    hide *;
    var s := C.RunActions(C.Initial(owner), actions);
    RunFinishes(plan, lengths, actions, owner);
    HistoryInOrder(plan, lengths, s);
    CoordinatedRunInterleaves(plan, lengths, s);
    CoordinatorOrdersClashes(plan, lengths, s, reach);
    OrderedRunIsSequential(plan.systems, plan.graph, reach, lengths, act, StepsMade(plan.graph.order, s.history), store);
  }

  // ----------------------------------------------------------- all parallel runs

  /** The steps of a successful parallel run: with a scoped system it is a run of the coordinator, and otherwise one
      in which every system waits for its dependencies. */
  ghost predicate IsParallelRun(plan: Plan, lengths: nat -> nat, q: seq<MicroStep>)
    requires |plan.graph.dependencies| == |plan.systems|
  {
    if SomeScoped(plan.systems) then
      exists actions, owner :: IsCoordinatedRun(plan, lengths, actions, owner) && IsStepsOf(plan, actions, owner, q)
    else IsInterleaving(plan.systems, plan.graph, lengths, q)
  }

  ghost predicate IsStepsOf(plan: Plan, actions: seq<C.Action>, owner: nat, q: seq<MicroStep>) {
    var s := C.RunActions(C.Initial(owner), actions);
    InOrder(plan, s) && q == StepsMade(plan.graph.order, s.history)
  }

  /**
   * A successful parallel run leaves the same component store, and every system the same locals and the same recorded
   * commands, as running the callbacks one after another in canonical order; and every step of every callback sees
   * the same values.
   */
  lemma ParallelRunIsSequential<Val(!new)>(
      plan: Plan, reach: nat -> Footprint<Place>, lengths: nat -> nat, q: seq<MicroStep>,
      act: (MicroStep, map<Place, Val>) -> map<Place, Val>, store: map<Place, Val>)
    requires IsExecutionGraph(plan.systems, plan.graph) && AllStayConfined(plan, reach)
    requires AllConfined(act, Reach(reach)) && IsParallelRun(plan, lengths, q)
    ensures SameRun(reach, act, Sequential(plan.graph.order, lengths), q, store)
  {
    if SomeScoped(plan.systems) {
      var actions, owner :| IsCoordinatedRun(plan, lengths, actions, owner) && IsStepsOf(plan, actions, owner, q);
      CoordinatedRunIsSequential(plan, reach, lengths, actions, owner, act, store);
    } else {
      ConfinedMeansDeclared(plan, reach);
      GraphRunIsSequential(plan.systems, plan.graph, reach, lengths, act, q, store);
    }
  }

  lemma ConfinedMeansDeclared(plan: Plan, reach: nat -> Footprint<Place>)
    requires AllStayConfined(plan, reach) && !SomeScoped(plan.systems)
    ensures AllDeclared(plan.systems, reach)
  {
    forall a: nat | a < |plan.systems|
      ensures StaysDeclared(plan.systems, a, reach(a))
    {
      assert StaysConfined(plan, a, reach(a));
      hide Declares;
      assert forall p :: p in reach(a).inputs ==> MayUse(plan, a, p, READ);
      assert forall p :: p in reach(a).outputs ==> MayUse(plan, a, p, WRITE);
    }
  }
}

// The access coordinator as a state machine (ecs/internal/access_coordinator.cpp).
//
// Every block that holds the metadata lock is one step; everything a call does outside
// the lock is a separate thread state, so steps of different calls interleave freely.
// While an operation runs, each single access it makes to the stored data is a step too.
module CoordinatorSpec {
  import opened Wrappers
  import opened AccessScopes

  datatype Status = WAITING | QUEUED | RUNNING | COMPLETED | FAILED | CANCELLED

  predicate IsTerminal(status: Status) { status in {COMPLETED, FAILED, CANCELLED} }

  /** hasFunction: the payload has not been moved out yet.  The sorted dependency vector
      is kept as a set. */
  datatype Operation = Operation(footprints: seq<AccessFootprint>, hasFunction: bool, dependencies: set<nat>,
                                 status: Status, retiring: bool)
  {
    predicate HoldsAccess() { !IsTerminal(status) || hasFunction || retiring }
  }

  datatype Domain = Domain(key: DomainKey, hasLifetime: bool)

  datatype OperationKey = OperationKey(owner: nat, sequence: nat)

  /** What a call still has to do once it has released the payloads it found. A Schedule call
      leaves, and only then hands out the key of the operation it admitted. */
  datatype Tail = LEAVE(admitted: nat) | SEAL | STOP

  /** Where a call stands between two locked blocks. */
  datatype Thread =
    | Progressing(tail: Tail)
    | Submitting(index: nat, tail: Tail)
    | Releasing(tail: Tail)
    | Retiring(index: nat, tail: Tail)
    | AwaitingDrain
    | CompletingSeal(stops: bool)
    | DroppingTokens(stops: bool)
    | CallingBack(stops: bool)
    | StoppingTokens

  /** One access of a running operation, tagged with its place in the history. */
  datatype Event = Event(op: nat, at: nat)

  datatype State = State(
    owner: nat,
    operations: seq<Operation>,
    domains: seq<Domain>,
    running: nat,
    retiring: nat,
    closed: bool,
    sealed: bool,
    sealCompleted: bool,
    hasFailure: bool,
    released: seq<Domain>,       // the tokens CompleteSeal has moved out and not dropped yet
    drainCalls: nat,             // how often the drain callback has been called
    threads: map<nat, Thread>,
    history: seq<Event>)

  datatype Action =
    | RegisterDomain(domain: DomainKey, hasLifetime: bool)
    | Schedule(thread: nat, footprints: seq<AccessFootprint>, keys: seq<OperationKey>)
    | Cancel(thread: nat, key: OperationKey)
    | Seal(thread: nat)
    | Stop(thread: nat)
    | Scan(thread: nat)
    | Submitted(thread: nat)
    | SubmitFailed(thread: nat)
    | Release(thread: nat)
    | Retired(thread: nat)
    | BeginRun(index: nat)
    | Access(index: nat)
    | EndRun(index: nat, thread: nat, failed: bool)
    | Drained(thread: nat)
    | CompleteSeal(thread: nat)
    | DropTokens(thread: nat)
    | CallBack(thread: nat)
    | DropStopToken(thread: nat)

  function Initial(owner: nat): State {
    State(owner, [], [], 0, 0, false, false, false, false, [], 0, map[], [])
  }

  // ------------------------------------------------------ blocks under the lock

  predicate IsRegistered(domains: seq<Domain>, key: DomainKey) {
    exists i | 0 <= i < |domains| :: domains[i].key == key
  }

  function Resolve(s: State, key: OperationKey): Option<nat> {
    if key.owner != s.owner || key.sequence == 0 || key.sequence > |s.operations| then None
    else Some(key.sequence - 1)
  }

  /** The operations that hold access and clash with the footprints. */
  function Conflicting(operations: seq<Operation>, footprints: seq<AccessFootprint>): set<nat> {
    set i: nat | i < |operations| && operations[i].HoldsAccess() && OperationsClash(operations[i].footprints, footprints)
  }

  /** The operations the caller named. */
  function Explicit(s: State, keys: seq<OperationKey>): set<nat> {
    set i | 0 <= i < |keys| && Resolve(s, keys[i]).Some? :: Resolve(s, keys[i]).value
  }

  /** None when the call throws; otherwise the admitted operation. */
  function Admit(s: State, footprints: seq<AccessFootprint>, keys: seq<OperationKey>): Option<Operation> {
    var normalized := NormalizeAll(footprints);
    if normalized.Err? || s.closed || s.hasFailure then None
    else if exists i | 0 <= i < |normalized.value| :: !IsRegistered(s.domains, normalized.value[i].domain) then None
    else if exists i | 0 <= i < |keys| :: Resolve(s, keys[i]) == None then None
    else
      var dependencies := Explicit(s, keys) + Conflicting(s.operations, normalized.value);
      Some(Operation(normalized.value, true, dependencies, WAITING, false))
  }

  predicate DomainInUse(operations: seq<Operation>, key: DomainKey) {
    exists i, j | 0 <= i < |operations| && 0 <= j < |operations[i].footprints| ::
      operations[i].HoldsAccess() && operations[i].footprints[j].domain == key
  }

  /** The first domain of the same owner and type; the number of domains when there is none. */
  function FindDomain(domains: seq<Domain>, key: DomainKey): (i: nat)
    ensures i <= |domains|
    ensures i < |domains| ==> domains[i].key.owner == key.owner && domains[i].key.typeId == key.typeId
  {
    if domains == [] then 0
    else if domains[0].key.owner == key.owner && domains[0].key.typeId == key.typeId then 0
    else 1 + FindDomain(domains[1..], key)
  }

  function Registered(s: State, key: DomainKey, hasLifetime: bool): Option<seq<Domain>> {
    if !ValidKey(key) || !hasLifetime || s.closed || s.hasFailure then None
    else
      var i := FindDomain(s.domains, key);
      if i == |s.domains| then Some(s.domains + [Domain(key, true)])
      else if key.generation <= s.domains[i].key.generation || DomainInUse(s.operations, s.domains[i].key) then None
      else Some(s.domains[i := Domain(key, true)])
  }

  predicate HasFailedDependency(operations: seq<Operation>, op: Operation) {
    exists d | d in op.dependencies :: d < |operations| && operations[d].status in {FAILED, CANCELLED}
  }

  predicate AllDependenciesCompleted(operations: seq<Operation>, op: Operation) {
    forall d | d in op.dependencies :: d < |operations| && operations[d].status == COMPLETED
  }

  /** Scans the operations from index on in one locked block: waiting operations behind failed work are
      cancelled on the way, and the first ready one is marked queued and handed out. */
  function ScanFrom(operations: seq<Operation>, index: nat): (seq<Operation>, Option<nat>)
    requires index <= |operations|
    decreases |operations| - index
  {
    if index == |operations| then (operations, None)
    else
      var op := operations[index];
      if op.status != WAITING then ScanFrom(operations, index + 1)
      else if HasFailedDependency(operations, op) then
        ScanFrom(operations[index := op.(status := CANCELLED)], index + 1)
      else if AllDependenciesCompleted(operations, op) then
        (operations[index := op.(status := QUEUED)], Some(index))
      else ScanFrom(operations, index + 1)
  }

  predicate Releasable(op: Operation) { IsTerminal(op.status) && op.hasFunction }

  /** The first payload to release from index on. */
  function FindReleasable(operations: seq<Operation>, index: nat): (i: nat)
    requires index <= |operations|
    ensures index <= i <= |operations|
    ensures i < |operations| ==> Releasable(operations[i])
    ensures forall k :: index <= k < i ==> !Releasable(operations[k])
    decreases |operations| - index
  {
    if index == |operations| || Releasable(operations[index]) then index else FindReleasable(operations, index + 1)
  }

  /** The first domain whose token is still held, from index on. */
  function FindToken(domains: seq<Domain>, index: nat): (i: nat)
    requires index <= |domains|
    ensures index <= i <= |domains|
    ensures i < |domains| ==> domains[i].hasLifetime
    ensures forall k :: index <= k < i ==> !domains[k].hasLifetime
    decreases |domains| - index
  {
    if index == |domains| || domains[index].hasLifetime then index else FindToken(domains, index + 1)
  }

  function CancelPending(operations: seq<Operation>): seq<Operation> {
    seq(|operations|, i requires 0 <= i < |operations| =>
      if operations[i].status in {WAITING, QUEUED} then operations[i].(status := CANCELLED) else operations[i])
  }

  predicate SomeHoldsAccess(operations: seq<Operation>) {
    exists i | 0 <= i < |operations| :: operations[i].HoldsAccess()
  }

  predicate ReadyToSeal(s: State) {
    s.sealed && !s.sealCompleted && s.running == 0 && s.retiring == 0 && !SomeHoldsAccess(s.operations)
  }

  // ------------------------------------------------------------------- steps

  predicate At(s: State, t: nat, thread: Thread) { t in s.threads && s.threads[t] == thread }

  function Move(s: State, t: nat, thread: Thread): State { s.(threads := s.threads[t := thread]) }

  function LeaveThread(s: State, t: nat): State { s.(threads := s.threads - {t}) }

  function AfterSeal(s: State, t: nat, stops: bool): State {
    if stops then Move(s, t, StoppingTokens) else LeaveThread(s, t)
  }

  /** Where a call goes once Release finds nothing more. */
  function AfterRelease(s: State, t: nat, tail: Tail): State {
    match tail
    case LEAVE(_) => LeaveThread(s, t)
    case SEAL => Move(s, t, CompletingSeal(false))
    case STOP => Move(s, t, AwaitingDrain)
  }

  predicate Fresh(s: State, t: nat) { t !in s.threads }

  function SetStatus(s: State, index: nat, status: Status): State
    requires index < |s.operations|
  {
    s.(operations := s.operations[index := s.operations[index].(status := status)])
  }

  /** The state after a step; a step that is not possible changes nothing. */
  function Step(s: State, action: Action): State {
    match action
    case RegisterDomain(key, hasLifetime) =>
      (match Registered(s, key, hasLifetime) case None => s case Some(domains) => s.(domains := domains))
    case Schedule(t, footprints, keys) => ScheduleStep(s, t, footprints, keys)
    case Cancel(t, key) => CancelStep(s, t, key)
    case Seal(t) =>
      if !Fresh(s, t) || s.closed then s
      else Move(s.(closed := true, sealed := true), t, Progressing(SEAL))
    case Stop(t) =>
      if !Fresh(s, t) then s
      else Move(s.(closed := true, operations := CancelPending(s.operations)), t, Releasing(STOP))
    case Scan(t) => ScanStep(s, t)
    case Submitted(t) =>
      if t !in s.threads || !s.threads[t].Submitting? then s
      else Move(s, t, Progressing(s.threads[t].tail))
    case SubmitFailed(t) => SubmitFailedStep(s, t)
    case Release(t) => ReleaseStep(s, t)
    case Retired(t) =>
      if t !in s.threads || !s.threads[t].Retiring? || s.threads[t].index >= |s.operations| || s.retiring == 0 then s
      else
        var i := s.threads[t].index;
        Move(s.(operations := s.operations[i := s.operations[i].(retiring := false)], retiring := s.retiring - 1),
             t, Releasing(s.threads[t].tail))
    case BeginRun(i) =>
      if i >= |s.operations| || s.operations[i].status != QUEUED then s
      else s.(operations := s.operations[i := s.operations[i].(status := RUNNING, hasFunction := false)],
              running := s.running + 1)
    case Access(i) =>
      if i >= |s.operations| || s.operations[i].status != RUNNING then s
      else s.(history := s.history + [Event(i, |s.history|)])
    case EndRun(i, t, failed) => EndRunStep(s, i, t, failed)
    case Drained(t) =>
      if !At(s, t, AwaitingDrain) || s.running != 0 || s.retiring != 0 then s
      else Move(s, t, CompletingSeal(true))
    case CompleteSeal(t) => CompleteSealStep(s, t)
    case DropTokens(t) =>
      if t !in s.threads || !s.threads[t].DroppingTokens? then s
      else Move(s.(released := []), t, CallingBack(s.threads[t].stops))
    case CallBack(t) =>
      if t !in s.threads || !s.threads[t].CallingBack? then s
      else AfterSeal(s.(drainCalls := s.drainCalls + 1), t, s.threads[t].stops)
    case DropStopToken(t) => DropStopTokenStep(s, t)
  }

  function ScheduleStep(s: State, t: nat, footprints: seq<AccessFootprint>, keys: seq<OperationKey>): State {
    if !Fresh(s, t) then s
    else match Admit(s, footprints, keys)
      case None => s
      case Some(op) => Move(s.(operations := s.operations + [op]), t, Progressing(LEAVE(|s.operations|)))
  }

  function CancelStep(s: State, t: nat, key: OperationKey): State {
    if !Fresh(s, t) then s
    else match Resolve(s, key)
      case None => s
      case Some(i) =>
        if s.operations[i].status !in {WAITING, QUEUED} then s
        else Move(SetStatus(s, i, CANCELLED), t, Progressing(SEAL))
  }

  function ScanStep(s: State, t: nat): State {
    if t !in s.threads || !s.threads[t].Progressing? then s
    else
      var (operations, ready) := ScanFrom(s.operations, 0);
      var tail := s.threads[t].tail;
      Move(s.(operations := operations), t,
           match ready case None => Releasing(tail) case Some(index) => Submitting(index, tail))
  }

  function SubmitFailedStep(s: State, t: nat): State {
    if t !in s.threads || !s.threads[t].Submitting? then s
    else
      var thread := s.threads[t];
      if thread.index < |s.operations| && s.operations[thread.index].status == QUEUED
      then Move(SetStatus(s, thread.index, FAILED).(hasFailure := true), t, Progressing(thread.tail))
      else Move(s, t, Progressing(thread.tail))
  }

  function ReleaseStep(s: State, t: nat): State {
    if t !in s.threads || !s.threads[t].Releasing? then s
    else
      var tail := s.threads[t].tail;
      var i := FindReleasable(s.operations, 0);
      if i == |s.operations| then AfterRelease(s, t, tail)
      else Move(s.(operations := s.operations[i := s.operations[i].(hasFunction := false, retiring := true)],
                   retiring := s.retiring + 1),
                t, Retiring(i, tail))
  }

  function EndRunStep(s: State, i: nat, t: nat, failed: bool): State {
    if !Fresh(s, t) || i >= |s.operations| || s.operations[i].status != RUNNING || s.running == 0 then s
    else Move(SetStatus(s, i, if failed then FAILED else COMPLETED)
                .(hasFailure := s.hasFailure || failed, running := s.running - 1),
              t, Progressing(SEAL))
  }

  function CompleteSealStep(s: State, t: nat): State {
    if t !in s.threads || !s.threads[t].CompletingSeal? then s
    else if !ReadyToSeal(s) then AfterSeal(s, t, s.threads[t].stops)
    else Move(s.(sealCompleted := true, released := s.domains, domains := []), t, DroppingTokens(s.threads[t].stops))
  }

  /** Stop lets go of the owners' tokens one by one and returns when none is left. */
  function DropStopTokenStep(s: State, t: nat): State {
    if !At(s, t, StoppingTokens) then s
    else
      var i := FindToken(s.domains, 0);
      if i == |s.domains| then LeaveThread(s, t)
      else s.(domains := s.domains[i := s.domains[i].(hasLifetime := false)])
  }

  /** The blocks that are functions of their own. */
  lemma StepIsBlock(s: State, action: Action)
    ensures action.Schedule? ==> Step(s, action) == ScheduleStep(s, action.thread, action.footprints, action.keys)
    ensures action.Cancel? ==> Step(s, action) == CancelStep(s, action.thread, action.key)
    ensures action.Scan? ==> Step(s, action) == ScanStep(s, action.thread)
    ensures action.SubmitFailed? ==> Step(s, action) == SubmitFailedStep(s, action.thread)
    ensures action.Release? ==> Step(s, action) == ReleaseStep(s, action.thread)
    ensures action.EndRun? ==> Step(s, action) == EndRunStep(s, action.index, action.thread, action.failed)
    ensures action.CompleteSeal? ==> Step(s, action) == CompleteSealStep(s, action.thread)
    ensures action.DropStopToken? ==> Step(s, action) == DropStopTokenStep(s, action.thread)
  {
    hide ScheduleStep, CancelStep, ScanStep, SubmitFailedStep, ReleaseStep, EndRunStep, CompleteSealStep, DropStopTokenStep,
      Registered, CancelPending, AfterSeal, Move;
  }

  /** The state after a whole run. */
  function RunActions(s: State, actions: seq<Action>): State
    decreases |actions|
  {
    if actions == [] then s else RunActions(Step(s, actions[0]), actions[1..])
  }

  ghost predicate Reachable(s: State) {
    exists owner, actions :: s == RunActions(Initial(owner), actions)
  }
}

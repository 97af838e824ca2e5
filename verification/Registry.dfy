/**
 The reference operation adapter: an index of live operations over an archive of attempts.
 Every critical section is a function from the guarded state to a new state and a reply, so a
 sequence of calls is exactly an interleaving of calls made by any number of threads.
 */
module Registry {
  import opened Wrappers
  import opened Identifiers
  import opened Lifecycle
  import opened ProgressRing

  datatype Operation = Operation(
    identity: AttemptIdentity,
    phase: OperationPhase,
    cancellationRequested: bool,
    terminal: Option<TerminalRecord>,
    progress: seq<nat>)
  {
    /** Still owed a terminal. */
    predicate Pending() {
      phase.Reserved? || phase.Queued? || phase == OperationPhase.Running
    }

    function Snapshot(): (snapshot: OperationSnapshot)
      ensures snapshot.authoritativeTerminal == snapshot.finalProjection
    {
      OperationSnapshot(identity, phase, cancellationRequested, terminal, terminal, progress)
    }
  }

  datatype State = State(
    lifecycle: LifecyclePhase,
    nextSequence: nat,
    progressCapacity: nat,
    active: map<string, nat>,
    attempts: map<nat, Operation>,
    retainedTasks: nat,
    joinedWorkers: nat)

  /** `Panicked` stands for an `expect` or an arithmetic check that fires. */
  datatype Reply =
    | Admitted(identity: AttemptIdentity)
    | Done
    | Refused(error: AdapterError)
    | Reported(facts: ClosedFacts)
    | Panicked

  datatype Step = Step(state: State, reply: Reply)

  function Initial(nextSequence: nat, progressCapacity: nat): State {
    State(LifecyclePhase.Running, nextSequence, progressCapacity, map[], map[], 0, 0)
  }

  // ---------- critical sections ----------

  function Lookup(st: State, identity: AttemptIdentity): Result<Operation, AdapterError> {
    if identity.sequence !in st.attempts then Err(UnknownOperation)
    else
      var operation := st.attempts[identity.sequence];
      if operation.identity != identity || operation.phase.Released? then Err(StaleLease)
      else Ok(operation)
  }

  function Store(st: State, operation: Operation): State {
    st.(attempts := st.attempts[operation.identity.sequence := operation])
  }

  /** The bookkeeping of one admission, up to the retained-task count. */
  function Admit(st: State, operationId: string): State {
    st.(
      nextSequence := st.nextSequence + 1,
      active := st.active[operationId := st.nextSequence],
      attempts := st.attempts[st.nextSequence :=
                    Operation(IdentityOf(operationId, st.nextSequence), Reserved, false, None, [])])
  }

  function Reserve(st: State, operationId: string): Step {
    if st.lifecycle != LifecyclePhase.Running then Step(st, Refused(AdmissionClosed))
    else if operationId in st.active then Step(st, Refused(DuplicateOperation))
    else if st.nextSequence >= U64_MAX then Step(st, Refused(SequenceExhausted))
    else if st.retainedTasks >= USIZE_MAX then Step(Admit(st, operationId), Panicked)
    else
      Step(Admit(st, operationId).(retainedTasks := st.retainedTasks + 1),
           Admitted(IdentityOf(operationId, st.nextSequence)))
  }

  function Advance(st: State, lease: AttemptIdentity, from: OperationPhase, to: OperationPhase): Step {
    match Lookup(st, lease)
    case Err(error) => Step(st, Refused(error))
    case Ok(operation) =>
      if operation.phase != from then Step(st, Refused(InvalidTransition))
      else Step(Store(st, operation.(phase := to)), Done)
  }

  function PublishProgress(st: State, lease: AttemptIdentity, value: nat): Step {
    match Lookup(st, lease)
    case Err(error) => Step(st, Refused(error))
    case Ok(operation) =>
      if operation.phase != OperationPhase.Running then Step(st, Refused(InvalidTransition))
      else
        Step(Store(st, operation.(progress := Push(operation.progress, st.progressCapacity, value))), Done)
  }

  function RequestCancellation(st: State, identity: AttemptIdentity): Step {
    if identity.sequence in st.attempts
       && st.attempts[identity.sequence].identity == identity
       && st.attempts[identity.sequence].Pending()
    then Step(Store(st, st.attempts[identity.sequence].(cancellationRequested := true)), Done)
    else Step(st, Done)
  }

  function WaiterTimeout(st: State, identity: AttemptIdentity): Step {
    if identity.sequence in st.attempts && st.attempts[identity.sequence].identity == identity
    then Step(st, Done)
    else Step(st, Refused(UnknownOperation))
  }

  function RecordTerminal(st: State, lease: AttemptIdentity, outcome: TerminalClass): Step {
    match Lookup(st, lease)
    case Err(error) => Step(st, Refused(error))
    case Ok(operation) =>
      if operation.phase != OperationPhase.Running then Step(st, Refused(InvalidTransition))
      else
        Step(Store(st, operation.(terminal := Some(TerminalRecord(outcome, lease.sequence)), phase := Terminal)), Done)
  }

  /** The two mutations `release` makes before it compares the removed index entry. */
  function Unlist(st: State, operation: Operation): State {
    st.(active := st.active - {operation.identity.operationId},
        attempts := st.attempts[operation.identity.sequence := operation.(phase := Released)])
  }

  function Release(st: State, lease: AttemptIdentity): Step {
    match Lookup(st, lease)
    case Err(error) => Step(st, Refused(error))
    case Ok(operation) =>
      if operation.phase != Terminal then Step(st, Refused(InvalidTransition))
      else if lease.operationId !in st.active || st.active[lease.operationId] != lease.sequence then
        Step(Unlist(st, operation), Refused(StaleLease))
      else if st.retainedTasks == 0 || st.joinedWorkers >= USIZE_MAX then
        Step(Unlist(st, operation), Panicked)
      else
        Step(Unlist(st, operation).(
               retainedTasks := st.retainedTasks - 1,
               joinedWorkers := st.joinedWorkers + 1), Done)
  }

  /** Requests cancellation of every listed attempt that is not Terminal. */
  function CancelListed(attempts: map<nat, Operation>, listed: set<nat>): map<nat, Operation> {
    map s | s in attempts ::
      if s in listed && attempts[s].phase != Terminal
      then attempts[s].(cancellationRequested := true)
      else attempts[s]
  }

  function Quiesce(st: State): Step {
    if st.lifecycle != LifecyclePhase.Running then Step(st, Done)
    else
      Step(st.(lifecycle := Quiescing, attempts := CancelListed(st.attempts, st.active.Values)), Done)
  }

  function Facts(st: State): Reply {
    if st.joinedWorkers + st.retainedTasks > USIZE_MAX then Panicked
    else Reported(ClosedFacts(st.lifecycle, |st.active|, st.retainedTasks,
                              st.joinedWorkers + st.retainedTasks, st.joinedWorkers))
  }

  /** The second half of `shutdown`; `Quiesce` is the first and other calls may fall between them. */
  function CloseIfDrained(st: State): Step {
    var closed := if st.active == map[] && st.retainedTasks == 0
                  then st.(lifecycle := LifecyclePhase.Closed) else st;
    Step(closed, Facts(closed))
  }

  // ---------- looking up ----------

  function CurrentSnapshot(st: State, operationId: string): Option<OperationSnapshot> {
    if operationId in st.active && st.active[operationId] in st.attempts
    then Some(st.attempts[st.active[operationId]].Snapshot()) else None
  }

  function LeaseSnapshot(st: State, lease: AttemptIdentity): Option<OperationSnapshot> {
    if lease.sequence in st.attempts && st.attempts[lease.sequence].identity == lease
    then Some(st.attempts[lease.sequence].Snapshot()) else None
  }

  // ---------- calls and runs ----------

  datatype Call =
    | ReserveCall(operationId: string)
    | QueueCall(lease: AttemptIdentity)
    | StartCall(lease: AttemptIdentity)
    | PublishCall(lease: AttemptIdentity, value: nat)
    | CancelCall(ticket: AttemptIdentity)
    | TimeoutCall(ticket: AttemptIdentity)
    | TerminalCall(lease: AttemptIdentity, outcome: TerminalClass)
    | PanicCall(lease: AttemptIdentity)
    | ReleaseCall(lease: AttemptIdentity)
    | QuiesceCall
    | CloseCall

  function Apply(st: State, call: Call): Step {
    match call
    case ReserveCall(operationId) => Reserve(st, operationId)
    case QueueCall(lease) => Advance(st, lease, Reserved, Queued)
    case StartCall(lease) => Advance(st, lease, Queued, OperationPhase.Running)
    case PublishCall(lease, value) => PublishProgress(st, lease, value)
    case CancelCall(ticket) => RequestCancellation(st, ticket)
    case TimeoutCall(ticket) => WaiterTimeout(st, ticket)
    case TerminalCall(lease, outcome) => RecordTerminal(st, lease, outcome)
    case PanicCall(lease) => RecordTerminal(st, lease, Failed)
    case ReleaseCall(lease) => Release(st, lease)
    case QuiesceCall => Quiesce(st)
    case CloseCall => CloseIfDrained(st)
  }

  function Exec(st: State, calls: seq<Call>): State
    decreases |calls|
  {
    if calls == [] then st else Exec(Apply(st, calls[0]).state, calls[1..])
  }

  // ---------- the invariant ----------

  function ReleasedAttempts(st: State): set<nat> {
    set s | s in st.attempts && st.attempts[s].phase.Released?
  }

  ghost predicate GoodOperation(st: State, s: nat)
    requires s in st.attempts
  {
    var operation := st.attempts[s];
    && operation.identity == IdentityOf(operation.identity.operationId, s)
    && (operation.terminal.Some? <==> operation.phase.Terminal? || operation.phase.Released?)
    && (operation.terminal.Some? ==> operation.terminal.value.sequence == s)
    && |operation.progress| <= st.progressCapacity
    && (st.lifecycle != LifecyclePhase.Running && operation.Pending() ==> operation.cancellationRequested)
  }

  /** The index lists exactly the attempts that are not Released. */
  ghost predicate IndexMatchesArchive(st: State) {
    && (forall op :: op in st.active ==>
          && st.active[op] in st.attempts
          && st.attempts[st.active[op]].identity.operationId == op
          && !st.attempts[st.active[op]].phase.Released?)
    && (forall s :: s in st.attempts && !st.attempts[s].phase.Released? ==>
          && st.attempts[s].identity.operationId in st.active
          && st.active[st.attempts[s].identity.operationId] == s)
  }

  /** Live attempts are retained, Released ones joined, and together they are all that were admitted. */
  ghost predicate Counted(st: State, first: nat) {
    && st.retainedTasks == |st.active|
    && st.joinedWorkers == |ReleasedAttempts(st)|
    && st.retainedTasks + st.joinedWorkers == st.nextSequence - first
  }

  ghost predicate Archived(st: State, first: nat) {
    && first <= st.nextSequence <= U64_MAX
    && st.progressCapacity > 0
    && (forall s :: s in st.attempts <==> first <= s < st.nextSequence)
    && (forall s :: s in st.attempts ==> GoodOperation(st, s))
    && (st.lifecycle == LifecyclePhase.Closed ==> st.active == map[])
  }

  /** What holds of every reachable state of an adapter whose sequence started at `first`. */
  ghost predicate Valid(st: State, first: nat) {
    Archived(st, first) && IndexMatchesArchive(st) && Counted(st, first)
  }

  lemma InitialIsValid(first: nat, progressCapacity: nat)
    requires first <= U64_MAX && progressCapacity > 0
    ensures Valid(Initial(first, progressCapacity), first)
  {
    assert ReleasedAttempts(Initial(first, progressCapacity)) == {};
  }

  // ---------- every step keeps the invariant ----------

  ghost predicate LiveVersion(st: State, operation: Operation) {
    var s := operation.identity.sequence;
    && s in st.attempts && operation.identity == st.attempts[s].identity
    && !st.attempts[s].phase.Released? && !operation.phase.Released?
  }

  lemma StoreIsCounted(st: State, first: nat, operation: Operation)
    requires Counted(st, first) && LiveVersion(st, operation)
    ensures Counted(Store(st, operation), first)
  {
    assert ReleasedAttempts(Store(st, operation)) == ReleasedAttempts(st);
  }

  lemma StoreIsIndexed(st: State, operation: Operation)
    requires IndexMatchesArchive(st) && LiveVersion(st, operation)
    ensures IndexMatchesArchive(Store(st, operation))
  {
  }

  /** Replacing a live attempt by a live version of itself. */
  lemma StoreKeepsValid(st: State, first: nat, operation: Operation)
    requires Valid(st, first) && LiveVersion(st, operation)
    requires GoodOperation(Store(st, operation), operation.identity.sequence)
    ensures Valid(Store(st, operation), first)
  {
    hide Counted, IndexMatchesArchive, IdentityOf;
    StoreIsCounted(st, first, operation);
    StoreIsIndexed(st, operation);
    var st' := Store(st, operation);
    forall s | s in st'.attempts ensures GoodOperation(st', s) {
      assert GoodOperation(st, s);
    }
  }

  lemma AdmissionIsCounted(st: State, st': State, first: nat, operationId: string)
    requires Counted(st, first) && operationId !in st.active && st.nextSequence !in st.attempts
    requires st' == Admit(st, operationId).(retainedTasks := st.retainedTasks + 1)
    ensures Counted(st', first)
  {
    assert st'.active.Keys == st.active.Keys + {operationId};
    assert ReleasedAttempts(st') == ReleasedAttempts(st);
  }

  lemma AdmissionIsArchived(st: State, st': State, first: nat, operationId: string)
    requires Archived(st, first) && st.nextSequence < U64_MAX && st.lifecycle == LifecyclePhase.Running
    requires st' == Admit(st, operationId).(retainedTasks := st.retainedTasks + 1)
    ensures Archived(st', first)
  {
    hide AttemptId;
    forall s | s in st'.attempts ensures GoodOperation(st', s) {
      if s != st.nextSequence { assert GoodOperation(st, s); }
    }
  }

  lemma AdmissionIsIndexed(st: State, st': State, operationId: string)
    requires IndexMatchesArchive(st) && operationId !in st.active && st.nextSequence !in st.attempts
    requires st' == Admit(st, operationId).(retainedTasks := st.retainedTasks + 1)
    ensures IndexMatchesArchive(st')
  {
    hide AttemptId;
  }

  lemma ReserveKeepsValid(st: State, first: nat, operationId: string)
    requires Valid(st, first)
    ensures Valid(Reserve(st, operationId).state, first)
    ensures !Reserve(st, operationId).reply.Panicked?
  {
    hide IndexMatchesArchive, GoodOperation, Admit, IdentityOf;
    var st' := Reserve(st, operationId).state;
    if st' != st {
      AdmissionIsCounted(st, st', first, operationId);
      AdmissionIsArchived(st, st', first, operationId);
      AdmissionIsIndexed(st, st', operationId);
    }
  }

  ghost predicate Releasable(st: State, operation: Operation) {
    var s := operation.identity.sequence;
    && s in st.attempts && st.attempts[s] == operation && operation.phase.Terminal?
    && operation.identity.operationId in st.active && st.active[operation.identity.operationId] == s
  }

  lemma UnlistedIsOneFewer(st: State, operation: Operation)
    requires Releasable(st, operation)
    ensures |Unlist(st, operation).active| == |st.active| - 1
  {
    assert st.active.Keys == Unlist(st, operation).active.Keys + {operation.identity.operationId};
  }

  lemma UnlistedIsReleased(st: State, operation: Operation)
    requires Releasable(st, operation)
    ensures ReleasedAttempts(Unlist(st, operation)) == ReleasedAttempts(st) + {operation.identity.sequence}
    ensures operation.identity.sequence !in ReleasedAttempts(st)
  {
  }

  lemma ReleaseIsCounted(st: State, st': State, first: nat, operation: Operation)
    requires Counted(st, first) && Releasable(st, operation)
    ensures st.retainedTasks > 0
    ensures st' == Unlist(st, operation).(retainedTasks := st.retainedTasks - 1, joinedWorkers := st.joinedWorkers + 1)
            ==> Counted(st', first)
  {
    hide Releasable;
    UnlistedIsOneFewer(st, operation);
    UnlistedIsReleased(st, operation);
    if st' == Unlist(st, operation).(retainedTasks := st.retainedTasks - 1, joinedWorkers := st.joinedWorkers + 1) {
      assert ReleasedAttempts(st') == ReleasedAttempts(Unlist(st, operation));
    }
  }

  lemma ReleaseIsArchived(st: State, st': State, first: nat, operation: Operation)
    requires Archived(st, first) && Releasable(st, operation)
    requires st'.active == Unlist(st, operation).active && st'.attempts == Unlist(st, operation).attempts
    requires st'.lifecycle == st.lifecycle && st'.nextSequence == st.nextSequence
    requires st'.progressCapacity == st.progressCapacity
    ensures Archived(st', first)
  {
    hide IdentityOf;
    forall s | s in st'.attempts ensures GoodOperation(st', s) {
      assert GoodOperation(st, s);
    }
  }

  lemma ReleaseIsIndexed(st: State, st': State, operation: Operation)
    requires IndexMatchesArchive(st) && Releasable(st, operation)
    requires st'.active == Unlist(st, operation).active && st'.attempts == Unlist(st, operation).attempts
    ensures IndexMatchesArchive(st')
  {
  }

  lemma ReleaseKeepsValid(st: State, first: nat, lease: AttemptIdentity)
    requires Valid(st, first)
    ensures Valid(Release(st, lease).state, first)
    ensures !Release(st, lease).reply.Panicked?
    ensures Release(st, lease).reply.Refused? ==> Release(st, lease).state == st
  {
    hide GoodOperation, IdentityOf;
    var st' := Release(st, lease).state;
    if Lookup(st, lease).Ok? && Lookup(st, lease).value.phase.Terminal? {
      var operation := Lookup(st, lease).value;
      assert Releasable(st, operation);
      hide IndexMatchesArchive;
      ReleaseIsCounted(st, st', first, operation);
      ReleaseIsArchived(st, st', first, operation);
      ReleaseIsIndexed(st, st', operation);
    }
  }

  lemma QuiesceIsArchived(st: State, first: nat)
    requires Archived(st, first) && IndexMatchesArchive(st)
    ensures Archived(Quiesce(st).state, first)
  {
    hide AttemptId;
    var st' := Quiesce(st).state;
    forall s | s in st'.attempts ensures GoodOperation(st', s) {
      assert GoodOperation(st, s);
      if st.attempts[s].Pending() {
        assert st.active[st.attempts[s].identity.operationId] in st.active.Values;
      }
    }
  }

  lemma QuiesceIsCounted(st: State, first: nat)
    requires Counted(st, first)
    ensures Counted(Quiesce(st).state, first)
  {
    assert ReleasedAttempts(Quiesce(st).state) == ReleasedAttempts(st);
  }

  lemma QuiesceIsIndexed(st: State)
    requires IndexMatchesArchive(st)
    ensures IndexMatchesArchive(Quiesce(st).state)
  {
  }

  lemma QuiesceKeepsValid(st: State, first: nat)
    requires Valid(st, first)
    ensures Valid(Quiesce(st).state, first)
  {
    QuiesceIsArchived(st, first);
    QuiesceIsCounted(st, first);
    QuiesceIsIndexed(st);
  }

  lemma CloseKeepsValid(st: State, first: nat)
    requires Valid(st, first)
    ensures Valid(CloseIfDrained(st).state, first)
    ensures !CloseIfDrained(st).reply.Panicked?
  {
    var st' := CloseIfDrained(st).state;
    assert ReleasedAttempts(st') == ReleasedAttempts(st);
    forall s | s in st'.attempts ensures GoodOperation(st', s) {
      assert GoodOperation(st, s);
    }
  }

  lemma LeaseCallKeepsValid(st: State, first: nat, call: Call)
    requires Valid(st, first)
    requires call.QueueCall? || call.StartCall? || call.PublishCall? || call.TerminalCall? || call.PanicCall?
    ensures Valid(Apply(st, call).state, first)
    ensures !Apply(st, call).reply.Panicked?
  {
    hide AttemptId, IndexMatchesArchive, Counted;
    var st' := Apply(st, call).state;
    if st' != st {
      assert GoodOperation(st, call.lease.sequence);
      StoreKeepsValid(st, first, st'.attempts[call.lease.sequence]);
    }
  }

  /** The invariant is inductive, and under it no counter check and no `expect` can fire. */
  lemma StepKeepsValid(st: State, first: nat, call: Call)
    requires Valid(st, first)
    ensures Valid(Apply(st, call).state, first)
    ensures !Apply(st, call).reply.Panicked?
  {
    hide AttemptId;
    var st' := Apply(st, call).state;
    match call {
      case ReserveCall(operationId) => ReserveKeepsValid(st, first, operationId);
      case ReleaseCall(lease) => ReleaseKeepsValid(st, first, lease);
      case QuiesceCall => QuiesceKeepsValid(st, first);
      case CloseCall => CloseKeepsValid(st, first);
      case CancelCall(ticket) =>
        if st' != st {
          assert GoodOperation(st, ticket.sequence);
          StoreKeepsValid(st, first, st'.attempts[ticket.sequence]);
        }
      case TimeoutCall(ticket) =>
      case _ => LeaseCallKeepsValid(st, first, call);
    }
  }

  lemma {:induction false} RunKeepsValid(st: State, first: nat, calls: seq<Call>)
    requires Valid(st, first)
    ensures Valid(Exec(st, calls), first)
    decreases |calls|
  {
    hide Valid, Apply;
    if calls != [] {
      StepKeepsValid(st, first, calls[0]);
      RunKeepsValid(Apply(st, calls[0]).state, first, calls[1..]);
    }
  }

  /** A refused call leaves the whole state as it was: the late stale-lease branch of `release` is dead. */
  lemma RefusalChangesNothing(st: State, first: nat, call: Call)
    requires Valid(st, first)
    ensures Apply(st, call).reply.Refused? ==> Apply(st, call).state == st
  {
    if call.ReleaseCall? {
      ReleaseKeepsValid(st, first, call.lease);
    }
  }

  /** Whatever was called before, on a fresh adapter no call panics and a refused one changes nothing. */
  lemma ReachableStatesAreSound(first: nat, capacity: nat, calls: seq<Call>, call: Call)
    requires first <= U64_MAX && capacity > 0
    ensures var st := Exec(Initial(first, capacity), calls);
            && Valid(st, first)
            && !Apply(st, call).reply.Panicked?
            && (Apply(st, call).reply.Refused? ==> Apply(st, call).state == st)
  {
    hide Valid, Apply, Initial;
    InitialIsValid(first, capacity);
    RunKeepsValid(Initial(first, capacity), first, calls);
    StepKeepsValid(Exec(Initial(first, capacity), calls), first, call);
    RefusalChangesNothing(Exec(Initial(first, capacity), calls), first, call);
  }
}

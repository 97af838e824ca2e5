/**
 The state a supervisor bridge guards with its lock, and each of its critical sections. A join
 handle is the sequence number of the attempt whose worker thread it joins.
 */
module Supervisor {
  import opened Wrappers
  import opened ByteOrder
  import opened Collections
  import opened Identifiers
  import opened Lifecycle
  import opened ProgressRing

  datatype Shared = Shared(
    lifecycle: LifecyclePhase,
    nextSequence: nat,
    records: map<string, OperationSnapshot>,
    active: map<string, nat>,
    tasks: map<string, Option<nat>>,
    expectedWorkerIds: seq<string>,
    joinedWorkerIds: seq<string>,
    progressCapacity: nat)

  function Initial(progressCapacity: nat): Shared {
    Shared(LifecyclePhase.Running, 1, map[], map[], map[], [], [], progressCapacity)
  }

  /** Why the first section of `reserve` would turn an operation away, if it would. */
  function Refusal(sh: Shared, operationId: string): Option<AdapterError> {
    if sh.lifecycle != LifecyclePhase.Running then Some(AdmissionClosed)
    else if operationId in sh.active then Some(DuplicateOperation)
    else if sh.nextSequence >= U64_MAX then Some(SequenceExhausted)
    else None
  }

  /** The first section of `reserve`. */
  function Admit(sh: Shared, operationId: string): Shared {
    var s := sh.nextSequence;
    sh.(nextSequence := s + 1,
        active := sh.active[operationId := s],
        records := sh.records[operationId :=
                     OperationSnapshot(IdentityOf(operationId, s), OperationPhase.Running, false, None, None, [])],
        expectedWorkerIds := sh.expectedWorkerIds + [WorkerId(s)])
  }

  /** The second section of `reserve`, after the worker thread has been spawned. */
  function InsertTask(sh: Shared, s: nat): Shared {
    sh.(tasks := sh.tasks[WorkerId(s) := Some(s)])
  }

  /** The worker's section: record the terminal and leave `active`. */
  function RecordRelease(sh: Shared, operationId: string, outcome: TerminalClass): Shared
    requires operationId in sh.records
  {
    var snapshot := sh.records[operationId];
    var terminal := TerminalRecord(outcome, snapshot.identity.sequence);
    sh.(records := sh.records[operationId := snapshot.(
                     phase := Released, authoritativeTerminal := Some(terminal), finalProjection := Some(terminal))],
        active := sh.active - {operationId})
  }

  function CancelRecords(records: map<string, OperationSnapshot>, listed: set<string>): map<string, OperationSnapshot> {
    map op | op in records ::
      if op in listed then records[op].(cancellationRequested := true) else records[op]
  }

  function Quiesce(sh: Shared): Shared {
    if sh.lifecycle != LifecyclePhase.Running then sh
    else sh.(lifecycle := Quiescing, records := CancelRecords(sh.records, sh.active.Keys))
  }

  datatype Task = Task(workerId: string, handle: nat)

  predicate EveryTaskOwnsItsHandle(sh: Shared) {
    forall id :: id in sh.tasks ==> sh.tasks[id].Some?
  }

  /** What the shutdown section takes out of `tasks`, in key order. */
  function TasksOf(tasks: map<string, Option<nat>>, ids: seq<string>): (r: seq<Task>)
    requires forall id :: id in ids ==> id in tasks && tasks[id].Some?
    ensures |r| == |ids|
    ensures forall i :: 0 <= i < |ids| ==> r[i] == Task(ids[i], tasks[ids[i]].value)
  {
    seq(|ids|, i requires 0 <= i < |ids| => assert ids[i] in ids; Task(ids[i], tasks[ids[i]].value))
  }

  function Taken(sh: Shared): seq<Task>
    requires EveryTaskOwnsItsHandle(sh)
  {
    TasksOf(sh.tasks, SortedKeys(sh.tasks.Keys))
  }

  /** The take itself leaves every slot empty but listed. */
  function TakeHandles(sh: Shared): Shared {
    sh.(tasks := Emptied(sh.tasks, sh.tasks.Keys))
  }

  /** The listed slots before the first empty one. */
  function OwnedPrefix(tasks: map<string, Option<nat>>, ids: seq<string>): seq<string>
    requires forall id :: id in ids ==> id in tasks
  {
    if ids == [] || tasks[ids[0]].None? then []
    else [ids[0]] + OwnedPrefix(tasks, ids[1..])
  }

  /** A take that meets an empty slot panics there; the handles it had taken are gone. */
  function FailedTake(sh: Shared): Shared {
    sh.(tasks := Emptied(sh.tasks, Elements(OwnedPrefix(sh.tasks, SortedKeys(sh.tasks.Keys)))))
  }

  function Emptied(tasks: map<string, Option<nat>>, ids: set<string>): map<string, Option<nat>> {
    map id | id in tasks :: if id in ids then None else tasks[id]
  }

  function QueueIds(queue: seq<Task>): (ids: seq<string>)
    ensures |ids| == |queue|
    ensures forall i :: 0 <= i < |queue| ==> ids[i] == queue[i].workerId
  {
    seq(|queue|, i requires 0 <= i < |queue| => queue[i].workerId)
  }

  /** The last section of a shutdown, after every taken handle was joined. */
  function CloseAfterJoin(sh: Shared, joined: seq<string>): Shared {
    sh.(tasks := sh.tasks - Elements(joined),
        joinedWorkerIds := sh.joinedWorkerIds + joined,
        lifecycle := LifecyclePhase.Closed)
  }

  function FactsOf(sh: Shared): ClosedFacts {
    ClosedFacts(sh.lifecycle, |sh.active|, |sh.tasks|, |sh.expectedWorkerIds|, |sh.joinedWorkerIds|)
  }

  function OutcomeOf(sh: Shared): ShutdownOutcome {
    ShutdownOutcome(FactsOf(sh), sh.expectedWorkerIds, sh.joinedWorkerIds)
  }

  datatype PublishReply = Published | Refused(error: AdapterError) | Panicked

  /** Dropping the oldest value of a full buffer panics when the capacity is zero. */
  function PublishProgress(sh: Shared, operationId: string, value: nat): (Shared, PublishReply) {
    if operationId !in sh.records then (sh, Refused(UnknownOperation))
    else
      var snapshot := sh.records[operationId];
      var buffer := snapshot.progressProjection;
      if snapshot.phase != OperationPhase.Running then (sh, Refused(InvalidTransition))
      else if |buffer| == sh.progressCapacity && buffer == [] then (sh, Panicked)
      else
        (sh.(records := sh.records[operationId :=
               snapshot.(progressProjection := Push(buffer, sh.progressCapacity, value))]),
         Published)
  }
}

/**
 The supervisor bridge as an interleaved step system: reserve calls, worker threads, clients and any
 number of shutdown tasks, each with its own program counter, over the shared state of `Supervisor`.
 */
module SupervisorSystem {
  import opened Wrappers
  import opened ByteOrder
  import opened Identifiers
  import opened Lifecycle
  import opened Supervisor

  /** Where the reserve call of an attempt stands: between its two sections, or back at the client. */
  datatype CallStage = AwaitSpawn | AwaitInsert | Returned

  datatype WorkerPc =
    | Unborn
    | AwaitCommand
    | Commanded(outcome: TerminalClass)
    | AwaitReceiver(outcome: TerminalClass)
    | AwaitExit(outcome: TerminalClass)
    | Exited(outcome: TerminalClass)
    | WorkerPanicked

  datatype Attempt = Attempt(operationId: string, stage: CallStage, worker: WorkerPc)
  {
    /** The worker has not yet recorded a terminal. */
    predicate Live() {
      worker.Unborn? || worker.AwaitCommand? || worker.Commanded?
    }
  }

  datatype Command = Finish(outcome: TerminalClass) | Panic

  /** A panicking command is caught and becomes a Failed terminal. */
  function CommandOutcome(command: Command): TerminalClass {
    match command
    case Finish(outcome) => outcome
    case Panic => Failed
  }

  datatype ShutdownPc =
    | Begun
    | Announcing
    | Checking
    | Asleep
    | Joining(queue: seq<Task>, done: nat)
    | Finished(outcome: ShutdownOutcome)
    | Crashed

  /**
   `attempts[s - 1]` is the attempt with sequence number `s`, and `shutdowns` has every shutdown task
   started so far, finished ones included. `calls`, `requests` and `extras` are what the environment
   still has in hand: reserve calls, shutdowns to start, and progress publications, client quiesces
   and spurious wakeups.
   */
  datatype System = System(
    shared: Shared,
    attempts: seq<Attempt>,
    shutdowns: seq<ShutdownPc>,
    calls: nat,
    requests: nat,
    extras: nat)

  function InitialSystem(progressCapacity: nat, calls: nat, requests: nat, extras: nat): System {
    System(Initial(progressCapacity), [], [], calls, requests, extras)
  }

  datatype Step =
    | ReserveStep(operationId: string)
    | SpawnStep(s: nat)
    | InsertStep(s: nat)
    | CommandStep(s: nat, command: Command)
    | RecordStep(s: nat)
    | ReceiveStep(s: nat)
    | ExitStep(s: nat)
    | PublishStep(s: nat, value: nat)
    | QuiesceStep
    | BeginShutdownStep
    | SpuriousWakeStep(i: nat)
    | ShutdownQuiesceStep(i: nat)
    | AnnounceStep(i: nat)
    | CheckStep(i: nat)
    | JoinStep(i: nat)
    | CloseStep(i: nat)

  predicate Known(c: System, s: nat) {
    1 <= s <= |c.attempts|
  }

  predicate Started(c: System, i: nat) {
    i < |c.shutdowns|
  }

  /** The worker of the next handle a joining shutdown waits for has ended, one way or the other. */
  predicate NextEnded(queue: seq<Task>, done: nat, attempts: seq<Attempt>) {
    && done < |queue| && 1 <= queue[done].handle <= |attempts|
    && (var worker := attempts[queue[done].handle - 1].worker; worker.Exited? || worker.WorkerPanicked?)
  }

  /** Channels of capacity zero: a send and its receive are one step of both parties. */
  predicate Enabled(c: System, step: Step) {
    match step
    case ReserveStep(_) => c.calls > 0
    case SpawnStep(s) => Known(c, s) && c.attempts[s - 1].stage.AwaitSpawn?
    case InsertStep(s) => Known(c, s) && c.attempts[s - 1].stage.AwaitInsert?
    case CommandStep(s, _) =>
      Known(c, s) && c.attempts[s - 1].stage.Returned? && c.attempts[s - 1].worker.AwaitCommand?
    case RecordStep(s) => Known(c, s) && c.attempts[s - 1].worker.Commanded?
    case ReceiveStep(s) =>
      Known(c, s) && c.attempts[s - 1].stage.Returned? && c.attempts[s - 1].worker.AwaitReceiver?
    case ExitStep(s) => Known(c, s) && c.attempts[s - 1].stage.Returned? && c.attempts[s - 1].worker.AwaitExit?
    case PublishStep(s, _) => c.extras > 0 && Known(c, s) && c.attempts[s - 1].stage.Returned?
    case QuiesceStep => c.extras > 0
    case BeginShutdownStep => c.requests > 0
    case SpuriousWakeStep(i) => c.extras > 0 && Started(c, i) && c.shutdowns[i].Asleep?
    case ShutdownQuiesceStep(i) => Started(c, i) && c.shutdowns[i].Begun?
    case AnnounceStep(i) => Started(c, i) && c.shutdowns[i].Announcing?
    case CheckStep(i) => Started(c, i) && c.shutdowns[i].Checking?
    case JoinStep(i) =>
      && Started(c, i) && c.shutdowns[i].Joining?
      && NextEnded(c.shutdowns[i].queue, c.shutdowns[i].done, c.attempts)
    case CloseStep(i) =>
      Started(c, i) && c.shutdowns[i].Joining? && c.shutdowns[i].done == |c.shutdowns[i].queue|
  }

  function Notified(pc: ShutdownPc): ShutdownPc {
    if pc.Asleep? then Checking else pc
  }

  /** What `notify_all` does to the threads that may be waiting. */
  function NotifyAll(pcs: seq<ShutdownPc>): (notified: seq<ShutdownPc>)
    ensures |notified| == |pcs|
    ensures forall i :: 0 <= i < |pcs| ==> notified[i] == Notified(pcs[i])
  {
    seq(|pcs|, i requires 0 <= i < |pcs| => Notified(pcs[i]))
  }

  function Move(c: System, s: nat, stage: CallStage, worker: WorkerPc): System
    requires Known(c, s)
  {
    c.(attempts := c.attempts[s - 1 := c.attempts[s - 1].(stage := stage, worker := worker)])
  }

  function Turn(c: System, i: nat, pc: ShutdownPc): System
    requires Started(c, i)
  {
    c.(shutdowns := c.shutdowns[i := pc])
  }

  function Apply(c: System, step: Step): System
    requires Enabled(c, step)
  {
    match step
    case ReserveStep(operationId) =>
      if Refusal(c.shared, operationId).Some? then c.(calls := c.calls - 1)
      else c.(shared := Admit(c.shared, operationId),
              attempts := c.attempts + [Attempt(operationId, AwaitSpawn, Unborn)],
              calls := c.calls - 1)
    case SpawnStep(s) => Move(c, s, AwaitInsert, AwaitCommand)
    case InsertStep(s) => Move(c, s, Returned, c.attempts[s - 1].worker).(shared := InsertTask(c.shared, s))
    case CommandStep(s, command) => Move(c, s, Returned, Commanded(CommandOutcome(command)))
    case RecordStep(s) => ApplyRecord(c, s)
    case ReceiveStep(s) => Move(c, s, Returned, AwaitExit(c.attempts[s - 1].worker.outcome))
    case ExitStep(s) => Move(c, s, Returned, Exited(c.attempts[s - 1].worker.outcome))
    case PublishStep(s, value) =>
      c.(shared := PublishProgress(c.shared, c.attempts[s - 1].operationId, value).0, extras := c.extras - 1)
    case QuiesceStep =>
      c.(shared := Quiesce(c.shared), shutdowns := NotifyAll(c.shutdowns), extras := c.extras - 1)
    case BeginShutdownStep => c.(shutdowns := c.shutdowns + [Begun], requests := c.requests - 1)
    case SpuriousWakeStep(i) => Turn(c, i, Checking).(extras := c.extras - 1)
    case ShutdownQuiesceStep(i) =>
      c.(shared := Quiesce(c.shared), shutdowns := NotifyAll(c.shutdowns)[i := Announcing])
    case AnnounceStep(i) => Turn(c, i, Checking)
    case CheckStep(i) => ApplyCheck(c, i)
    case JoinStep(i) =>
      var queue, done := c.shutdowns[i].queue, c.shutdowns[i].done;
      var panicked := c.attempts[queue[done].handle - 1].worker.WorkerPanicked?;
      Turn(c, i, if panicked then Crashed else Joining(queue, done + 1))
    case CloseStep(i) =>
      var closed := CloseAfterJoin(c.shared, QueueIds(c.shutdowns[i].queue));
      Turn(c, i, Finished(OutcomeOf(closed))).(shared := closed)
  }

  /** A worker with no record panics on its `expect`; otherwise it leaves `active` and notifies. */
  function ApplyRecord(c: System, s: nat): System
    requires Known(c, s) && c.attempts[s - 1].worker.Commanded?
  {
    var a := c.attempts[s - 1];
    if a.operationId !in c.shared.records then Move(c, s, a.stage, WorkerPanicked)
    else
      Move(c, s, a.stage, AwaitReceiver(a.worker.outcome)).(
        shared := RecordRelease(c.shared, a.operationId, a.worker.outcome),
        shutdowns := NotifyAll(c.shutdowns))
  }

  /** Under the lock: go to sleep while `active` is not empty, else take every handle or panic at an empty slot. */
  function ApplyCheck(c: System, i: nat): System
    requires Started(c, i)
  {
    if c.shared.active != map[] then Turn(c, i, Asleep)
    else if !EveryTaskOwnsItsHandle(c.shared) then Turn(c, i, Crashed).(shared := FailedTake(c.shared))
    else Turn(c, i, Joining(Taken(c.shared), 0)).(shared := TakeHandles(c.shared))
  }

  ghost predicate Runs(c: System, steps: seq<Step>)
    decreases |steps|
  {
    steps == [] || (Enabled(c, steps[0]) && Runs(Apply(c, steps[0]), steps[1..]))
  }

  ghost function Exec(c: System, steps: seq<Step>): System
    requires Runs(c, steps)
    decreases |steps|
  {
    if steps == [] then c else Exec(Apply(c, steps[0]), steps[1..])
  }

  // ---------- the invariant ----------

  ghost predicate Numbered(sh: Shared, n: nat) {
    sh.nextSequence == n + 1 <= U64_MAX && sh.expectedWorkerIds == WorkerIds(n)
  }

  /** A command can only reach a worker through a returned handle. */
  ghost predicate WellStaged(a: Attempt) {
    && (a.stage.AwaitSpawn? <==> a.worker.Unborn?)
    && (a.stage.AwaitInsert? ==> a.worker.AwaitCommand?)
    && !a.worker.WorkerPanicked?
  }

  /** `active` lists exactly the attempts whose worker has not recorded a terminal. */
  ghost predicate Listed(active: map<string, nat>, attempts: seq<Attempt>) {
    && (forall op :: op in active ==>
          && 1 <= active[op] <= |attempts|
          && attempts[active[op] - 1].operationId == op && attempts[active[op] - 1].Live())
    && (forall i :: 0 <= i < |attempts| && attempts[i].Live() ==>
          attempts[i].operationId in active && active[attempts[i].operationId] == i + 1)
  }

  /** The record of an operation id belongs to its latest attempt and agrees with that worker. */
  ghost predicate RecordAgrees(sh: Shared, attempts: seq<Attempt>, op: string)
    requires op in sh.records
  {
    var r := sh.records[op];
    var s := r.identity.sequence;
    && r.identity == IdentityOf(op, s)
    && 1 <= s <= |attempts| && attempts[s - 1].operationId == op
    && !attempts[s - 1].worker.WorkerPanicked?
    && r.authoritativeTerminal == r.finalProjection
    && (if attempts[s - 1].Live() then
          && r.phase == OperationPhase.Running && r.authoritativeTerminal == None
          && (sh.lifecycle != LifecyclePhase.Running ==> r.cancellationRequested)
        else
          && r.phase.Released?
          && r.authoritativeTerminal == Some(TerminalRecord(attempts[s - 1].worker.outcome, s)))
  }

  ghost predicate Recorded(sh: Shared, attempts: seq<Attempt>) {
    && (forall op :: op in sh.records ==> RecordAgrees(sh, attempts, op))
    && (forall op :: op in sh.active ==> op in sh.records && sh.records[op].identity.sequence == sh.active[op])
  }

  /** Before any take: a slot, holding the handle, for exactly the attempts that came back. */
  ghost predicate HoldsHandles(tasks: map<string, Option<nat>>, attempts: seq<Attempt>) {
    && (forall i :: 0 <= i < |attempts| ==> (WorkerId(i + 1) in tasks <==> attempts[i].stage.Returned?))
    && (forall id :: id in tasks ==>
          tasks[id].Some? && 1 <= tasks[id].value <= |attempts| && id == WorkerId(tasks[id].value))
  }

  ghost predicate AllRecorded(attempts: seq<Attempt>) {
    forall i :: 0 <= i < |attempts| ==> attempts[i].stage.Returned? && !attempts[i].Live()
  }

  ghost predicate AllExited(attempts: seq<Attempt>) {
    forall i :: 0 <= i < |attempts| ==> attempts[i].stage.Returned? && attempts[i].worker.Exited?
  }

  /** `ids` are the worker ids of 1 to n in byte order. */
  ghost predicate AreAllWorkers(ids: seq<string>, n: nat) {
    Ascending(ids) && forall id :: id in ids <==> id in WorkerIds(n)
  }

  ghost predicate QueueMatches(queue: seq<Task>, n: nat) {
    forall k :: 0 <= k < |queue| ==> 1 <= queue[k].handle <= n && queue[k].workerId == WorkerId(queue[k].handle)
  }

  ghost predicate JoinedSoFar(queue: seq<Task>, done: nat, attempts: seq<Attempt>)
    requires QueueMatches(queue, |attempts|)
  {
    done <= |queue| && forall k :: 0 <= k < done ==> attempts[queue[k].handle - 1].worker.Exited?
  }

  ghost predicate SomeoneJoins(pcs: seq<ShutdownPc>) {
    exists i :: 0 <= i < |pcs| && pcs[i].Joining?
  }

  ghost predicate OneJoins(pcs: seq<ShutdownPc>) {
    forall i, j :: 0 <= i < j < |pcs| ==> !pcs[i].Joining? || !pcs[j].Joining?
  }

  /** A shutdown that is joining has the handles of all workers. */
  ghost predicate HoldsAll(pc: ShutdownPc, attempts: seq<Attempt>) {
    pc.Joining? ==>
      && AreAllWorkers(QueueIds(pc.queue), |attempts|) && QueueMatches(pc.queue, |attempts|)
      && JoinedSoFar(pc.queue, pc.done, attempts)
  }

  ghost predicate HoldsNone(pc: ShutdownPc) {
    pc.Joining? ==> pc.queue == [] && pc.done == 0
  }

  /** Every worker still has its slot, and no slot its handle. */
  ghost predicate SlotsEmptied(tasks: map<string, Option<nat>>, n: nat) {
    && (forall id :: id in tasks <==> id in WorkerIds(n))
    && (forall id :: id in tasks ==> tasks[id].None?)
  }

  /** Where the handles are: in `tasks`, in the hands of one shutdown, or all joined. */
  ghost predicate Retained(c: System) {
    var sh, n := c.shared, |c.attempts|;
    if sh.lifecycle == LifecyclePhase.Closed then
      && sh.tasks == map[] && AllExited(c.attempts) && AreAllWorkers(sh.joinedWorkerIds, n)
      && (forall i :: 0 <= i < |c.shutdowns| ==> HoldsNone(c.shutdowns[i]))
    else if SomeoneJoins(c.shutdowns) then
      && sh.joinedWorkerIds == [] && AllRecorded(c.attempts) && SlotsEmptied(sh.tasks, n)
      && (n > 0 ==> OneJoins(c.shutdowns))
      && (forall i :: 0 <= i < |c.shutdowns| ==> HoldsAll(c.shutdowns[i], c.attempts))
    else
      sh.joinedWorkerIds == [] && HoldsHandles(sh.tasks, c.attempts)
  }

  /** What each shutdown task may rely on; a finished one reported what is still so. */
  ghost predicate TaskAgrees(sh: Shared, pc: ShutdownPc) {
    && (pc.Asleep? ==> sh.active != map[])
    && (!pc.Begun? ==> sh.lifecycle != LifecyclePhase.Running)
    && (pc.Finished? ==> sh.lifecycle == LifecyclePhase.Closed && pc.outcome == OutcomeOf(sh))
  }

  ghost predicate SomeoneFinished(pcs: seq<ShutdownPc>) {
    exists i :: 0 <= i < |pcs| && pcs[i].Finished?
  }

  ghost predicate SomeoneCrashed(pcs: seq<ShutdownPc>) {
    exists i :: 0 <= i < |pcs| && pcs[i].Crashed?
  }

  /** A crashed shutdown leaves another one joining, until that one closes. */
  ghost predicate ShutdownsAgree(sh: Shared, pcs: seq<ShutdownPc>) {
    && (forall i :: 0 <= i < |pcs| ==> TaskAgrees(sh, pcs[i]))
    && (sh.lifecycle == LifecyclePhase.Closed ==> SomeoneFinished(pcs))
    && (SomeoneCrashed(pcs) ==> sh.lifecycle == LifecyclePhase.Closed || SomeoneJoins(pcs))
  }

  ghost predicate Inv(c: System) {
    && Numbered(c.shared, |c.attempts|)
    && (forall i :: 0 <= i < |c.attempts| ==> WellStaged(c.attempts[i]))
    && Listed(c.shared.active, c.attempts)
    && Recorded(c.shared, c.attempts)
    && Retained(c)
    && ShutdownsAgree(c.shared, c.shutdowns)
  }
}

/** Vocabulary shared by the operation registry and the supervisor, and the shutdown accounting check. */
module Lifecycle {
  import opened Wrappers
  import opened Collections
  import opened Identifiers

  datatype LifecyclePhase = Running | Quiescing | Closed

  datatype OperationPhase = Reserved | Queued | Running | Terminal | Released

  datatype TerminalClass = Completed | Cancelled | Failed

  datatype AttemptIdentity = AttemptIdentity(operationId: string, attemptId: string, sequence: nat)

  function IdentityOf(operationId: string, sequence: nat): AttemptIdentity {
    AttemptIdentity(operationId, AttemptId(operationId, sequence), sequence)
  }

  datatype TerminalRecord = TerminalRecord(outcome: TerminalClass, sequence: nat)

  datatype OperationSnapshot = OperationSnapshot(
    identity: AttemptIdentity,
    phase: OperationPhase,
    cancellationRequested: bool,
    authoritativeTerminal: Option<TerminalRecord>,
    finalProjection: Option<TerminalRecord>,
    progressProjection: seq<nat>)

  datatype AdapterError =
    | AdmissionClosed
    | DuplicateOperation
    | UnknownOperation
    | StaleLease
    | InvalidTransition
    | SequenceExhausted

  datatype ClosedFacts = ClosedFacts(
    lifecycle: LifecyclePhase,
    activeOperations: nat,
    retainedTasks: nat,
    expectedWorkers: nat,
    joinedWorkers: nat)

  datatype ShutdownOutcomeError =
    | DuplicateExpectedWorkerId
    | DuplicateJoinedWorkerId
    | CountMismatch
    | WorkerSetMismatch

  datatype ShutdownOutcome = ShutdownOutcome(
    facts: ClosedFacts,
    expectedWorkerIds: seq<string>,
    joinedWorkerIds: seq<string>)
  {
    function Validate(): Verdict<ShutdownOutcomeError> {
      var expected := Elements(expectedWorkerIds);
      var joined := Elements(joinedWorkerIds);
      if |expected| != |expectedWorkerIds| then Fail(DuplicateExpectedWorkerId)
      else if |joined| != |joinedWorkerIds| then Fail(DuplicateJoinedWorkerId)
      else if |expected| != facts.expectedWorkers || |joined| != facts.joinedWorkers then Fail(CountMismatch)
      else if expected != joined then Fail(WorkerSetMismatch)
      else Pass
    }

    /** Every expected worker was joined once, no other worker was, and the scalar facts count them. */
    ghost predicate AccountsForEveryWorker() {
      && NoDuplicates(expectedWorkerIds)
      && Permuted(expectedWorkerIds, joinedWorkerIds)
      && facts.expectedWorkers == facts.joinedWorkers == |expectedWorkerIds|
    }

    lemma ValidateAcceptsExactAccounting()
      ensures Validate().Pass? <==> AccountsForEveryWorker()
    {
      ElementsCount(expectedWorkerIds);
      ElementsCount(joinedWorkerIds);
      if NoDuplicates(expectedWorkerIds) && NoDuplicates(joinedWorkerIds) {
        SameMembersPermuted(expectedWorkerIds, joinedWorkerIds);
      }
      if Permuted(expectedWorkerIds, joinedWorkerIds) {
        PermutedKeepsBasics(expectedWorkerIds, joinedWorkerIds);
      }
    }
  }
}

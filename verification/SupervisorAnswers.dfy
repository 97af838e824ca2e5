/** What the bridge answers its clients: admissions, publications, cancellation flags and the terminals of commands. */
module SupervisorAnswers {
  import opened Wrappers
  import opened Identifiers
  import opened Lifecycle
  import opened ProgressRing
  import opened Supervisor
  import opened SupervisorSystem
  import opened SupervisorSafety
  import opened SupervisorProgress

  // ---------- terminals follow commands ----------

  /** The worker has a command and means to end with `outcome`, or has. */
  predicate Means(a: Attempt, outcome: TerminalClass) {
    || a.worker == Commanded(outcome) || a.worker == AwaitReceiver(outcome)
    || a.worker == AwaitExit(outcome) || a.worker == Exited(outcome)
  }

  /** The step is one of attempt `k`: of its reserve call, its worker or its client. */
  predicate MovesAttempt(step: Step, k: nat) {
    || step == SpawnStep(k) || step == InsertStep(k) || (step.CommandStep? && step.s == k)
    || step == RecordStep(k) || step == ReceiveStep(k) || step == ExitStep(k)
  }

  lemma OtherStepsKeepAttempt(c: System, step: Step, s: nat)
    requires Enabled(c, step) && Known(c, s) && !MovesAttempt(step, s)
    ensures Known(Apply(c, step), s) && Apply(c, step).attempts[s - 1] == c.attempts[s - 1]
  {
    hide ApplyCheck, Quiesce, PublishProgress, Admit, InsertTask, RecordRelease, CommandOutcome, NotifyAll;
    hide CloseAfterJoin, OutcomeOf, QueueIds;
    if step.CheckStep? {
      CheckKeepsAttempts(c, step.i);
    }
  }

  lemma OwnStepsKeepMeaning(c: System, step: Step, s: nat, outcome: TerminalClass)
    requires Enabled(c, step) && Known(c, s) && MovesAttempt(step, s) && WellStaged(c.attempts[s - 1])
    requires Means(c.attempts[s - 1], outcome)
    requires step.RecordStep? ==> c.attempts[s - 1].operationId in c.shared.records
    ensures Known(Apply(c, step), s) && Means(Apply(c, step).attempts[s - 1], outcome)
  {
    hide InsertTask, RecordRelease, CommandOutcome, NotifyAll;
  }

  lemma StepKeepsMeaning(c: System, step: Step, s: nat, outcome: TerminalClass)
    requires Inv(c) && Enabled(c, step) && Known(c, s) && Means(c.attempts[s - 1], outcome)
    ensures Known(Apply(c, step), s) && Means(Apply(c, step).attempts[s - 1], outcome)
  {
    hide Inv, Apply, Means, WellStaged;
    if MovesAttempt(step, s) {
      StageHolds(c, s);
      if step.RecordStep? {
        RecordFindsItsRecord(c, s);
      }
      OwnStepsKeepMeaning(c, step, s, outcome);
    } else {
      OtherStepsKeepAttempt(c, step, s);
    }
  }

  lemma CheckKeepsAttempts(c: System, i: nat)
    requires Started(c, i)
    ensures ApplyCheck(c, i).attempts == c.attempts
  {
    hide Taken, FailedTake, EveryTaskOwnsItsHandle;
  }

  lemma RecordFindsItsRecord(c: System, s: nat)
    requires Inv(c) && Enabled(c, RecordStep(s))
    ensures c.attempts[s - 1].operationId in c.shared.records
  {
    hide Retained, ShutdownsAgree, Numbered, RecordAgrees;
    assert c.attempts[s - 1].Live();
  }

  /** A panicking command is caught and becomes a Failed terminal; any other names its terminal. */
  lemma CommandsMean(c: System, s: nat, command: Command)
    requires Enabled(c, CommandStep(s, command))
    ensures command == Panic ==> Means(Apply(c, CommandStep(s, command)).attempts[s - 1], Failed)
    ensures forall outcome :: command == Finish(outcome) ==>
              Means(Apply(c, CommandStep(s, command)).attempts[s - 1], outcome)
  {
  }

  lemma {:induction false} RunKeepsMeaning(c: System, steps: seq<Step>, s: nat, outcome: TerminalClass)
    requires Inv(c) && Runs(c, steps) && Known(c, s) && Means(c.attempts[s - 1], outcome)
    ensures Known(Exec(c, steps), s) && Means(Exec(c, steps).attempts[s - 1], outcome)
    decreases |steps|
  {
    hide Inv, Enabled, Apply, Means;
    if steps != [] {
      StepKeepsInv(c, steps[0]);
      StepKeepsMeaning(c, steps[0], s, outcome);
      RunKeepsMeaning(Apply(c, steps[0]), steps[1..], s, outcome);
    }
  }

  /** A worker that was sent `command` during the run means its outcome at the end. */
  lemma {:induction false} CommandDecides(c: System, steps: seq<Step>, s: nat, command: Command, outcome: TerminalClass)
    requires Inv(c) && Runs(c, steps) && CommandStep(s, command) in steps
    requires command == Finish(outcome) || (command == Panic && outcome == Failed)
    ensures Known(Exec(c, steps), s) && Means(Exec(c, steps).attempts[s - 1], outcome)
    decreases |steps|
  {
    hide Inv, Enabled, Apply, Means;
    StepKeepsInv(c, steps[0]);
    if steps[0] == CommandStep(s, command) {
      CommandIsKnown(c, s, command);
      CommandsMean(c, s, command);
      RunKeepsMeaning(Apply(c, steps[0]), steps[1..], s, outcome);
    } else {
      assert steps == [steps[0]] + steps[1..];
      CommandDecides(Apply(c, steps[0]), steps[1..], s, command, outcome);
    }
  }

  lemma CommandIsKnown(c: System, s: nat, command: Command)
    requires Enabled(c, CommandStep(s, command))
    ensures Known(c, s) && Known(Apply(c, CommandStep(s, command)), s)
  {
  }

  /** Without a command no worker gets one. */
  predicate Uncommanded(c: System, s: nat) {
    Known(c, s) ==> c.attempts[s - 1].worker.Unborn? || c.attempts[s - 1].worker.AwaitCommand?
  }

  lemma StepCommandsNobodyElse(c: System, step: Step, s: nat)
    requires Enabled(c, step) && Uncommanded(c, s) && s > 0
    requires forall command :: step != CommandStep(s, command)
    ensures Uncommanded(Apply(c, step), s)
  {
    hide ApplyCheck, Quiesce, PublishProgress, Admit, InsertTask, RecordRelease, CommandOutcome, NotifyAll;
    if step.CheckStep? {
      CheckKeepsAttempts(c, step.i);
    }
  }

  lemma {:induction false} RunCommands(c: System, steps: seq<Step>, s: nat)
    requires Runs(c, steps) && s > 0 && Uncommanded(c, s) && !Uncommanded(Exec(c, steps), s)
    ensures exists command :: CommandStep(s, command) in steps
    decreases |steps|
  {
    hide Enabled, Apply, Uncommanded;
    if steps != [] {
      assert steps == [steps[0]] + steps[1..];
      if command :| steps[0] == CommandStep(s, command) {
        assert CommandStep(s, command) in steps;
      } else {
        StepCommandsNobodyElse(c, steps[0], s);
        RunCommands(Apply(c, steps[0]), steps[1..], s);
      }
    }
  }

  lemma RecordedTerminal(c: System, op: string, s: nat)
    requires Inv(c) && Owns(c, op, s) && c.shared.records[op].phase.Released?
    ensures Known(c, s) && !Uncommanded(c, s)
    ensures c.shared.records[op].authoritativeTerminal == c.shared.records[op].finalProjection
    ensures forall outcome :: Means(c.attempts[s - 1], outcome) ==>
              && c.shared.records[op].authoritativeTerminal == Some(TerminalRecord(outcome, s))
              && c.shared.records[op].finalProjection == Some(TerminalRecord(outcome, s))
  {
    RecordHere(c, op);
    hide Inv;
  }

  lemma RecordHere(c: System, op: string)
    requires Inv(c) && op in c.shared.records
    ensures RecordAgrees(c.shared, c.attempts, op)
  {
    hide Retained, ShutdownsAgree, Numbered, Listed, RecordAgrees, WellStaged;
  }

  /**
   The terminal an attempt ends with is the one its client's command asked for: Failed after a panic, and
   otherwise the class the command named; and there was a command.
   */
  lemma TerminalsFollowCommands(
      capacity: nat, calls: nat, requests: nat, extras: nat, steps: seq<Step>, op: string, s: nat)
    requires Runs(InitialSystem(capacity, calls, requests, extras), steps)
    requires Owns(Exec(InitialSystem(capacity, calls, requests, extras), steps), op, s)
    requires Exec(InitialSystem(capacity, calls, requests, extras), steps).shared.records[op].phase.Released?
    ensures var r := Exec(InitialSystem(capacity, calls, requests, extras), steps).shared.records[op];
            && r.authoritativeTerminal == r.finalProjection
            && (CommandStep(s, Panic) in steps ==> r.authoritativeTerminal == Some(TerminalRecord(Failed, s)))
            && (forall outcome :: CommandStep(s, Finish(outcome)) in steps ==>
                  r.authoritativeTerminal == Some(TerminalRecord(outcome, s)))
            && exists command :: CommandStep(s, command) in steps
  {
    var start := InitialSystem(capacity, calls, requests, extras);
    StartsUncommanded(capacity, calls, requests, extras, s);
    InitialInv(capacity, calls, requests, extras);
    hide Inv, InitialSystem, Means, Uncommanded;
    RunKeepsInv(start, steps);
    var c := Exec(start, steps);
    RecordedTerminal(c, op, s);
    RunCommands(start, steps, s);
    if CommandStep(s, Panic) in steps {
      CommandDecides(start, steps, s, Panic, Failed);
    }
    forall outcome | CommandStep(s, Finish(outcome)) in steps
      ensures Means(c.attempts[s - 1], outcome)
    {
      CommandDecides(start, steps, s, Finish(outcome), outcome);
    }
  }

  lemma StartsUncommanded(capacity: nat, calls: nat, requests: nat, extras: nat, s: nat)
    ensures Uncommanded(InitialSystem(capacity, calls, requests, extras), s)
  {
  }

  // ---------- admissions ----------

  ghost predicate HasLiveAttempt(c: System, operationId: string) {
    exists k :: 0 <= k < |c.attempts| && c.attempts[k].Live() && c.attempts[k].operationId == operationId
  }

  lemma ActiveIffLive(c: System, operationId: string)
    requires Inv(c)
    ensures operationId in c.shared.active <==> HasLiveAttempt(c, operationId)
    ensures c.shared.nextSequence == |c.attempts| + 1
  {
    hide Recorded, Retained, ShutdownsAgree, WellStaged, WorkerIds;
    if operationId in c.shared.active {
      var k := c.shared.active[operationId] - 1;
      assert c.attempts[k].Live() && c.attempts[k].operationId == operationId;
    }
  }

  /**
   A reservation is refused exactly while the bridge is not running, a worker of that operation id has not
   recorded its terminal, or the numbers are used up; each refusal names the first of these that holds.
   */
  lemma ReserveAnswers(c: System, operationId: string)
    requires Inv(c)
    ensures var running, live := c.shared.lifecycle == LifecyclePhase.Running, HasLiveAttempt(c, operationId);
      var left := |c.attempts| + 1 < 0xFFFF_FFFF_FFFF_FFFF;
      && (Refusal(c.shared, operationId) == None <==> running && !live && left)
      && (Refusal(c.shared, operationId) == Some(AdmissionClosed) <==> !running)
      && (Refusal(c.shared, operationId) == Some(DuplicateOperation) <==> running && live)
      && (Refusal(c.shared, operationId) == Some(SequenceExhausted) <==> running && !live && !left)
  {
    ActiveIffLive(c, operationId);
    hide Inv, HasLiveAttempt;
  }

  /** An admission appends one attempt with a fresh Running record and announces its worker; a refusal does nothing. */
  lemma AdmissionInFull(c: System, operationId: string)
    requires Inv(c) && c.calls > 0
    ensures var c', s := Apply(c, ReserveStep(operationId)), |c.attempts| + 1;
      if Refusal(c.shared, operationId).Some? then c' == c.(calls := c.calls - 1)
      else
        && c'.attempts == c.attempts + [Attempt(operationId, AwaitSpawn, Unborn)]
        && c'.shared == c.shared.(
             nextSequence := s + 1,
             active := c.shared.active[operationId := s],
             records := c.shared.records[operationId := OperationSnapshot(
               AttemptIdentity(operationId, operationId + "#" + Decimal(s), s),
               OperationPhase.Running, false, None, None, [])],
             expectedWorkerIds := c.shared.expectedWorkerIds + ["worker-" + Decimal(s)])
        && c'.shutdowns == c.shutdowns
  {
    ActiveIffLive(c, operationId);
    hide Inv, HasLiveAttempt, Decimal, Refusal;
  }

  // ---------- publications ----------

  /** A publication succeeds exactly while the record's worker has not recorded its terminal. */
  lemma PublishAnswers(c: System, op: string, value: nat)
    requires Inv(c) && BuffersFit(c.shared) && c.shared.progressCapacity > 0
    ensures op in c.shared.records ==> Known(c, c.shared.records[op].identity.sequence)
    ensures var reply := PublishProgress(c.shared, op, value).1;
      && (reply == PublishReply.Refused(UnknownOperation) <==> op !in c.shared.records)
      && (reply == Published <==>
            op in c.shared.records && c.attempts[c.shared.records[op].identity.sequence - 1].Live())
      && (reply == PublishReply.Refused(InvalidTransition) <==>
            op in c.shared.records && !c.attempts[c.shared.records[op].identity.sequence - 1].Live())
  {
    if op in c.shared.records {
      RecordHere(c, op);
    }
    hide Inv;
  }

  // ---------- cancellation flags ----------

  ghost predicate FlagsAgree(sh: Shared) {
    sh.lifecycle == LifecyclePhase.Running ==> forall op :: op in sh.records ==> !sh.records[op].cancellationRequested
  }

  lemma PublishKeepsFlags(sh: Shared, op: string, value: nat)
    requires FlagsAgree(sh)
    ensures FlagsAgree(PublishProgress(sh, op, value).0)
  {
    hide Push;
  }

  lemma StepKeepsFlags(c: System, step: Step)
    requires FlagsAgree(c.shared) && Enabled(c, step)
    ensures FlagsAgree(Apply(c, step).shared)
  {
    hide ApplyCheck, CloseAfterJoin, PublishProgress, WorkerId, IdentityOf, NotifyAll;
    match step {
      case PublishStep(s, value) => PublishKeepsFlags(c.shared, c.attempts[s - 1].operationId, value);
      case CheckStep(i) => CheckShape(c, i);
      case CloseStep(i) => CloseShape(c.shared, QueueIds(c.shutdowns[i].queue));
      case _ =>
    }
  }

  lemma {:induction false} RunKeepsFlags(c: System, steps: seq<Step>)
    requires FlagsAgree(c.shared) && Runs(c, steps)
    ensures FlagsAgree(Exec(c, steps).shared)
    decreases |steps|
  {
    hide FlagsAgree, Enabled, Apply;
    if steps != [] {
      StepKeepsFlags(c, steps[0]);
      RunKeepsFlags(Apply(c, steps[0]), steps[1..]);
    }
  }

  lemma LiveMeansFlagged(c: System, op: string)
    requires Inv(c) && op in c.shared.records && c.shared.lifecycle != LifecyclePhase.Running
    ensures !c.shared.records[op].phase.Released? ==> c.shared.records[op].cancellationRequested
  {
    RecordHere(c, op);
    hide Inv;
  }

  /** No record is flagged while the bridge runs; once it quiesces, every record without a terminal is. */
  lemma FlaggedIffQuiesced(
      capacity: nat, calls: nat, requests: nat, extras: nat, steps: seq<Step>, op: string)
    requires Runs(InitialSystem(capacity, calls, requests, extras), steps)
    ensures var sh := Exec(InitialSystem(capacity, calls, requests, extras), steps).shared;
            op in sh.records && !sh.records[op].phase.Released? ==>
              (sh.records[op].cancellationRequested <==> sh.lifecycle != LifecyclePhase.Running)
  {
    var start := InitialSystem(capacity, calls, requests, extras);
    assert FlagsAgree(start.shared);
    InitialInv(capacity, calls, requests, extras);
    hide InitialSystem, Inv;
    RunKeepsFlags(start, steps);
    RunKeepsInv(start, steps);
    var c := Exec(start, steps);
    if op in c.shared.records && c.shared.lifecycle != LifecyclePhase.Running {
      LiveMeansFlagged(c, op);
    }
  }
}

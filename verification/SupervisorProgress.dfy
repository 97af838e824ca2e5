/** Progress published through the supervisor: the record of an operation id is a ring over its history. */
module SupervisorProgress {
  import opened ByteOrder
  import opened Identifiers
  import opened Lifecycle
  import opened ProgressRing
  import opened Supervisor
  import opened SupervisorSystem
  import opened SupervisorSafety

  /** The record of `op` belongs to attempt `s`. */
  predicate Owns(c: System, op: string, s: nat) {
    op in c.shared.records && c.shared.records[op].identity.sequence == s
  }

  function PublishedValue(c: System, step: Step, op: string): seq<nat>
    requires Enabled(c, step)
  {
    if step.PublishStep? && c.attempts[step.s - 1].operationId == op
       && PublishProgress(c.shared, op, step.value).1 == Published
    then [step.value] else []
  }

  /** The values that calls on handles of `op` published successfully during a run. */
  ghost function PublishedTo(c: System, steps: seq<Step>, op: string): seq<nat>
    requires Runs(c, steps)
    decreases |steps|
  {
    if steps == [] then []
    else PublishedValue(c, steps[0], op) + PublishedTo(Apply(c, steps[0]), steps[1..], op)
  }

  ghost predicate SameEntry(sh: Shared, sh': Shared, op: string) {
    && op in sh.records && op in sh'.records
    && sh'.records[op].identity == sh.records[op].identity
    && sh'.records[op].progressProjection == sh.records[op].progressProjection
    && sh'.progressCapacity == sh.progressCapacity
  }

  lemma QuietStepKeepsEntry(c: System, step: Step, op: string)
    requires Enabled(c, step) && op in c.shared.records && !step.ReserveStep? && !step.PublishStep?
    requires !step.RecordStep? && !step.CheckStep? && !step.CloseStep?
    ensures SameEntry(c.shared, Apply(c, step).shared, op)
  {
    hide ApplyRecord, ApplyCheck, PublishProgress, Admit, CloseAfterJoin;
  }

  lemma RecordStepKeepsEntry(c: System, s: nat, op: string)
    requires Enabled(c, RecordStep(s)) && op in c.shared.records
    ensures SameEntry(c.shared, ApplyRecord(c, s).shared, op)
  {
  }

  lemma CheckStepKeepsEntry(c: System, i: nat, op: string)
    requires Started(c, i) && op in c.shared.records
    ensures SameEntry(c.shared, ApplyCheck(c, i).shared, op)
  {
    hide Taken, OwnedPrefix, Emptied, SortedKeys, EveryTaskOwnsItsHandle;
  }

  lemma PublishKeepsOtherEntries(sh: Shared, op: string, value: nat, other: string)
    requires other in sh.records && other != op
    ensures SameEntry(sh, PublishProgress(sh, op, value).0, other)
  {
    hide Push;
  }

  /** No step but a reservation or a publication touches the owner or the buffer of a record. */
  lemma StepKeepsEntry(c: System, step: Step, op: string)
    requires Enabled(c, step) && op in c.shared.records
    requires step.ReserveStep? ==> op != step.operationId || Refusal(c.shared, op).Some?
    requires step.PublishStep? ==> c.attempts[step.s - 1].operationId != op
    ensures SameEntry(c.shared, Apply(c, step).shared, op)
  {
    hide PublishProgress, ApplyRecord, ApplyCheck;
    match step {
      case ReserveStep(_) =>
      case RecordStep(s) => RecordStepKeepsEntry(c, s, op);
      case CheckStep(i) => CheckStepKeepsEntry(c, i, op);
      case CloseStep(_) =>
      case PublishStep(s, value) => PublishKeepsOtherEntries(c.shared, c.attempts[s - 1].operationId, value, op);
      case _ => QuietStepKeepsEntry(c, step, op);
    }
  }

  /** A record passes to a later attempt or stays where it is. */
  lemma StepKeepsOrRaisesOwner(c: System, step: Step, op: string)
    requires Inv(c) && Enabled(c, step) && op in c.shared.records
    ensures var c' := Apply(c, step);
            && op in c'.shared.records
            && c.shared.records[op].identity.sequence <= c'.shared.records[op].identity.sequence
  {
    hide Inv;
    OwnerIsKnown(c, op, c.shared.records[op].identity.sequence);
    OwnerOnlyRises(c, step, op);
  }

  lemma OwnerOnlyRises(c: System, step: Step, op: string)
    requires Enabled(c, step) && op in c.shared.records
    requires c.shared.nextSequence > c.shared.records[op].identity.sequence
    ensures var c' := Apply(c, step);
            && op in c'.shared.records
            && c.shared.records[op].identity.sequence <= c'.shared.records[op].identity.sequence
            && (c.shared.records[op].identity.sequence == c'.shared.records[op].identity.sequence ==>
                  SameEntry(c.shared, c'.shared, op) || (step.PublishStep? && c.attempts[step.s - 1].operationId == op))
  {
    if step.PublishStep? && c.attempts[step.s - 1].operationId == op {
      hide Push;
    } else if step.ReserveStep? && op == step.operationId && Refusal(c.shared, op).None? {
      hide WorkerId;
    } else {
      hide Apply, Refusal;
      StepKeepsEntry(c, step, op);
    }
  }

  lemma {:induction false} RunKeepsOrRaisesOwner(c: System, steps: seq<Step>, op: string)
    requires Inv(c) && Runs(c, steps) && op in c.shared.records
    ensures op in Exec(c, steps).shared.records
    ensures c.shared.records[op].identity.sequence <= Exec(c, steps).shared.records[op].identity.sequence
    decreases |steps|
  {
    hide Inv, Enabled, Apply;
    if steps != [] {
      StepKeepsInv(c, steps[0]);
      StepKeepsOrRaisesOwner(c, steps[0], op);
      RunKeepsOrRaisesOwner(Apply(c, steps[0]), steps[1..], op);
    }
  }

  lemma PublishRefinesHistory(sh: Shared, op: string, value: nat, history: seq<nat>)
    requires op in sh.records && sh.records[op].progressProjection == Latest(history, sh.progressCapacity)
    ensures var (sh', reply) := PublishProgress(sh, op, value);
            op in sh'.records && sh'.records[op].progressProjection
              == Latest(history + (if reply == Published then [value] else []), sh.progressCapacity)
  {
    if sh.progressCapacity > 0 {
      PushRefinesHistory(history, sh.progressCapacity, value);
    }
    assert history + [] == history;
    hide Push, Latest;
  }

  lemma StepRefinesHistory(c: System, step: Step, op: string, s: nat, history: seq<nat>)
    requires Enabled(c, step) && Owns(c, op, s) && Owns(Apply(c, step), op, s)
    requires c.shared.nextSequence > s
    requires c.shared.records[op].progressProjection == Latest(history, c.shared.progressCapacity)
    ensures var c' := Apply(c, step);
            && c'.shared.progressCapacity == c.shared.progressCapacity
            && c'.shared.records[op].progressProjection
               == Latest(history + PublishedValue(c, step, op), c.shared.progressCapacity)
  {
    hide Apply, Latest;
    if step.PublishStep? && c.attempts[step.s - 1].operationId == op {
      PublishStepRefinesHistory(c, step, op, history);
    } else {
      assert history + [] == history;
      OwnerOnlyRises(c, step, op);
    }
  }

  lemma PublishStepRefinesHistory(c: System, step: Step, op: string, history: seq<nat>)
    requires Enabled(c, step) && step.PublishStep? && c.attempts[step.s - 1].operationId == op
    requires op in c.shared.records
    requires c.shared.records[op].progressProjection == Latest(history, c.shared.progressCapacity)
    ensures var c' := Apply(c, step);
            && op in c'.shared.records
            && c'.shared.progressCapacity == c.shared.progressCapacity
            && c'.shared.records[op].progressProjection
               == Latest(history + PublishedValue(c, step, op), c.shared.progressCapacity)
  {
    hide Apply, Enabled, PublishProgress, Latest, PublishedValue;
    PublishStepPublishes(c, step, op);
    PublishedValueIsTheReply(c, step, op);
    PublishRefinesHistory(c.shared, op, step.value, history);
    PublishShape(c.shared, op, step.value);
  }

  lemma PublishedValueIsTheReply(c: System, step: Step, op: string)
    requires Enabled(c, step) && step.PublishStep? && c.attempts[step.s - 1].operationId == op
    ensures PublishedValue(c, step, op)
         == if PublishProgress(c.shared, op, step.value).1 == Published then [step.value] else []
  {
    hide PublishProgress;
  }

  lemma PublishStepPublishes(c: System, step: Step, op: string)
    requires Enabled(c, step) && step.PublishStep? && c.attempts[step.s - 1].operationId == op
    ensures Apply(c, step).shared == PublishProgress(c.shared, op, step.value).0
  {
    hide PublishProgress;
  }

  lemma OwnerIsKnown(c: System, op: string, s: nat)
    requires Inv(c) && Owns(c, op, s)
    ensures c.shared.nextSequence > s
  {
    assert RecordAgrees(c.shared, c.attempts, op);
    hide RecordAgrees, Listed, Retained, ShutdownsAgree;
  }

  /**
   While the record of an operation id belongs to one attempt, it holds the last values published to
   it, as many as fit, in order; no id reuse lies between the two ends of the run.
   */
  lemma {:induction false} RecordHoldsLatestPublished(
      c: System, steps: seq<Step>, op: string, s: nat, history: seq<nat>)
    requires Inv(c) && Runs(c, steps) && Owns(c, op, s) && Owns(Exec(c, steps), op, s)
    requires c.shared.records[op].progressProjection == Latest(history, c.shared.progressCapacity)
    ensures Exec(c, steps).shared.records[op].progressProjection
         == Latest(history + PublishedTo(c, steps, op), c.shared.progressCapacity)
    decreases |steps|
  {
    hide Inv, Enabled, Apply, Latest, PublishedValue;
    if steps == [] {
      assert history + [] == history;
    } else {
      var c', value := Apply(c, steps[0]), PublishedValue(c, steps[0], op);
      StepKeepsInv(c, steps[0]);
      StepKeepsOrRaisesOwner(c, steps[0], op);
      RunKeepsOrRaisesOwner(c', steps[1..], op);
      OwnerIsKnown(c, op, s);
      StepRefinesHistory(c, steps[0], op, s, history);
      RecordHoldsLatestPublished(c', steps[1..], op, s, history + value);
      Regroup(history, value, PublishedTo(c', steps[1..], op));
    }
  }

  lemma Regroup(a: seq<nat>, b: seq<nat>, c: seq<nat>)
    ensures a + b + c == a + (b + c)
  {
  }

  /** A terminal freezes the record: publication is refused from then on. */
  lemma ReleasedRecordRefusesProgress(c: System, op: string, s: nat, value: nat)
    requires Inv(c) && Owns(c, op, s) && !c.attempts[s - 1].Live()
    ensures PublishProgress(c.shared, op, value) == (c.shared, PublishReply.Refused(InvalidTransition))
  {
    assert RecordAgrees(c.shared, c.attempts, op);
    hide Listed, Retained, ShutdownsAgree;
  }

  /** The record of `op` is settled: no live attempt has that operation id. */
  ghost predicate Over(c: System, op: string) {
    && op in c.shared.records && c.shared.records[op].phase.Released? && op !in c.shared.active
    && c.shared.records[op].identity.sequence < c.shared.nextSequence
    && forall k :: 0 <= k < |c.attempts| && c.attempts[k].Live() ==> c.attempts[k].operationId != op
  }

  lemma ReleasedMeansOver(c: System, op: string)
    requires Inv(c) && op in c.shared.records && c.shared.records[op].phase.Released?
    ensures Over(c, op)
  {
    OwnerIsKnown(c, op, c.shared.records[op].identity.sequence);
    assert RecordAgrees(c.shared, c.attempts, op);
    hide Retained, ShutdownsAgree, Numbered;
  }

  lemma QuietStepKeepsRecord(c: System, step: Step, op: string)
    requires Enabled(c, step) && op in c.shared.records && op !in c.shared.active
    requires !step.ReserveStep? && !step.RecordStep? && !step.PublishStep? && !step.CheckStep? && !step.CloseStep?
    ensures op in Apply(c, step).shared.records
    ensures Apply(c, step).shared.records[op] == c.shared.records[op]
  {
    hide ApplyRecord, ApplyCheck, PublishProgress, Admit, CloseAfterJoin, NotifyAll;
  }

  lemma CheckKeepsRecords(c: System, i: nat)
    requires Started(c, i)
    ensures ApplyCheck(c, i).shared.records == c.shared.records
  {
    hide Taken, OwnedPrefix, Emptied, SortedKeys, EveryTaskOwnsItsHandle;
  }

  lemma ReserveFreezesRecord(c: System, operationId: string, op: string)
    requires c.calls > 0 && op in c.shared.records
    ensures op in Apply(c, ReserveStep(operationId)).shared.records
    ensures var r := Apply(c, ReserveStep(operationId)).shared.records[op];
            r == c.shared.records[op] || r.identity.sequence == c.shared.nextSequence
  {
    hide WorkerId, AttemptId;
  }

  lemma RecordStepFreezesRecord(c: System, s: nat, op: string)
    requires Enabled(c, RecordStep(s)) && op in c.shared.records && c.attempts[s - 1].operationId != op
    ensures op in ApplyRecord(c, s).shared.records
    ensures ApplyRecord(c, s).shared.records[op] == c.shared.records[op]
  {
    hide NotifyAll;
  }

  lemma PublishFreezesRecord(sh: Shared, other: string, value: nat, op: string)
    requires op in sh.records && sh.records[op].phase.Released?
    ensures op in PublishProgress(sh, other, value).0.records
    ensures PublishProgress(sh, other, value).0.records[op] == sh.records[op]
  {
    hide Push;
  }

  lemma CheckOrCloseFreezesRecord(c: System, step: Step)
    requires Enabled(c, step) && (step.CheckStep? || step.CloseStep?)
    ensures Apply(c, step).shared.records == c.shared.records
  {
    hide ApplyCheck, CloseAfterJoin, OutcomeOf;
    if step.CheckStep? {
      CheckKeepsRecords(c, step.i);
    } else {
      CloseShape(c.shared, QueueIds(c.shutdowns[step.i].queue));
    }
  }

  /** No step changes the record of an attempt that is over, except to hand it to a later attempt. */
  lemma StepFreezesRecord(c: System, step: Step, op: string)
    requires Enabled(c, step) && Over(c, op) && op in Apply(c, step).shared.records
    requires Apply(c, step).shared.records[op].identity.sequence == c.shared.records[op].identity.sequence
    ensures Apply(c, step).shared.records[op] == c.shared.records[op]
  {
    match step {
      case ReserveStep(operationId) =>
        hide Apply;
        ReserveFreezesRecord(c, operationId, op);
      case RecordStep(k) =>
        hide ApplyRecord;
        RecordStepFreezesRecord(c, k, op);
      case PublishStep(k, value) =>
        hide PublishProgress;
        PublishFreezesRecord(c.shared, c.attempts[k - 1].operationId, value, op);
      case CheckStep(_) =>
        hide Apply;
        CheckOrCloseFreezesRecord(c, step);
      case CloseStep(_) =>
        hide Apply;
        CheckOrCloseFreezesRecord(c, step);
      case _ =>
        hide Apply, Enabled;
        QuietStepKeepsRecord(c, step, op);
    }
  }

  /**
   Once an attempt has recorded its terminal, its record is frozen over every run in which the
   operation id is not given to a later attempt: phase, terminal, projections and progress.
   */
  lemma {:induction false} RecordIsFrozen(c: System, steps: seq<Step>, op: string, s: nat)
    requires Inv(c) && Runs(c, steps) && Owns(c, op, s) && c.shared.records[op].phase.Released?
    requires Owns(Exec(c, steps), op, s)
    ensures Exec(c, steps).shared.records[op] == c.shared.records[op]
    decreases |steps|
  {
    hide Inv, Enabled, Apply, Over;
    if steps != [] {
      var c' := Apply(c, steps[0]);
      StepKeepsInv(c, steps[0]);
      StepKeepsOrRaisesOwner(c, steps[0], op);
      RunKeepsOrRaisesOwner(c', steps[1..], op);
      ReleasedMeansOver(c, op);
      StepFreezesRecord(c, steps[0], op);
      RecordIsFrozen(c', steps[1..], op, s);
    }
  }

  // ---------- the capacity ----------

  ghost predicate BuffersFit(sh: Shared) {
    forall op :: op in sh.records ==> |sh.records[op].progressProjection| <= sh.progressCapacity
  }

  lemma PublishKeepsFit(sh: Shared, op: string, value: nat)
    requires BuffersFit(sh)
    ensures BuffersFit(PublishProgress(sh, op, value).0)
  {
  }

  lemma StepKeepsFit(c: System, step: Step)
    requires BuffersFit(c.shared) && Enabled(c, step)
    ensures BuffersFit(Apply(c, step).shared)
    ensures Apply(c, step).shared.progressCapacity == c.shared.progressCapacity
  {
    hide ApplyCheck, CloseAfterJoin, PublishProgress, WorkerId, IdentityOf, NotifyAll;
    match step {
      case PublishStep(s, value) =>
        PublishKeepsFit(c.shared, c.attempts[s - 1].operationId, value);
        PublishShape(c.shared, c.attempts[s - 1].operationId, value);
      case CheckStep(i) => CheckShape(c, i);
      case CloseStep(i) => CloseShape(c.shared, QueueIds(c.shutdowns[i].queue));
      case _ =>
    }
  }

  lemma CheckShape(c: System, i: nat)
    requires Started(c, i)
    ensures ApplyCheck(c, i).shared == c.shared.(tasks := ApplyCheck(c, i).shared.tasks)
  {
    hide Taken, OwnedPrefix, Emptied, SortedKeys, EveryTaskOwnsItsHandle;
  }

  lemma {:induction false} RunKeepsFit(c: System, steps: seq<Step>)
    requires BuffersFit(c.shared) && Runs(c, steps)
    ensures BuffersFit(Exec(c, steps).shared)
    ensures Exec(c, steps).shared.progressCapacity == c.shared.progressCapacity
    decreases |steps|
  {
    hide BuffersFit, Enabled, Apply;
    if steps != [] {
      StepKeepsFit(c, steps[0]);
      RunKeepsFit(Apply(c, steps[0]), steps[1..]);
    }
  }

  /**
   In every reachable state, publishing for a live attempt panics exactly when the supervisor was built
   with capacity zero.
   */
  lemma PublishPanicsIffCapacityIsZero(
      capacity: nat, calls: nat, requests: nat, extras: nat, steps: seq<Step>, op: string, value: nat)
    requires Runs(InitialSystem(capacity, calls, requests, extras), steps)
    ensures var sh := Exec(InitialSystem(capacity, calls, requests, extras), steps).shared;
            op in sh.records && sh.records[op].phase == OperationPhase.Running ==>
              (PublishProgress(sh, op, value).1.Panicked? <==> capacity == 0)
  {
    var start := InitialSystem(capacity, calls, requests, extras);
    assert BuffersFit(start.shared) && start.shared.progressCapacity == capacity;
    hide InitialSystem;
    RunKeepsFit(start, steps);
  }
}

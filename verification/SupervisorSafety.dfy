/** The supervisor's invariant is kept by every step of every thread. */
module SupervisorSafety {
  import opened Wrappers
  import opened ByteOrder
  import opened Collections
  import opened Identifiers
  import opened Lifecycle
  import opened Supervisor
  import opened SupervisorSystem

  // ---------- steps that move one attempt ----------

  /** `b` differs from `a` in nothing the shared state speaks about. */
  ghost predicate SameStanding(a: Attempt, b: Attempt) {
    && b.operationId == a.operationId
    && b.Live() == a.Live()
    && !b.worker.WorkerPanicked?
    && (!a.Live() && !a.worker.WorkerPanicked? ==> b.worker.outcome == a.worker.outcome)
    && (a.worker.Exited? ==> b.worker.Exited?)
  }

  lemma ListedSurvives(active: map<string, nat>, attempts: seq<Attempt>, i: nat, b: Attempt)
    requires Listed(active, attempts) && i < |attempts| && SameStanding(attempts[i], b)
    ensures Listed(active, attempts[i := b])
  {
  }

  lemma RecordedSurvives(sh: Shared, attempts: seq<Attempt>, i: nat, b: Attempt)
    requires Recorded(sh, attempts) && i < |attempts| && SameStanding(attempts[i], b)
    ensures Recorded(sh, attempts[i := b])
  {
    hide IdentityOf;
    forall op | op in sh.records ensures RecordAgrees(sh, attempts[i := b], op) {
      assert RecordAgrees(sh, attempts, op);
    }
  }

  lemma HoldsAllSurvives(pc: ShutdownPc, attempts: seq<Attempt>, i: nat, b: Attempt)
    requires HoldsAll(pc, attempts) && i < |attempts| && SameStanding(attempts[i], b)
    ensures HoldsAll(pc, attempts[i := b])
  {
    hide WorkerId, AreAllWorkers, QueueIds;
  }

  lemma RetainedSurvives(c: System, i: nat, b: Attempt)
    requires Retained(c) && i < |c.attempts| && SameStanding(c.attempts[i], b)
    requires b.stage.Returned? == c.attempts[i].stage.Returned?
    ensures Retained(c.(attempts := c.attempts[i := b]))
  {
    hide WorkerId, AreAllWorkers, HoldsAll, SlotsEmptied;
    forall k | 0 <= k < |c.shutdowns| && HoldsAll(c.shutdowns[k], c.attempts)
      ensures HoldsAll(c.shutdowns[k], c.attempts[i := b])
    {
      HoldsAllSurvives(c.shutdowns[k], c.attempts, i, b);
    }
  }

  lemma MoveKeepsInv(c: System, s: nat, stage: CallStage, worker: WorkerPc)
    requires Inv(c) && Known(c, s)
    requires var a := c.attempts[s - 1]; var b := a.(stage := stage, worker := worker);
             SameStanding(a, b) && WellStaged(b) && (stage.Returned? <==> a.stage.Returned?)
    ensures Inv(Move(c, s, stage, worker))
  {
    hide Listed, Recorded, Retained, SameStanding, Numbered;
    var b := c.attempts[s - 1].(stage := stage, worker := worker);
    ListedSurvives(c.shared.active, c.attempts, s - 1, b);
    RecordedSurvives(c.shared, c.attempts, s - 1, b);
    RetainedSurvives(c, s - 1, b);
  }

  // ---------- the shutdown tasks a step leaves alone ----------

  /** A shutdown that joins, finished or crashed. */
  predicate Settled(pc: ShutdownPc) {
    pc.Joining? || pc.Finished? || pc.Crashed?
  }

  /** The settled shutdowns are the same ones, unchanged. */
  ghost predicate SameSettled(pcs: seq<ShutdownPc>, pcs': seq<ShutdownPc>) {
    && (forall k :: 0 <= k < |pcs| && Settled(pcs[k]) ==> k < |pcs'| && pcs'[k] == pcs[k])
    && (forall k :: 0 <= k < |pcs'| && Settled(pcs'[k]) ==> k < |pcs| && pcs[k] == pcs'[k])
  }

  lemma SameSettledMeansSameFates(pcs: seq<ShutdownPc>, pcs': seq<ShutdownPc>)
    requires SameSettled(pcs, pcs')
    ensures SomeoneJoins(pcs) <==> SomeoneJoins(pcs')
    ensures SomeoneFinished(pcs) <==> SomeoneFinished(pcs')
    ensures SomeoneCrashed(pcs) <==> SomeoneCrashed(pcs')
    ensures OneJoins(pcs) ==> OneJoins(pcs')
  {
  }

  lemma NotifyAllKeepsSettled(pcs: seq<ShutdownPc>)
    ensures SameSettled(pcs, NotifyAll(pcs))
  {
  }

  lemma AgreesByParts(sh: Shared, sh': Shared, pcs: seq<ShutdownPc>, pcs': seq<ShutdownPc>)
    requires ShutdownsAgree(sh, pcs) && SameSettled(pcs, pcs')
    requires sh.lifecycle == LifecyclePhase.Closed <==> sh'.lifecycle == LifecyclePhase.Closed
    requires forall k :: 0 <= k < |pcs'| ==> TaskAgrees(sh', pcs'[k])
    ensures ShutdownsAgree(sh', pcs')
  {
    hide TaskAgrees, SameSettled;
    SameSettledMeansSameFates(pcs, pcs');
    hide SomeoneFinished, SomeoneJoins, SomeoneCrashed;
  }

  /** Where a step only changes what no shutdown looks at. */
  lemma AgreesWithSameView(sh: Shared, sh': Shared, pcs: seq<ShutdownPc>)
    requires ShutdownsAgree(sh, pcs)
    requires sh'.lifecycle == sh.lifecycle && sh'.active == sh.active
    requires sh.lifecycle == LifecyclePhase.Closed ==> OutcomeOf(sh') == OutcomeOf(sh)
    ensures ShutdownsAgree(sh', pcs)
  {
    hide OutcomeOf, SomeoneFinished, SomeoneJoins, SomeoneCrashed;
  }

  /** While admission is open no shutdown has got past its start. */
  lemma RunningMeansNoneUnderWay(sh: Shared, pcs: seq<ShutdownPc>)
    requires ShutdownsAgree(sh, pcs) && sh.lifecycle == LifecyclePhase.Running
    ensures forall k :: 0 <= k < |pcs| ==> pcs[k].Begun?
    ensures !SomeoneJoins(pcs)
  {
    hide OutcomeOf;
    assert forall k :: 0 <= k < |pcs| ==> TaskAgrees(sh, pcs[k]);
  }

  // ---------- admission ----------

  lemma AdmissionIsListed(active: map<string, nat>, attempts: seq<Attempt>, operationId: string)
    requires Listed(active, attempts) && operationId !in active
    ensures Listed(active[operationId := |attempts| + 1], attempts + [Attempt(operationId, AwaitSpawn, Unborn)])
  {
  }

  lemma AdmissionIsRecorded(sh: Shared, attempts: seq<Attempt>, operationId: string)
    requires Recorded(sh, attempts) && sh.nextSequence == |attempts| + 1
    requires sh.lifecycle == LifecyclePhase.Running
    ensures Recorded(Admit(sh, operationId), attempts + [Attempt(operationId, AwaitSpawn, Unborn)])
  {
    hide AttemptId, WorkerId;
    var attempts' := attempts + [Attempt(operationId, AwaitSpawn, Unborn)];
    forall op | op in Admit(sh, operationId).records ensures RecordAgrees(Admit(sh, operationId), attempts', op) {
      if op != operationId { assert RecordAgrees(sh, attempts, op); }
    }
  }

  lemma AdmissionHoldsHandles(tasks: map<string, Option<nat>>, attempts: seq<Attempt>, operationId: string)
    requires HoldsHandles(tasks, attempts)
    ensures HoldsHandles(tasks, attempts + [Attempt(operationId, AwaitSpawn, Unborn)])
  {
    var id := WorkerId(|attempts| + 1);
    if id in tasks {
      WorkerIdsDiffer(|attempts| + 1, tasks[id].value);
    }
    hide WorkerId;
  }

  lemma AdmitKeepsInv(c: System, operationId: string, c': System)
    requires Inv(c) && Refusal(c.shared, operationId).None?
    requires c'.shared == Admit(c.shared, operationId) && c'.shutdowns == c.shutdowns
    requires c'.attempts == c.attempts + [Attempt(operationId, AwaitSpawn, Unborn)]
    ensures Inv(c')
  {
    hide Listed, Recorded, HoldsHandles, Admit, ShutdownsAgree, SomeoneJoins, HoldsAll, SlotsEmptied, OneJoins;
    RunningMeansNoneUnderWay(c.shared, c.shutdowns);
    NoneUnderWayAgrees(c'.shared, c.shutdowns);
    AdmissionIsListed(c.shared.active, c.attempts, operationId);
    AdmissionIsRecorded(c.shared, c.attempts, operationId);
    AdmissionHoldsHandles(c.shared.tasks, c.attempts, operationId);
    AdmitShape(c.shared, operationId);
    hide WorkerId;
    assert WorkerIds(|c.attempts| + 1) == WorkerIds(|c.attempts|) + [WorkerId(|c.attempts| + 1)];
  }

  lemma NoneUnderWayAgrees(sh: Shared, pcs: seq<ShutdownPc>)
    requires forall k :: 0 <= k < |pcs| ==> pcs[k].Begun?
    ensures sh.lifecycle != LifecyclePhase.Closed ==> ShutdownsAgree(sh, pcs)
  {
  }

  lemma ReserveKeepsInv(c: System, operationId: string)
    requires Inv(c) && c.calls > 0
    ensures Inv(Apply(c, ReserveStep(operationId)))
  {
    if Refusal(c.shared, operationId).None? {
      hide Inv, Refusal, Admit;
      AdmitKeepsInv(c, operationId, Apply(c, ReserveStep(operationId)));
    }
  }

  lemma AdmitShape(sh: Shared, operationId: string)
    ensures var sh' := Admit(sh, operationId);
            && sh'.nextSequence == sh.nextSequence + 1 && sh'.active == sh.active[operationId := sh.nextSequence]
            && sh'.expectedWorkerIds == sh.expectedWorkerIds + [WorkerId(sh.nextSequence)]
            && sh'.lifecycle == sh.lifecycle && sh'.tasks == sh.tasks
            && sh'.joinedWorkerIds == sh.joinedWorkerIds
  {
  }

  // ---------- the second section of reserve ----------

  lemma InsertHoldsHandles(tasks: map<string, Option<nat>>, attempts: seq<Attempt>, s: nat)
    requires HoldsHandles(tasks, attempts) && 1 <= s <= |attempts|
    ensures HoldsHandles(tasks[WorkerId(s) := Some(s)], attempts[s - 1 := attempts[s - 1].(stage := Returned)])
  {
    hide WorkerId;
    var attempts' := attempts[s - 1 := attempts[s - 1].(stage := Returned)];
    forall i | 0 <= i < |attempts|
      ensures WorkerId(i + 1) in tasks[WorkerId(s) := Some(s)] <==> attempts'[i].stage.Returned?
    {
      WorkerIdsDiffer(i + 1, s);
    }
  }

  /** While some attempt is live or has not come back, no handle has been taken. */
  lemma OpenWhileUnfinished(c: System, i: nat)
    requires Retained(c) && i < |c.attempts| && (c.attempts[i].Live() || !c.attempts[i].stage.Returned?)
    ensures c.shared.lifecycle != LifecyclePhase.Closed && !SomeoneJoins(c.shutdowns)
    ensures c.shared.joinedWorkerIds == [] && HoldsHandles(c.shared.tasks, c.attempts)
  {
    hide HoldsHandles, AreAllWorkers, HoldsAll, SlotsEmptied, OneJoins;
  }

  lemma InsertKeepsInv(c: System, s: nat, c': System)
    requires Inv(c) && Known(c, s) && c.attempts[s - 1].stage.AwaitInsert?
    requires c' == c.(attempts := c.attempts[s - 1 := c.attempts[s - 1].(stage := Returned)],
                      shared := InsertTask(c.shared, s))
    ensures Inv(c')
  {
    hide Retained, Listed, Recorded, Numbered, InsertTask, ShutdownsAgree;
    var a, b := c.attempts[s - 1], c.attempts[s - 1].(stage := Returned);
    assert WellStaged(a) && WellStaged(b);
    assert SameStanding(a, b);
    hide SameStanding, WellStaged, HoldsHandles;
    OpenWhileUnfinished(c, s - 1);
    ListedSurvives(c.shared.active, c.attempts, s - 1, b);
    RecordedSurvives(c.shared, c.attempts, s - 1, b);
    InsertHoldsHandles(c.shared.tasks, c.attempts, s);
    InsertShape(c.shared, s, |c.attempts|, c.attempts[s - 1 := b]);
    AgreesWithSameView(c.shared, c'.shared, c.shutdowns);
    StillOpen(c');
  }

  /** An open state stays accounted for as long as the handles are where they belong. */
  lemma StillOpen(c': System)
    requires c'.shared.lifecycle != LifecyclePhase.Closed && !SomeoneJoins(c'.shutdowns)
    requires c'.shared.joinedWorkerIds == [] && HoldsHandles(c'.shared.tasks, c'.attempts)
    ensures Retained(c')
  {
  }

  lemma InsertShape(sh: Shared, s: nat, n: nat, attempts: seq<Attempt>)
    requires Numbered(sh, n) && Recorded(sh, attempts)
    ensures var sh' := InsertTask(sh, s);
            && Numbered(sh', n) && Recorded(sh', attempts)
            && sh' == sh.(tasks := sh.tasks[WorkerId(s) := Some(s)])
  {
    hide WorkerId, WorkerIds;
    InsertRecorded(sh, s, attempts);
  }

  lemma InsertRecorded(sh: Shared, s: nat, attempts: seq<Attempt>)
    requires Recorded(sh, attempts)
    ensures Recorded(InsertTask(sh, s), attempts)
  {
    hide IdentityOf, WorkerId;
    forall op | op in sh.records ensures RecordAgrees(InsertTask(sh, s), attempts, op) {
      assert RecordAgrees(sh, attempts, op);
    }
  }

  // ---------- the worker's section ----------

  lemma ReleaseIsListed(active: map<string, nat>, attempts: seq<Attempt>, i: nat, b: Attempt)
    requires Listed(active, attempts) && i < |attempts| && attempts[i].Live()
    requires b.operationId == attempts[i].operationId && !b.Live()
    ensures Listed(active - {attempts[i].operationId}, attempts[i := b])
  {
  }

  lemma ReleaseIsRecorded(sh: Shared, attempts: seq<Attempt>, i: nat, outcome: TerminalClass)
    requires Recorded(sh, attempts) && Listed(sh.active, attempts) && i < |attempts| && attempts[i].Live()
    ensures attempts[i].operationId in sh.records
    ensures Recorded(RecordRelease(sh, attempts[i].operationId, outcome),
                     attempts[i := attempts[i].(worker := AwaitReceiver(outcome))])
  {
    hide IdentityOf;
    var op := attempts[i].operationId;
    assert RecordAgrees(sh, attempts, op) && sh.records[op].identity.sequence == i + 1;
    var sh' := RecordRelease(sh, op, outcome);
    var attempts' := attempts[i := attempts[i].(worker := AwaitReceiver(outcome))];
    forall k | k in sh'.records ensures RecordAgrees(sh', attempts', k) {
      assert RecordAgrees(sh, attempts, k);
    }
  }

  lemma ReleaseHoldsHandles(tasks: map<string, Option<nat>>, attempts: seq<Attempt>, i: nat, b: Attempt)
    requires HoldsHandles(tasks, attempts) && i < |attempts| && b.stage == attempts[i].stage
    ensures HoldsHandles(tasks, attempts[i := b])
  {
    hide WorkerId;
  }

  lemma RecordKeepsInv(c: System, s: nat)
    requires Inv(c) && Known(c, s) && c.attempts[s - 1].worker.Commanded?
    ensures Inv(ApplyRecord(c, s))
  {
    hide Retained, Listed, Recorded, Numbered, HoldsHandles, ShutdownsAgree, NotifyAll, SomeoneJoins;
    var a := c.attempts[s - 1];
    var b := a.(worker := AwaitReceiver(a.worker.outcome));
    assert WellStaged(a) && WellStaged(b);
    OpenWhileUnfinished(c, s - 1);
    ReleaseIsListed(c.shared.active, c.attempts, s - 1, b);
    ReleaseIsRecorded(c.shared, c.attempts, s - 1, a.worker.outcome);
    ReleaseHoldsHandles(c.shared.tasks, c.attempts, s - 1, b);
    RecordShape(c.shared, a.operationId, a.worker.outcome, |c.attempts|);
    RecordAgreesWithShutdowns(c.shared, RecordRelease(c.shared, a.operationId, a.worker.outcome), c.shutdowns);
    hide RecordRelease;
    StillOpen(ApplyRecord(c, s));
  }

  lemma RecordAgreesWithShutdowns(sh: Shared, sh': Shared, pcs: seq<ShutdownPc>)
    requires ShutdownsAgree(sh, pcs) && sh'.lifecycle == sh.lifecycle != LifecyclePhase.Closed
    ensures ShutdownsAgree(sh', NotifyAll(pcs))
    ensures SomeoneJoins(NotifyAll(pcs)) == SomeoneJoins(pcs)
  {
    NotifyAllKeepsSettled(pcs);
    SameSettledMeansSameFates(pcs, NotifyAll(pcs));
    forall k | 0 <= k < |pcs|
      ensures TaskAgrees(sh', NotifyAll(pcs)[k])
    {
      assert TaskAgrees(sh, pcs[k]);
    }
    AgreesByParts(sh, sh', pcs, NotifyAll(pcs));
  }

  lemma RecordShape(sh: Shared, operationId: string, outcome: TerminalClass, n: nat)
    requires operationId in sh.records && Numbered(sh, n)
    ensures var sh' := RecordRelease(sh, operationId, outcome);
            && Numbered(sh', n) && sh'.active == sh.active - {operationId} && sh'.lifecycle == sh.lifecycle
            && sh'.tasks == sh.tasks && sh'.joinedWorkerIds == sh.joinedWorkerIds
  {
    hide WorkerIds;
  }

  // ---------- quiesce and progress ----------

  lemma QuiesceIsRecorded(sh: Shared, attempts: seq<Attempt>)
    requires Recorded(sh, attempts) && Listed(sh.active, attempts)
    ensures Recorded(Quiesce(sh), attempts)
  {
    hide IdentityOf;
    forall op | op in Quiesce(sh).records ensures RecordAgrees(Quiesce(sh), attempts, op) {
      assert RecordAgrees(sh, attempts, op);
    }
  }

  lemma QuiesceShape(sh: Shared)
    ensures Quiesce(sh) == sh.(lifecycle := Quiesce(sh).lifecycle, records := Quiesce(sh).records)
    ensures Quiesce(sh).lifecycle != LifecyclePhase.Running
    ensures (Quiesce(sh).lifecycle == LifecyclePhase.Closed) == (sh.lifecycle == LifecyclePhase.Closed)
  {
  }

  /** `pcs'` is `pcs` with the sleepers woken and perhaps one shutdown past its quiesce. */
  ghost predicate Roused(pcs: seq<ShutdownPc>, pcs': seq<ShutdownPc>) {
    && |pcs'| == |pcs|
    && forall k :: 0 <= k < |pcs| ==> pcs'[k] == Notified(pcs[k]) || (pcs[k].Begun? && pcs'[k].Announcing?)
  }

  lemma QuiesceAgreesWithShutdowns(sh: Shared, pcs: seq<ShutdownPc>, pcs': seq<ShutdownPc>)
    requires ShutdownsAgree(sh, pcs) && Roused(pcs, pcs')
    ensures ShutdownsAgree(Quiesce(sh), pcs') && SameSettled(pcs, pcs')
  {
    hide CancelRecords, OutcomeOf;
    forall k | 0 <= k < |pcs'|
      ensures TaskAgrees(Quiesce(sh), pcs'[k])
    {
      assert TaskAgrees(sh, pcs[k]);
    }
    hide Quiesce;
    QuiesceShape(sh);
    AgreesByParts(sh, Quiesce(sh), pcs, pcs');
  }

  lemma QuiesceKeepsInv(c: System, c': System)
    requires Inv(c)
    requires c'.shared == Quiesce(c.shared) && c'.attempts == c.attempts && Roused(c.shutdowns, c'.shutdowns)
    ensures Inv(c')
  {
    hide Quiesce, Retained, Listed, Recorded, Numbered, ShutdownsAgree, Roused, SameSettled;
    QuiesceIsRecorded(c.shared, c.attempts);
    QuiesceShape(c.shared);
    QuiesceAgreesWithShutdowns(c.shared, c.shutdowns, c'.shutdowns);
    RetainedByParts(c, c');
    NumberedByParts(c.shared, c'.shared, |c.attempts|);
  }

  lemma NumberedByParts(sh: Shared, sh': Shared, n: nat)
    requires Numbered(sh, n)
    requires sh'.nextSequence == sh.nextSequence && sh'.expectedWorkerIds == sh.expectedWorkerIds
    ensures Numbered(sh', n)
  {
  }

  /** The accounting of handles does not depend on the records, nor on where the shutdowns that hold none are. */
  lemma RetainedByParts(c: System, c': System)
    requires Retained(c) && c'.attempts == c.attempts && SameSettled(c.shutdowns, c'.shutdowns)
    requires c'.shared.tasks == c.shared.tasks && c'.shared.joinedWorkerIds == c.shared.joinedWorkerIds
    requires (c'.shared.lifecycle == LifecyclePhase.Closed) == (c.shared.lifecycle == LifecyclePhase.Closed)
    ensures Retained(c')
  {
    SameSettledMeansSameFates(c.shutdowns, c'.shutdowns);
    forall k | 0 <= k < |c'.shutdowns|
      ensures c'.shutdowns[k].Joining? ==> k < |c.shutdowns| && c'.shutdowns[k] == c.shutdowns[k]
    {
    }
    hide AreAllWorkers, HoldsHandles, QueueMatches, QueueIds;
    hide SlotsEmptied, JoinedSoFar, SomeoneJoins, OneJoins, SameSettled;
  }

  lemma PublishIsRecorded(sh: Shared, attempts: seq<Attempt>, operationId: string, value: nat)
    requires Recorded(sh, attempts)
    ensures Recorded(PublishProgress(sh, operationId, value).0, attempts)
  {
    hide IdentityOf;
    var sh' := PublishProgress(sh, operationId, value).0;
    forall op | op in sh'.records ensures RecordAgrees(sh', attempts, op) {
      assert RecordAgrees(sh, attempts, op);
    }
  }

  lemma PublishShape(sh: Shared, operationId: string, value: nat)
    ensures var sh' := PublishProgress(sh, operationId, value).0; sh' == sh.(records := sh'.records)
  {
  }

  lemma PublishKeepsInv(c: System, c': System, operationId: string, value: nat)
    requires Inv(c)
    requires c'.shared == PublishProgress(c.shared, operationId, value).0 && c'.attempts == c.attempts
    requires c'.shutdowns == c.shutdowns
    ensures Inv(c')
  {
    hide PublishProgress, Retained, Listed, Recorded, Numbered, ShutdownsAgree;
    PublishIsRecorded(c.shared, c.attempts, operationId, value);
    PublishShape(c.shared, operationId, value);
    AgreesWithSameView(c.shared, c'.shared, c.shutdowns);
    RetainedByParts(c, c');
    NumberedByParts(c.shared, c'.shared, |c.attempts|);
  }

  /** Steps of a shutdown task, or of its waiter, that only move its program counter. */
  lemma TurnKeepsInv(c: System, i: nat, pc: ShutdownPc)
    requires Inv(c) && Started(c, i) && !Settled(c.shutdowns[i]) && !Settled(pc)
    requires TaskAgrees(c.shared, pc)
    ensures Inv(Turn(c, i, pc))
  {
    hide Retained, Listed, Recorded, Numbered, TaskAgrees;
    AgreesByParts(c.shared, c.shared, c.shutdowns, c.shutdowns[i := pc]);
    RetainedByParts(c, Turn(c, i, pc));
  }

  lemma BeginKeepsInv(c: System, c': System)
    requires Inv(c)
    requires c'.shared == c.shared && c'.attempts == c.attempts && c'.shutdowns == c.shutdowns + [Begun]
    ensures Inv(c')
  {
    hide Retained, Listed, Recorded, Numbered, OutcomeOf;
    AgreesByParts(c.shared, c.shared, c.shutdowns, c'.shutdowns);
    RetainedByParts(c, c');
  }

  // ---------- taking, joining and closing ----------

  /** The key fact: when the last worker has left `active`, every reserve call has stored its handle. */
  lemma NoneActiveMeansAllHandlesStored(attempts: seq<Attempt>)
    requires forall i :: 0 <= i < |attempts| ==> WellStaged(attempts[i])
    requires Listed(map[], attempts)
    ensures AllRecorded(attempts)
  {
  }

  /** All slots taken: their ids, in byte order, are those of all workers. */
  lemma StoredIsEveryWorker(tasks: map<string, Option<nat>>, attempts: seq<Attempt>)
    requires HoldsHandles(tasks, attempts) && AllRecorded(attempts)
    ensures AreAllWorkers(SortedKeys(tasks.Keys), |attempts|)
  {
    var n := |attempts|;
    var ids := SortedKeys(tasks.Keys);
    hide WorkerId, Ascending, SortedKeys;
    forall id ensures id in ids <==> id in WorkerIds(n) {
      if id in WorkerIds(n) {
        var i :| 0 <= i < n && WorkerIds(n)[i] == id;
        assert attempts[i].stage.Returned?;
      }
      if id in tasks {
        assert WorkerIds(n)[tasks[id].value - 1] == id;
      }
    }
  }

  lemma TakenMatches(sh: Shared, attempts: seq<Attempt>)
    requires HoldsHandles(sh.tasks, attempts)
    ensures EveryTaskOwnsItsHandle(sh)
    ensures QueueIds(Taken(sh)) == SortedKeys(sh.tasks.Keys) && QueueMatches(Taken(sh), |attempts|)
  {
    assert EveryTaskOwnsItsHandle(sh);
    var ids := SortedKeys(sh.tasks.Keys);
    hide WorkerId, SortedKeys;
    forall k | 0 <= k < |ids|
      ensures 1 <= Taken(sh)[k].handle <= |attempts| && Taken(sh)[k].workerId == WorkerId(Taken(sh)[k].handle)
    {
      assert ids[k] in ids;
    }
  }

  lemma TakenIsEveryWorker(sh: Shared, attempts: seq<Attempt>)
    requires HoldsHandles(sh.tasks, attempts) && AllRecorded(attempts)
    ensures EveryTaskOwnsItsHandle(sh)
    ensures var queue := Taken(sh);
            && AreAllWorkers(QueueIds(queue), |attempts|) && QueueMatches(queue, |attempts|)
            && forall id :: id in sh.tasks <==> id in QueueIds(queue)
  {
    TakenMatches(sh, attempts);
    StoredIsEveryWorker(sh.tasks, attempts);
    hide HoldsHandles, AllRecorded, AreAllWorkers, QueueMatches, QueueIds;
  }

  /** Nobody is left to wait for, and no shutdown has taken the handles yet: this one takes them all. */
  lemma TakeKeepsInv(c: System, i: nat)
    requires Inv(c) && Started(c, i) && c.shutdowns[i].Checking? && c.shared.active == map[]
    requires c.shared.lifecycle != LifecyclePhase.Closed && !SomeoneJoins(c.shutdowns)
    ensures EveryTaskOwnsItsHandle(c.shared)
    ensures Inv(Turn(c, i, Joining(Taken(c.shared), 0)).(shared := TakeHandles(c.shared)))
  {
    hide Recorded, Numbered, WellStaged, HoldsHandles, Listed, ShutdownsAgree, HoldsAll, SlotsEmptied;
    NoneActiveMeansAllHandlesStored(c.attempts);
    TakenIsEveryWorker(c.shared, c.attempts);
    TakeIsAccounted(c, i, Taken(c.shared));
  }

  lemma TakeIsAccounted(c: System, i: nat, queue: seq<Task>)
    requires Inv(c) && c.shared.lifecycle != LifecyclePhase.Closed && !SomeoneJoins(c.shutdowns)
    requires Started(c, i) && c.shutdowns[i].Checking?
    requires AreAllWorkers(QueueIds(queue), |c.attempts|) && QueueMatches(queue, |c.attempts|)
    requires AllRecorded(c.attempts)
    requires forall id :: id in c.shared.tasks <==> id in QueueIds(queue)
    ensures Inv(Turn(c, i, Joining(queue, 0)).(shared := TakeHandles(c.shared)))
  {
    TakeIsRecorded(c.shared, c.attempts);
    hide Recorded, Listed, ShutdownsAgree, OneJoins;
    SlotsAreEmptied(c.shared.tasks, QueueIds(queue), |c.attempts|);
    JoinerAgrees(c.shared, TakeHandles(c.shared), c.shutdowns, i, Joining(queue, 0));
    OnlyJoiner(c.shutdowns, i, Joining(queue, 0));
    hide AreAllWorkers, HoldsHandles, QueueIds, WorkerIds, SlotsEmptied, QueueMatches;
  }

  lemma SlotsAreEmptied(tasks: map<string, Option<nat>>, ids: seq<string>, n: nat)
    requires AreAllWorkers(ids, n) && forall id :: id in tasks <==> id in ids
    ensures SlotsEmptied(Emptied(tasks, tasks.Keys), n)
  {
    hide WorkerIds, Ascending;
  }

  lemma OnlyJoiner(pcs: seq<ShutdownPc>, i: nat, pc: ShutdownPc)
    requires i < |pcs| && pc.Joining? && !SomeoneJoins(pcs)
    ensures SomeoneJoins(pcs[i := pc]) && OneJoins(pcs[i := pc])
  {
    assert pcs[i := pc][i].Joining?;
  }

  /** A shutdown that starts to join, or joins one more worker, leaves the others as they were. */
  lemma JoinerAgrees(sh: Shared, sh': Shared, pcs: seq<ShutdownPc>, i: nat, pc: ShutdownPc)
    requires ShutdownsAgree(sh, pcs) && i < |pcs| && (pcs[i].Checking? || pcs[i].Joining?) && pc.Joining?
    requires sh'.lifecycle == sh.lifecycle && sh'.active == sh.active
    requires sh.lifecycle == LifecyclePhase.Closed ==> sh' == sh
    ensures ShutdownsAgree(sh', pcs[i := pc])
  {
    hide OutcomeOf;
    var pcs' := pcs[i := pc];
    assert pcs'[i].Joining?;
    assert TaskAgrees(sh, pcs[i]);
    forall k | 0 <= k < |pcs'|
      ensures TaskAgrees(sh', pcs'[k])
    {
      assert TaskAgrees(sh, pcs[k]);
    }
    if sh.lifecycle == LifecyclePhase.Closed {
      var f :| 0 <= f < |pcs| && pcs[f].Finished?;
      assert pcs'[f].Finished?;
    }
  }

  lemma TakeIsRecorded(sh: Shared, attempts: seq<Attempt>)
    requires Recorded(sh, attempts)
    ensures Recorded(TakeHandles(sh), attempts)
  {
    hide IdentityOf;
    forall op | op in sh.records ensures RecordAgrees(TakeHandles(sh), attempts, op) {
      assert RecordAgrees(sh, attempts, op);
    }
  }

  /** Inside the join of another shutdown every slot is empty: with workers the take panics and moves nothing. */
  lemma TakeInsideJoin(c: System)
    requires Inv(c) && c.shared.lifecycle != LifecyclePhase.Closed && SomeoneJoins(c.shutdowns)
    ensures EveryTaskOwnsItsHandle(c.shared) <==> c.attempts == []
    ensures c.attempts != [] ==> FailedTake(c.shared) == c.shared
    ensures c.attempts == [] ==> c.shared.tasks == map[]
  {
    hide Recorded, HoldsAll, OneJoins, Listed, ShutdownsAgree, SomeoneJoins, WorkerId, Numbered;
    var n := |c.attempts|;
    if n > 0 {
      assert WorkerIds(n)[0] in WorkerIds(n);
      assert WorkerId(1) in c.shared.tasks;
    } else {
      assert c.shared.tasks == map[];
    }
    var ids := SortedKeys(c.shared.tasks.Keys);
    if ids != [] {
      assert ids[0] in ids;
    }
    assert OwnedPrefix(c.shared.tasks, ids) == [];
    assert Emptied(c.shared.tasks, Elements([])) == c.shared.tasks;
  }

  /** Nothing is left to take: before the supervisor had workers, or after another shutdown closed it. */
  lemma EmptyTakeKeepsInv(c: System, i: nat)
    requires Inv(c) && Started(c, i) && c.shutdowns[i].Checking? && c.shared.tasks == map[]
    requires c.shared.lifecycle == LifecyclePhase.Closed || (SomeoneJoins(c.shutdowns) && c.attempts == [])
    ensures Inv(Turn(c, i, Joining([], 0)))
  {
    hide Recorded, Listed, Numbered, ShutdownsAgree;
    JoinerAgrees(c.shared, c.shared, c.shutdowns, i, Joining([], 0));
    var pcs' := c.shutdowns[i := Joining([], 0)];
    assert pcs'[i].Joining?;
    assert QueueIds([]) == [];
    if c.shared.lifecycle != LifecyclePhase.Closed {
      assert WorkerIds(0) == [];
      assert HoldsAll(Joining([], 0), c.attempts);
    }
    hide HoldsAll, AreAllWorkers, SlotsEmptied, OneJoins, SomeoneJoins;
  }

  lemma CrashKeepsInv(c: System, i: nat)
    requires Inv(c) && Started(c, i) && c.shutdowns[i].Checking?
    requires c.shared.lifecycle != LifecyclePhase.Closed && SomeoneJoins(c.shutdowns)
    ensures Inv(Turn(c, i, Crashed))
  {
    assert HoldsAll(Crashed, c.attempts);
    hide Recorded, Listed, Numbered, HoldsAll, SlotsEmptied, AreAllWorkers, OutcomeOf;
    var pcs, pcs' := c.shutdowns, c.shutdowns[i := Crashed];
    assert TaskAgrees(c.shared, pcs[i]);
    var j :| 0 <= j < |pcs| && pcs[j].Joining?;
    assert pcs'[j].Joining?;
  }

  lemma CheckKeepsInv(c: System, i: nat)
    requires Inv(c) && Started(c, i) && c.shutdowns[i].Checking?
    ensures Inv(ApplyCheck(c, i))
    ensures ApplyCheck(c, i).shutdowns[i].Crashed? <==>
              && c.shared.active == map[] && c.shared.lifecycle != LifecyclePhase.Closed
              && SomeoneJoins(c.shutdowns) && c.attempts != []
  {
    hide Inv, SomeoneJoins, EveryTaskOwnsItsHandle, FailedTake;
    if c.shared.active != map[] {
      CheckingIsQuiesced(c, i);
      TurnKeepsInv(c, i, Asleep);
    } else if c.shared.lifecycle == LifecyclePhase.Closed {
      ClosedHasNoSlots(c);
      TakingNothing(c.shared);
      EmptyTakeKeepsInv(c, i);
    } else if SomeoneJoins(c.shutdowns) {
      TakeInsideJoin(c);
      if c.attempts == [] {
        TakingNothing(c.shared);
        EmptyTakeKeepsInv(c, i);
      } else {
        CrashKeepsInv(c, i);
      }
    } else {
      TakeKeepsInv(c, i);
    }
  }

  lemma CheckingIsQuiesced(c: System, i: nat)
    requires Inv(c) && Started(c, i) && !c.shutdowns[i].Begun?
    ensures c.shared.lifecycle != LifecyclePhase.Running
  {
    hide Recorded, Listed, Retained, OutcomeOf;
    assert TaskAgrees(c.shared, c.shutdowns[i]);
  }

  lemma ClosedHasNoSlots(c: System)
    requires Inv(c) && c.shared.lifecycle == LifecyclePhase.Closed
    ensures c.shared.tasks == map[]
  {
    hide Recorded, Listed, AreAllWorkers, ShutdownsAgree;
  }

  lemma TakingNothing(sh: Shared)
    requires sh.tasks == map[]
    ensures EveryTaskOwnsItsHandle(sh) && Taken(sh) == [] && TakeHandles(sh) == sh
  {
    hide SortedKeys;
    var ids := SortedKeys(sh.tasks.Keys);
    assert forall k :: 0 <= k < |ids| ==> ids[k] in ids;
  }

  lemma JoinKeepsInv(c: System, i: nat)
    requires Inv(c) && Enabled(c, JoinStep(i))
    ensures !c.attempts[c.shutdowns[i].queue[c.shutdowns[i].done].handle - 1].worker.WorkerPanicked?
    ensures Inv(Turn(c, i, Joining(c.shutdowns[i].queue, c.shutdowns[i].done + 1)))
  {
    hide Listed, Recorded, AreAllWorkers, HoldsHandles, QueueIds, Numbered, ShutdownsAgree, SlotsEmptied;
    var pc := Joining(c.shutdowns[i].queue, c.shutdowns[i].done + 1);
    assert WellStaged(c.attempts[c.shutdowns[i].queue[c.shutdowns[i].done].handle - 1]);
    JoinerAgrees(c.shared, c.shared, c.shutdowns, i, pc);
    assert SomeoneJoins(c.shutdowns);
    assert c.shutdowns[i := pc][i].Joining?;
    OneMoreJoined(c, i);
    hide HoldsAll, WellStaged;
  }

  lemma OneMoreJoined(c: System, i: nat)
    requires Inv(c) && Enabled(c, JoinStep(i))
    requires !c.attempts[c.shutdowns[i].queue[c.shutdowns[i].done].handle - 1].worker.WorkerPanicked?
    ensures c.shared.lifecycle != LifecyclePhase.Closed
    ensures HoldsAll(Joining(c.shutdowns[i].queue, c.shutdowns[i].done + 1), c.attempts)
  {
    hide Listed, Recorded, AreAllWorkers, HoldsHandles, QueueIds, Numbered, ShutdownsAgree, SlotsEmptied, OneJoins;
    assert SomeoneJoins(c.shutdowns);
    assert c.shared.lifecycle == LifecyclePhase.Closed ==> HoldsNone(c.shutdowns[i]);
    assert HoldsAll(c.shutdowns[i], c.attempts);
  }

  /** Joining the whole queue is joining every worker. */
  lemma QueueJoinedMeansAllExited(queue: seq<Task>, attempts: seq<Attempt>)
    requires QueueMatches(queue, |attempts|) && AreAllWorkers(QueueIds(queue), |attempts|)
    requires AllRecorded(attempts) && JoinedSoFar(queue, |queue|, attempts)
    ensures AllExited(attempts)
  {
    var ids, n := QueueIds(queue), |attempts|;
    forall i | 0 <= i < n ensures attempts[i].stage.Returned? && attempts[i].worker.Exited? {
      assert WorkerIds(n)[i] in WorkerIds(n);
      hide WorkerIds, WorkerId, AreAllWorkers, QueueIds, Ascending;
      var k :| 0 <= k < |ids| && ids[k] == WorkerId(i + 1);
      WorkerIdsDiffer(queue[k].handle, i + 1);
    }
  }

  /** The closing shutdown held all handles; any other that is joining holds none. */
  lemma OthersHoldNone(c: System, i: nat)
    requires Inv(c) && Enabled(c, CloseStep(i)) && c.shared.lifecycle != LifecyclePhase.Closed
    ensures AllRecorded(c.attempts) && HoldsAll(c.shutdowns[i], c.attempts)
    ensures c.shared.joinedWorkerIds == [] && SlotsEmptied(c.shared.tasks, |c.attempts|)
    ensures forall k :: 0 <= k < |c.shutdowns| && k != i ==> HoldsNone(c.shutdowns[k])
  {
    hide Listed, Recorded, Numbered, ShutdownsAgree, SlotsEmptied, WorkerId;
    assert SomeoneJoins(c.shutdowns);
    forall k | 0 <= k < |c.shutdowns| && k != i
      ensures HoldsNone(c.shutdowns[k])
    {
      if c.shutdowns[k].Joining? {
        assert HoldsAll(c.shutdowns[k], c.attempts);
        EmptyQueue(c.shutdowns[k].queue, |c.attempts|);
      }
    }
  }

  lemma EmptyQueue(queue: seq<Task>, n: nat)
    requires QueueMatches(queue, n)
    ensures n == 0 ==> queue == []
  {
    assert queue != [] ==> 1 <= queue[0].handle <= n;
  }

  lemma ClosingEmptiesSlots(tasks: map<string, Option<nat>>, ids: seq<string>, n: nat)
    requires SlotsEmptied(tasks, n) && AreAllWorkers(ids, n)
    ensures tasks - Elements(ids) == map[]
  {
    hide WorkerIds, Ascending;
    forall id | id in tasks
      ensures id in Elements(ids)
    {
      assert id in WorkerIds(n) && id in ids;
    }
    assert tasks - Elements(ids) == map[];
  }

  lemma FirstCloseAgrees(sh: Shared, pcs: seq<ShutdownPc>, i: nat, joined: seq<string>)
    requires ShutdownsAgree(sh, pcs) && i < |pcs| && pcs[i].Joining? && sh.lifecycle != LifecyclePhase.Closed
    ensures ShutdownsAgree(CloseAfterJoin(sh, joined),
                           pcs[i := Finished(OutcomeOf(CloseAfterJoin(sh, joined)))])
  {
    hide FactsOf, OutcomeOf;
    var pcs' := pcs[i := Finished(OutcomeOf(CloseAfterJoin(sh, joined)))];
    assert pcs'[i].Finished?;
    forall k | 0 <= k < |pcs'|
      ensures TaskAgrees(CloseAfterJoin(sh, joined), pcs'[k])
    {
      assert TaskAgrees(sh, pcs[k]);
    }
  }

  lemma ClosedIsRetained(c: System)
    requires c.shared.lifecycle == LifecyclePhase.Closed && c.shared.tasks == map[]
    requires AllExited(c.attempts) && AreAllWorkers(c.shared.joinedWorkerIds, |c.attempts|)
    requires forall k :: 0 <= k < |c.shutdowns| ==> HoldsNone(c.shutdowns[k])
    ensures Retained(c)
  {
    hide AllExited, AreAllWorkers, HoldsNone;
  }

  lemma CloseShape(sh: Shared, joined: seq<string>)
    ensures var sh' := CloseAfterJoin(sh, joined);
            sh' == sh.(tasks := sh.tasks - Elements(joined), joinedWorkerIds := sh.joinedWorkerIds + joined,
                       lifecycle := LifecyclePhase.Closed)
  {
  }

  /** When the last handle is joined every worker has exited, and closing leaves no slot and no other holder. */
  lemma CloseAccounts(c: System, i: nat, c': System)
    requires Inv(c) && Enabled(c, CloseStep(i)) && c.shared.lifecycle != LifecyclePhase.Closed
    requires var joined := QueueIds(c.shutdowns[i].queue);
             && c'.attempts == c.attempts && c'.shared == CloseAfterJoin(c.shared, joined)
             && c'.shutdowns == c.shutdowns[i := Finished(OutcomeOf(c'.shared))]
    ensures Retained(c') && ShutdownsAgree(c'.shared, c'.shutdowns)
  {
    hide OutcomeOf, QueueIds, AreAllWorkers, SlotsEmptied, AllRecorded, AllExited, CloseAfterJoin, SomeoneJoins;
    var queue := c.shutdowns[i].queue;
    OthersHoldNone(c, i);
    hide Inv;
    QueueJoinedMeansAllExited(queue, c.attempts);
    ClosingEmptiesSlots(c.shared.tasks, QueueIds(queue), |c.attempts|);
    CloseShape(c.shared, QueueIds(queue));
    assert [] + QueueIds(queue) == QueueIds(queue);
    assert HoldsNone(c'.shutdowns[i]);
    hide HoldsNone;
    ClosedIsRetained(c');
    ShutdownsAgreeIn(c);
    FirstCloseAgrees(c.shared, c.shutdowns, i, QueueIds(queue));
  }

  lemma CloseKeepsInv(c: System, i: nat)
    requires Inv(c) && Enabled(c, CloseStep(i)) && c.shared.lifecycle != LifecyclePhase.Closed
    ensures Inv(Apply(c, CloseStep(i)))
  {
    hide Listed, Recorded, Numbered, Retained, WellStaged, ShutdownsAgree, OutcomeOf, QueueIds, CloseAfterJoin;
    var joined := QueueIds(c.shutdowns[i].queue);
    CheckingIsQuiesced(c, i);
    CloseAccounts(c, i, Apply(c, CloseStep(i)));
    CloseIsRecorded(c.shared, c.attempts, joined);
    CloseShape(c.shared, joined);
    NumberedByParts(c.shared, CloseAfterJoin(c.shared, joined), |c.attempts|);
  }

  lemma ShutdownsAgreeIn(c: System)
    requires Inv(c)
    ensures ShutdownsAgree(c.shared, c.shutdowns)
  {
  }

  lemma CloseIsRecorded(sh: Shared, attempts: seq<Attempt>, joined: seq<string>)
    requires Recorded(sh, attempts) && sh.lifecycle != LifecyclePhase.Running
    ensures Recorded(CloseAfterJoin(sh, joined), attempts)
  {
    hide IdentityOf;
    forall op | op in sh.records ensures RecordAgrees(CloseAfterJoin(sh, joined), attempts, op) {
      assert RecordAgrees(sh, attempts, op);
    }
  }

  /** A later shutdown takes nothing, joins nothing and closes what is closed. */
  lemma ClosingAgainChangesNothing(c: System, i: nat)
    requires Inv(c) && Enabled(c, CloseStep(i)) && c.shared.lifecycle == LifecyclePhase.Closed
    ensures c.shutdowns[i].queue == []
    ensures CloseAfterJoin(c.shared, QueueIds(c.shutdowns[i].queue)) == c.shared
  {
    hide Listed, Recorded, AreAllWorkers, WorkerIds, ShutdownsAgree;
    assert HoldsNone(c.shutdowns[i]);
    assert QueueIds(c.shutdowns[i].queue) == [];
    assert c.shared.joinedWorkerIds + [] == c.shared.joinedWorkerIds;
  }

  lemma LaterCloseAgrees(sh: Shared, pcs: seq<ShutdownPc>, i: nat)
    requires ShutdownsAgree(sh, pcs) && i < |pcs| && sh.lifecycle == LifecyclePhase.Closed
    ensures ShutdownsAgree(sh, pcs[i := Finished(OutcomeOf(sh))])
  {
    hide OutcomeOf;
    assert pcs[i := Finished(OutcomeOf(sh))][i].Finished?;
  }

  lemma ClosedAccounts(c: System)
    requires Inv(c) && c.shared.lifecycle == LifecyclePhase.Closed
    ensures c.shared.tasks == map[] && AllExited(c.attempts)
    ensures AreAllWorkers(c.shared.joinedWorkerIds, |c.attempts|)
    ensures forall k :: 0 <= k < |c.shutdowns| ==> HoldsNone(c.shutdowns[k])
  {
    hide Listed, Recorded, AreAllWorkers, AllExited, HoldsNone, ShutdownsAgree, Numbered, WellStaged;
  }

  /** So it reports what the first one reported, and the state is as it was. */
  lemma CloseAgainKeepsInv(c: System, i: nat)
    requires Inv(c) && Enabled(c, CloseStep(i)) && c.shared.lifecycle == LifecyclePhase.Closed
    ensures var c' := Apply(c, CloseStep(i));
            && Inv(c') && c'.shared == c.shared && c'.attempts == c.attempts
            && Started(c', i) && c'.shutdowns[i] == Finished(OutcomeOf(c.shared))
  {
    hide CloseAfterJoin, OutcomeOf, Inv, QueueIds, Apply, Enabled;
    JoiningWhenClosing(c, i);
    FinishingKeepsInv(c, i);
    ClosingAgainChangesNothing(c, i);
    IdleCloseInFull(c, i);
  }

  lemma JoiningWhenClosing(c: System, i: nat)
    requires Enabled(c, CloseStep(i))
    ensures Started(c, i) && c.shutdowns[i].Joining?
  {
  }

  lemma FinishingKeepsInv(c: System, i: nat)
    requires Inv(c) && Started(c, i) && c.shared.lifecycle == LifecyclePhase.Closed
    ensures Inv(Turn(c, i, Finished(OutcomeOf(c.shared))))
  {
    hide OutcomeOf, Inv, Retained, ShutdownsAgree, AreAllWorkers, AllExited, QueueIds;
    var pcs' := c.shutdowns[i := Finished(OutcomeOf(c.shared))];
    ClosedAccounts(c);
    ShutdownsAgreeIn(c);
    LaterCloseAgrees(c.shared, c.shutdowns, i);
    forall k | 0 <= k < |pcs'|
      ensures HoldsNone(pcs'[k])
    {
      assert HoldsNone(c.shutdowns[k]);
    }
    hide HoldsNone;
    ClosedIsRetained(c.(shutdowns := pcs'));
    OtherShutdownsKeepInv(c, pcs');
  }

  lemma IdleCloseInFull(c: System, i: nat)
    requires Enabled(c, CloseStep(i)) && CloseAfterJoin(c.shared, QueueIds(c.shutdowns[i].queue)) == c.shared
    ensures Apply(c, CloseStep(i)) == Turn(c, i, Finished(OutcomeOf(c.shared)))
  {
    hide CloseAfterJoin, OutcomeOf, QueueIds;
  }

  lemma OtherShutdownsKeepInv(c: System, pcs: seq<ShutdownPc>)
    requires Inv(c) && Retained(c.(shutdowns := pcs)) && ShutdownsAgree(c.shared, pcs)
    ensures Inv(c.(shutdowns := pcs))
  {
    hide Listed, Recorded, Retained, ShutdownsAgree, Numbered, WellStaged;
  }

  // ---------- every step, every run ----------

  lemma StageHolds(c: System, s: nat)
    requires Inv(c) && Known(c, s)
    ensures WellStaged(c.attempts[s - 1])
  {
  }

  lemma AttemptStepKeepsInv(c: System, step: Step)
    requires Inv(c) && Enabled(c, step)
    requires step.SpawnStep? || step.CommandStep? || step.ReceiveStep? || step.ExitStep?
    ensures Inv(Apply(c, step))
  {
    hide Inv;
    StageHolds(c, step.s);
    match step {
      case SpawnStep(s) => MoveKeepsInv(c, s, AwaitInsert, AwaitCommand);
      case CommandStep(s, command) => MoveKeepsInv(c, s, Returned, Commanded(CommandOutcome(command)));
      case ReceiveStep(s) => MoveKeepsInv(c, s, Returned, AwaitExit(c.attempts[s - 1].worker.outcome));
      case ExitStep(s) => MoveKeepsInv(c, s, Returned, Exited(c.attempts[s - 1].worker.outcome));
    }
  }

  lemma QuiesceStepKeepsInv(c: System, step: Step)
    requires Inv(c) && Enabled(c, step) && (step.QuiesceStep? || step.ShutdownQuiesceStep?)
    ensures Inv(Apply(c, step))
  {
    hide Inv, Quiesce;
    QuiesceKeepsInv(c, Apply(c, step));
  }

  lemma TurnStepKeepsInv(c: System, step: Step)
    requires Inv(c) && Enabled(c, step) && (step.SpuriousWakeStep? || step.AnnounceStep?)
    ensures Inv(Apply(c, step))
  {
    hide Inv, Quiesce;
    CheckingIsQuiesced(c, step.i);
    TurnKeepsInv(c, step.i, Checking);
    EnvironmentIsIrrelevant(Turn(c, step.i, Checking), Apply(c, step));
  }

  /** What the environment still has in hand is not part of the accounting. */
  lemma EnvironmentIsIrrelevant(c: System, c': System)
    requires Inv(c) && c'.shared == c.shared && c'.attempts == c.attempts && c'.shutdowns == c.shutdowns
    ensures Inv(c')
  {
    hide Numbered, WellStaged, Listed, Recorded, ShutdownsAgree, AreAllWorkers, HoldsAll, HoldsHandles, SlotsEmptied;
  }

  lemma ShutdownStepKeepsInv(c: System, step: Step)
    requires Inv(c) && Enabled(c, step)
    requires step.SpuriousWakeStep? || step.BeginShutdownStep? || step.ShutdownQuiesceStep? || step.AnnounceStep?
          || step.CheckStep? || step.JoinStep? || step.CloseStep?
    ensures Inv(Apply(c, step))
  {
    hide Inv, ApplyCheck, Quiesce, CloseAfterJoin, OutcomeOf, QueueIds;
    match step {
      case BeginShutdownStep => BeginKeepsInv(c, Apply(c, step));
      case ShutdownQuiesceStep(_) => QuiesceStepKeepsInv(c, step);
      case CheckStep(i) => CheckKeepsInv(c, i);
      case JoinStep(i) => JoinKeepsInv(c, i);
      case CloseStep(i) =>
        if c.shared.lifecycle == LifecyclePhase.Closed {
          CloseAgainKeepsInv(c, i);
        } else {
          CloseKeepsInv(c, i);
        }
      case _ => TurnStepKeepsInv(c, step);
    }
  }

  /** The invariant is inductive: no thread's `expect` fires and no accounting is lost, whatever the interleaving. */
  lemma StepKeepsInv(c: System, step: Step)
    requires Inv(c) && Enabled(c, step)
    ensures Inv(Apply(c, step))
  {
    hide Inv, ApplyRecord, ApplyCheck, Quiesce, PublishProgress, Admit, InsertTask;
    match step {
      case ReserveStep(operationId) => ReserveKeepsInv(c, operationId);
      case InsertStep(s) => InsertKeepsInv(c, s, Apply(c, step));
      case RecordStep(s) => RecordKeepsInv(c, s);
      case PublishStep(s, value) => PublishKeepsInv(c, Apply(c, step), c.attempts[s - 1].operationId, value);
      case QuiesceStep => QuiesceStepKeepsInv(c, step);
      case SpawnStep(_) => AttemptStepKeepsInv(c, step);
      case CommandStep(_, _) => AttemptStepKeepsInv(c, step);
      case ReceiveStep(_) => AttemptStepKeepsInv(c, step);
      case ExitStep(_) => AttemptStepKeepsInv(c, step);
      case _ => ShutdownStepKeepsInv(c, step);
    }
  }

  lemma InitialInv(progressCapacity: nat, calls: nat, requests: nat, extras: nat)
    ensures Inv(InitialSystem(progressCapacity, calls, requests, extras))
  {
    assert WorkerIds(0) == [];
  }

  lemma {:induction false} RunKeepsInv(c: System, steps: seq<Step>)
    requires Inv(c) && Runs(c, steps)
    ensures Inv(Exec(c, steps))
    decreases |steps|
  {
    hide Inv, Enabled, Apply;
    if steps != [] {
      StepKeepsInv(c, steps[0]);
      RunKeepsInv(Apply(c, steps[0]), steps[1..]);
    }
  }
}

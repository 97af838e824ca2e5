/** What the supervisor guarantees on every interleaving. */
module SupervisorTheorems {
  import opened Wrappers
  import opened ByteOrder
  import opened Collections
  import opened Identifiers
  import opened Lifecycle
  import opened Supervisor
  import opened SupervisorSystem
  import opened SupervisorSafety

  // ---------- safety ----------

  lemma AllWorkersOnce(ids: seq<string>, n: nat)
    requires AreAllWorkers(ids, n)
    ensures NoDuplicates(ids) && NoDuplicates(WorkerIds(n)) && Permuted(WorkerIds(n), ids) && |ids| == n
    ensures ids == WorkerIds(n) <==> n <= 9
  {
    AscendingHasNoDuplicates(ids);
    WorkerIdsAreDistinct(n);
    JoinOrderEqualsAdmissionOrderUpToNine(n, ids);
    hide WorkerIds, Ascending;
    assert NoDuplicates(ids) && NoDuplicates(WorkerIds(n));
    SameMembersPermuted(WorkerIds(n), ids);
    PermutedKeepsBasics(WorkerIds(n), ids);
  }

  lemma NoLiveAttemptMeansNoneActive(active: map<string, nat>, attempts: seq<Attempt>)
    requires Listed(active, attempts) && forall i :: 0 <= i < |attempts| ==> !attempts[i].Live()
    ensures active == map[]
  {
    forall op ensures op !in active {
    }
  }

  lemma ClosedFactsOf(c: System)
    requires Inv(c) && c.shared.lifecycle == LifecyclePhase.Closed
    ensures var n := |c.attempts|;
            && FactsOf(c.shared) == ClosedFacts(LifecyclePhase.Closed, 0, 0, n, n)
            && AllExited(c.attempts) && AreAllWorkers(c.shared.joinedWorkerIds, n)
            && c.shared.expectedWorkerIds == WorkerIds(n)
  {
    hide Recorded, AreAllWorkers, WorkerIds, HoldsHandles, ShutdownsAgree;
    NoLiveAttemptMeansNoneActive(c.shared.active, c.attempts);
    AllWorkersOnce(c.shared.joinedWorkerIds, |c.attempts|);
  }

  predicate HasFinished(c: System, i: nat) {
    Started(c, i) && c.shutdowns[i].Finished?
  }

  /**
   In every interleaving of any number of shutdowns, each one that completes reports an empty, closed
   supervisor. The joined workers are the expected ones, listed in byte order, every worker having
   exited; all completed shutdowns report the same outcome; and the two id lists are equal as
   sequences for at most nine workers and no more.
   */
  lemma EveryShutdownAccountsForEveryWorker(
      capacity: nat, calls: nat, requests: nat, extras: nat, steps: seq<Step>, i: nat)
    requires Runs(InitialSystem(capacity, calls, requests, extras), steps)
    requires HasFinished(Exec(InitialSystem(capacity, calls, requests, extras), steps), i)
    ensures var c := Exec(InitialSystem(capacity, calls, requests, extras), steps);
            var o, n := c.shutdowns[i].outcome, |c.attempts|;
            && o == OutcomeOf(c.shared)
            && o.facts == ClosedFacts(LifecyclePhase.Closed, 0, 0, n, n)
            && o.expectedWorkerIds == WorkerIds(n)
            && o.Validate() == Pass && o.AccountsForEveryWorker()
            && Ascending(o.joinedWorkerIds)
            && (o.joinedWorkerIds == o.expectedWorkerIds <==> n <= 9)
            && AllExited(c.attempts)
  {
    var start := InitialSystem(capacity, calls, requests, extras);
    hide InitialSystem, Inv;
    InitialInv(capacity, calls, requests, extras);
    RunKeepsInv(start, steps);
    OutcomeIsComplete(Exec(start, steps), i);
  }

  lemma OutcomeIsComplete(c: System, i: nat)
    requires Inv(c) && HasFinished(c, i)
    ensures var o, n := c.shutdowns[i].outcome, |c.attempts|;
            && o == OutcomeOf(c.shared)
            && o.facts == ClosedFacts(LifecyclePhase.Closed, 0, 0, n, n)
            && o.expectedWorkerIds == WorkerIds(n)
            && o.Validate() == Pass && o.AccountsForEveryWorker()
            && Ascending(o.joinedWorkerIds)
            && (o.joinedWorkerIds == o.expectedWorkerIds <==> n <= 9)
            && AllExited(c.attempts)
  {
    var o := c.shutdowns[i].outcome;
    FinishedReportsTheState(c, i);
    assert Ascending(o.joinedWorkerIds) by {
      ClosedFactsOf(c);
    }
    hide Inv, AreAllWorkers, WorkerIds, AllExited, FactsOf, Ascending;
    ClosedFactsOf(c);
    AllWorkersOnce(c.shared.joinedWorkerIds, |c.attempts|);
    assert o.AccountsForEveryWorker();
    o.ValidateAcceptsExactAccounting();
  }

  lemma FinishedReportsTheState(c: System, i: nat)
    requires Inv(c) && HasFinished(c, i)
    ensures c.shared.lifecycle == LifecyclePhase.Closed && c.shutdowns[i].outcome == OutcomeOf(c.shared)
  {
    hide Recorded, Listed, Retained, OutcomeOf, Numbered;
    assert TaskAgrees(c.shared, c.shutdowns[i]);
  }

  /**
   Whenever no attempt is active and no shutdown holds the handles, `tasks` has a handle for every
   expected worker: a worker only runs once its handle was stored, since the command that starts it
   travels through the operation `reserve` returns afterwards.
   */
  lemma NoneActiveMeansNoHandleIsMissing(c: System)
    requires Inv(c) && c.shared.active == map[]
    requires c.shared.lifecycle != LifecyclePhase.Closed && !SomeoneJoins(c.shutdowns)
    ensures EveryTaskOwnsItsHandle(c.shared)
    ensures forall id :: id in c.shared.expectedWorkerIds <==> id in c.shared.tasks
  {
    hide Recorded, WellStaged, ShutdownsAgree, SomeoneJoins, HoldsAll, SlotsEmptied, OneJoins;
    NoneActiveMeansAllHandlesStored(c.attempts);
    TakenIsEveryWorker(c.shared, c.attempts);
  }

  /** `Closed` is never set before every admitted worker recorded its terminal, left `active` and exited. */
  lemma ClosedMeansEveryWorkerExited(c: System)
    requires Inv(c) && c.shared.lifecycle == LifecyclePhase.Closed
    ensures AllExited(c.attempts) && c.shared.active == map[] && c.shared.tasks == map[]
    ensures forall op :: op in c.shared.records ==>
              && c.shared.records[op].phase.Released?
              && c.shared.records[op].authoritativeTerminal.Some?
              && c.shared.records[op].authoritativeTerminal == c.shared.records[op].finalProjection
  {
    hide AreAllWorkers, IdentityOf, WorkerIds, ShutdownsAgree;
    NoLiveAttemptMeansNoneActive(c.shared.active, c.attempts);
    forall op | op in c.shared.records ensures c.shared.records[op].phase.Released? {
      assert RecordAgrees(c.shared, c.attempts, op);
    }
    assert forall op :: op in c.shared.records ==> RecordAgrees(c.shared, c.attempts, op);
  }

  /** No lost wakeup: a shutdown asleep on the condition variable still has an active attempt to wait for. */
  lemma SleeperHasSomeoneToWaitFor(c: System, i: nat)
    requires Inv(c) && Started(c, i) && c.shutdowns[i].Asleep?
    ensures exists k :: 0 <= k < |c.attempts| && c.attempts[k].Live()
  {
    hide Recorded, Retained, OutcomeOf, Numbered;
    assert TaskAgrees(c.shared, c.shutdowns[i]);
    var op :| op in c.shared.active;
    assert c.attempts[c.shared.active[op] - 1].Live();
  }

  /** Some interleaving of some calls, workers, clients and shutdowns leads here from the start. */
  ghost predicate Reachable(c: System) {
    exists capacity: nat, calls: nat, requests: nat, extras: nat, steps: seq<Step> ::
      Runs(InitialSystem(capacity, calls, requests, extras), steps)
      && Exec(InitialSystem(capacity, calls, requests, extras), steps) == c
  }

  lemma ReachableKeepsInv(c: System)
    requires Reachable(c)
    ensures Inv(c)
  {
    hide Inv, InitialSystem, Runs, Exec;
    var capacity, calls, requests, extras, steps :|
      Runs(InitialSystem(capacity, calls, requests, extras), steps)
      && Exec(InitialSystem(capacity, calls, requests, extras), steps) == c;
    InitialInv(capacity, calls, requests, extras);
    RunKeepsInv(InitialSystem(capacity, calls, requests, extras), steps);
  }

  /** What nothing the threads do can break. */
  lemma ReachableStatesAreSafe(c: System)
    requires Reachable(c)
    ensures forall i :: 0 <= i < |c.attempts| ==> !c.attempts[i].worker.WorkerPanicked?
    ensures (exists i :: 0 <= i < |c.shutdowns| && c.shutdowns[i].Asleep?) ==>
              exists k :: 0 <= k < |c.attempts| && c.attempts[k].Live()
    ensures c.shared.active == map[] && c.shared.lifecycle != LifecyclePhase.Closed && !SomeoneJoins(c.shutdowns) ==>
              && EveryTaskOwnsItsHandle(c.shared)
              && forall id :: id in c.shared.expectedWorkerIds <==> id in c.shared.tasks
    ensures c.shared.lifecycle == LifecyclePhase.Closed ==>
              AllExited(c.attempts) && c.shared.active == map[] && c.shared.tasks == map[]
    ensures c.shared.lifecycle == LifecyclePhase.Closed <==> SomeoneFinished(c.shutdowns)
    ensures SomeoneCrashed(c.shutdowns) ==> SomeoneJoins(c.shutdowns) || SomeoneFinished(c.shutdowns)
  {
    ReachableKeepsInv(c);
    ClosedIffSomeoneFinished(c);
    NoWorkerPanicked(c);
    hide Inv, AllExited, EveryTaskOwnsItsHandle, Reachable, SomeoneJoins, SomeoneFinished, SomeoneCrashed;
    if i :| 0 <= i < |c.shutdowns| && c.shutdowns[i].Asleep? {
      SleeperHasSomeoneToWaitFor(c, i);
    }
    if c.shared.lifecycle == LifecyclePhase.Closed {
      ClosedMeansEveryWorkerExited(c);
    } else if c.shared.active == map[] && !SomeoneJoins(c.shutdowns) {
      NoneActiveMeansNoHandleIsMissing(c);
    }
  }

  lemma ClosedIffSomeoneFinished(c: System)
    requires Inv(c)
    ensures c.shared.lifecycle == LifecyclePhase.Closed <==> SomeoneFinished(c.shutdowns)
    ensures SomeoneCrashed(c.shutdowns) ==> SomeoneJoins(c.shutdowns) || SomeoneFinished(c.shutdowns)
  {
    hide SomeoneJoins, SomeoneCrashed;
    if i :| 0 <= i < |c.shutdowns| && c.shutdowns[i].Finished? {
      FinishedReportsTheState(c, i);
    }
    hide Recorded, Listed, Retained, OutcomeOf, Numbered, WellStaged;
  }

  lemma NoWorkerPanicked(c: System)
    requires Inv(c)
    ensures forall i :: 0 <= i < |c.attempts| ==> !c.attempts[i].worker.WorkerPanicked?
  {
    hide Listed, Recorded, Retained, ShutdownsAgree;
  }

  // ---------- shutdowns that overlap ----------

  /** Another shutdown has taken the handles of at least one worker and has not closed yet. */
  ghost predicate InsideJoin(c: System) {
    c.shared.lifecycle != LifecyclePhase.Closed && SomeoneJoins(c.shutdowns) && c.attempts != []
  }

  predicate HasCrashed(c: System, i: nat) {
    Started(c, i) && c.shutdowns[i].Crashed?
  }

  /** Task `i` reached its take inside the join of another at some point of the run. */
  ghost predicate TookInsideJoin(c: System, steps: seq<Step>, i: nat)
    requires Runs(c, steps)
    decreases |steps|
  {
    steps != [] &&
    ((steps[0] == CheckStep(i) && InsideJoin(c)) || TookInsideJoin(Apply(c, steps[0]), steps[1..], i))
  }

  lemma JoiningMeansNoneActive(c: System)
    requires Inv(c) && c.shared.lifecycle != LifecyclePhase.Closed && SomeoneJoins(c.shutdowns)
    ensures c.shared.active == map[]
  {
    hide Recorded, HoldsAll, SlotsEmptied, ShutdownsAgree, SomeoneJoins, OneJoins, Numbered, WellStaged;
    NoLiveAttemptMeansNoneActive(c.shared.active, c.attempts);
  }

  lemma OtherStepsCrashNobody(c: System, step: Step, i: nat)
    requires Enabled(c, step) && !step.CheckStep? && !step.JoinStep?
    ensures HasCrashed(Apply(c, step), i) == HasCrashed(c, i)
  {
    hide WorkerId, Admit, QueueIds, Quiesce, CloseAfterJoin, OutcomeOf, PublishProgress, RecordRelease;
  }

  lemma CheckCrashesOnlyItself(c: System, i: nat, k: nat)
    requires Started(c, i) && k != i
    ensures HasCrashed(ApplyCheck(c, i), k) == HasCrashed(c, k)
  {
    hide Taken, FailedTake, TakeHandles, EveryTaskOwnsItsHandle;
  }

  /** A step crashes a shutdown exactly if it is that shutdown's take, inside the join of another. */
  lemma StepCrashes(c: System, step: Step, i: nat)
    requires Inv(c) && Enabled(c, step)
    ensures HasCrashed(Apply(c, step), i) <==> HasCrashed(c, i) || (step == CheckStep(i) && InsideJoin(c))
  {
    hide Inv, ApplyCheck, SomeoneJoins;
    if step.CheckStep? {
      CheckKeepsInv(c, step.i);
      if c.shared.lifecycle != LifecyclePhase.Closed && SomeoneJoins(c.shutdowns) {
        JoiningMeansNoneActive(c);
      }
      if step.i != i {
        CheckCrashesOnlyItself(c, step.i, i);
      } else {
        CheckKeepsTheTask(c, i);
      }
    } else if step.JoinStep? {
      JoinKeepsInv(c, step.i);
    } else {
      hide Apply;
      OtherStepsCrashNobody(c, step, i);
    }
  }

  lemma CheckKeepsTheTask(c: System, i: nat)
    requires Started(c, i)
    ensures Started(ApplyCheck(c, i), i)
  {
    hide Taken, FailedTake, TakeHandles, EveryTaskOwnsItsHandle;
  }

  lemma {:induction false} RunCrashes(c: System, steps: seq<Step>, i: nat)
    requires Inv(c) && Runs(c, steps)
    ensures HasCrashed(Exec(c, steps), i) <==> HasCrashed(c, i) || TookInsideJoin(c, steps, i)
    decreases |steps|
  {
    hide Inv, Enabled, Apply, HasCrashed, InsideJoin;
    if steps != [] {
      StepKeepsInv(c, steps[0]);
      StepCrashes(c, steps[0], i);
      RunCrashes(Apply(c, steps[0]), steps[1..], i);
    }
  }

  /**
   With any number of shutdowns in flight, one panics exactly if its take fell inside the join of another while
   there are workers; no other step of any thread panics it.
   */
  lemma ShutdownPanicsIffItTookInsideAnothersJoin(
      capacity: nat, calls: nat, requests: nat, extras: nat, steps: seq<Step>, i: nat)
    requires Runs(InitialSystem(capacity, calls, requests, extras), steps)
    ensures HasCrashed(Exec(InitialSystem(capacity, calls, requests, extras), steps), i)
       <==> TookInsideJoin(InitialSystem(capacity, calls, requests, extras), steps, i)
  {
    hide InitialSystem, Inv, TookInsideJoin;
    InitialInv(capacity, calls, requests, extras);
    RunCrashes(InitialSystem(capacity, calls, requests, extras), steps, i);
    assert !HasCrashed(InitialSystem(capacity, calls, requests, extras), i) by {
      StartsWithoutShutdowns(capacity, calls, requests, extras);
    }
  }

  lemma StartsWithoutShutdowns(capacity: nat, calls: nat, requests: nat, extras: nat)
    ensures InitialSystem(capacity, calls, requests, extras).shutdowns == []
  {
  }

  /** Once quiescing, always quiescing: no later step admits an attempt. */
  lemma {:induction false} AdmissionClosesForGood(c: System, steps: seq<Step>)
    requires Runs(c, steps) && c.shared.lifecycle != LifecyclePhase.Running
    ensures Exec(c, steps).shared.lifecycle != LifecyclePhase.Running
    ensures |Exec(c, steps).attempts| == |c.attempts|
    ensures Exec(c, steps).shared.expectedWorkerIds == c.shared.expectedWorkerIds
    decreases |steps|
  {
    if steps != [] {
      QuiescedStepAdmitsNone(c, steps[0]);
      hide Apply, Enabled;
      AdmissionClosesForGood(Apply(c, steps[0]), steps[1..]);
    }
  }

  lemma QuiescedStepAdmitsNone(c: System, step: Step)
    requires Enabled(c, step) && c.shared.lifecycle != LifecyclePhase.Running
    ensures var c' := Apply(c, step);
            && c'.shared.lifecycle != LifecyclePhase.Running
            && |c'.attempts| == |c.attempts|
            && c'.shared.expectedWorkerIds == c.shared.expectedWorkerIds
  {
    hide WorkerId, Admit, Taken, QueueIds, FailedTake, EveryTaskOwnsItsHandle, OutcomeOf;
    if step.CheckStep? {
      FailedTakeShape(c.shared);
    }
  }

  lemma FailedTakeShape(sh: Shared)
    ensures FailedTake(sh) == sh.(tasks := FailedTake(sh).tasks)
  {
    hide SortedKeys, OwnedPrefix, Emptied;
  }
}

/** Every run of the supervisor ends, and how. */
module SupervisorLiveness {
  import opened Identifiers
  import opened Lifecycle
  import opened ProgressRing
  import opened Supervisor
  import opened SupervisorSystem
  import opened SupervisorSafety
  import opened SupervisorTheorems

  // ---------- one measure for all threads ----------

  /** Shutdowns started and still to start: as many as one notification can wake. */
  function Weight(c: System): nat {
    |c.shutdowns| + c.requests
  }

  /** Steps still to come from one attempt, with one more until it is joined; `w` for the notification it owes. */
  function Potential(a: Attempt, w: nat): nat {
    match a.worker
    case Unborn => 9 + w
    case AwaitCommand => if a.stage.Returned? then 7 + w else 8 + w
    case Commanded(_) => 6 + w
    case AwaitReceiver(_) => 4
    case AwaitExit(_) => 3
    case Exited(_) => 2
    case WorkerPanicked => 2
  }

  function Potentials(attempts: seq<Attempt>, w: nat): (r: nat)
    ensures r >= 2 * |attempts|
  {
    if attempts == [] then 0 else Potential(attempts[0], w) + Potentials(attempts[1..], w)
  }

  lemma {:induction false} PotentialsUpdate(attempts: seq<Attempt>, w: nat, i: nat, b: Attempt)
    requires i < |attempts|
    ensures Potentials(attempts[i := b], w) == Potentials(attempts, w) - Potential(attempts[i], w) + Potential(b, w)
  {
    if i > 0 {
      assert attempts[i := b][1..] == attempts[1..][i - 1 := b];
      PotentialsUpdate(attempts[1..], w, i - 1, b);
    } else {
      assert attempts[i := b][1..] == attempts[1..];
    }
  }

  lemma {:induction false} PotentialsAppend(attempts: seq<Attempt>, w: nat, b: Attempt)
    ensures Potentials(attempts + [b], w) == Potentials(attempts, w) + Potential(b, w)
  {
    if attempts != [] {
      assert (attempts + [b])[1..] == attempts[1..] + [b];
      PotentialsAppend(attempts[1..], w, b);
    }
  }

  /** Steps still to come from one shutdown task, less the handles it has joined. */
  function Value(pc: ShutdownPc, w: nat): int {
    match pc
    case Begun => 6 + w
    case Announcing => 5
    case Checking => 4
    case Asleep => 3
    case Joining(_, done) => 2 - done
    case Finished(_) => 0
    case Crashed => 0
  }

  function Values(pcs: seq<ShutdownPc>, w: nat): int {
    if pcs == [] then 0 else Value(pcs[0], w) + Values(pcs[1..], w)
  }

  lemma {:induction false} ValuesUpdate(pcs: seq<ShutdownPc>, w: nat, i: nat, pc: ShutdownPc)
    requires i < |pcs|
    ensures Values(pcs[i := pc], w) == Values(pcs, w) - Value(pcs[i], w) + Value(pc, w)
  {
    if i > 0 {
      assert pcs[i := pc][1..] == pcs[1..][i - 1 := pc];
      ValuesUpdate(pcs[1..], w, i - 1, pc);
    } else {
      assert pcs[i := pc][1..] == pcs[1..];
    }
  }

  lemma {:induction false} ValuesAppend(pcs: seq<ShutdownPc>, w: nat, pc: ShutdownPc)
    ensures Values(pcs + [pc], w) == Values(pcs, w) + Value(pc, w)
  {
    if pcs != [] {
      assert (pcs + [pc])[1..] == pcs[1..] + [pc];
      ValuesAppend(pcs[1..], w, pc);
    }
  }

  /** A notification costs at most one step for each task. */
  lemma {:induction false} ValuesNotified(pcs: seq<ShutdownPc>, w: nat)
    ensures Values(NotifyAll(pcs), w) <= Values(pcs, w) + |pcs|
  {
    if pcs != [] {
      assert NotifyAll(pcs)[1..] == NotifyAll(pcs[1..]);
      ValuesNotified(pcs[1..], w);
    }
  }

  /** With at most one joiner, no more is subtracted than it can have joined. */
  lemma {:induction false} ValuesBounded(pcs: seq<ShutdownPc>, w: nat, n: nat)
    requires forall k :: 0 <= k < |pcs| && pcs[k].Joining? ==> pcs[k].done <= n
    requires n > 0 ==> OneJoins(pcs)
    ensures Values(pcs, w) + n >= 0
    ensures !SomeoneJoins(pcs) ==> Values(pcs, w) >= 0
  {
    if pcs != [] {
      var rest := pcs[1..];
      assert forall k :: 0 <= k < |rest| ==> rest[k] == pcs[k + 1];
      ValuesBounded(rest, w, n);
      if pcs[0].Joining? && n > 0 {
        assert forall k :: 0 <= k < |rest| ==> !rest[k].Joining?;
      } else if !SomeoneJoins(pcs) {
        assert forall k :: 0 <= k < |rest| ==> !rest[k].Joining?;
      }
    }
  }

  /** What the environment can still do. */
  function Budget(calls: nat, requests: nat, extras: nat, w: nat): nat {
    (14 + w) * calls + (10 + w) * requests + (2 + w) * extras
  }

  lemma Spend(calls: nat, requests: nat, extras: nat, w: nat)
    ensures Budget(calls + 1, requests, extras, w) == Budget(calls, requests, extras, w) + 14 + w
    ensures Budget(calls, requests + 1, extras, w) == Budget(calls, requests, extras, w) + 10 + w
    ensures Budget(calls, requests, extras + 1, w) == Budget(calls, requests, extras, w) + 2 + w
  {
    assert (14 + w) * (calls + 1) == (14 + w) * calls + 14 + w;
    assert (10 + w) * (requests + 1) == (10 + w) * requests + 10 + w;
    assert (2 + w) * (extras + 1) == (2 + w) * extras + 2 + w;
  }

  function Measure(c: System): int {
    var w := Weight(c);
    Budget(c.calls, c.requests, c.extras, w) + Potentials(c.attempts, w) + Values(c.shutdowns, w)
    - |c.shared.joinedWorkerIds|
  }

  lemma MeasureIsNatural(c: System)
    requires Inv(c)
    ensures Measure(c) >= 0
  {
    hide Recorded, Listed, HoldsHandles, AreAllWorkers, WorkerIds, ShutdownsAgree, Potentials, Budget, Values;
    var n := |c.attempts|;
    if c.shared.lifecycle == LifecyclePhase.Closed {
      AllWorkersOnce(c.shared.joinedWorkerIds, n);
      ValuesBounded(c.shutdowns, Weight(c), 0);
    } else {
      DoneIsBounded(c);
      if SomeoneJoins(c.shutdowns) {
        ValuesBounded(c.shutdowns, Weight(c), n);
      } else {
        ValuesBounded(c.shutdowns, Weight(c), 0);
      }
    }
  }

  lemma DoneIsBounded(c: System)
    requires Inv(c) && c.shared.lifecycle != LifecyclePhase.Closed
    ensures forall k :: 0 <= k < |c.shutdowns| && c.shutdowns[k].Joining? ==> c.shutdowns[k].done <= |c.attempts|
    ensures |c.attempts| > 0 && SomeoneJoins(c.shutdowns) ==> OneJoins(c.shutdowns)
  {
    hide Recorded, Listed, HoldsHandles, WorkerIds, ShutdownsAgree, QueueMatches, OneJoins, WellStaged;
    forall k | 0 <= k < |c.shutdowns| && c.shutdowns[k].Joining?
      ensures c.shutdowns[k].done <= |c.attempts|
    {
      assert SomeoneJoins(c.shutdowns);
      assert HoldsAll(c.shutdowns[k], c.attempts);
      hide AreAllWorkers;
      AllWorkersOnce(QueueIds(c.shutdowns[k].queue), |c.attempts|);
    }
  }

  // ---------- every step costs ----------

  lemma MoveDecreases(c: System, c': System, s: nat)
    requires Known(c, s) && |c'.attempts| == |c.attempts|
    requires c'.attempts == c.attempts[s - 1 := c'.attempts[s - 1]]
    requires Potential(c'.attempts[s - 1], Weight(c)) < Potential(c.attempts[s - 1], Weight(c))
    requires c'.calls == c.calls && c'.requests == c.requests && c'.extras == c.extras
    requires c'.shutdowns == c.shutdowns && c'.shared.joinedWorkerIds == c.shared.joinedWorkerIds
    ensures Measure(c') < Measure(c)
  {
    PotentialsUpdate(c.attempts, Weight(c), s - 1, c'.attempts[s - 1]);
    hide Potentials, Potential, Values, Budget;
  }

  lemma AttemptStepDecreases(c: System, step: Step)
    requires step.SpawnStep? || step.InsertStep? || step.CommandStep? || step.ReceiveStep? || step.ExitStep?
    requires Enabled(c, step) && WellStaged(c.attempts[step.s - 1])
    ensures Measure(Apply(c, step)) < Measure(c)
  {
    hide Measure, WorkerId, CommandOutcome;
    MoveDecreases(c, Apply(c, step), step.s);
  }

  lemma RecordStepDecreases(c: System, s: nat)
    requires Enabled(c, RecordStep(s))
    ensures Measure(ApplyRecord(c, s)) < Measure(c)
  {
    hide Potentials, Values, Budget, NotifyAll;
    var i, c' := s - 1, ApplyRecord(c, s);
    ValuesNotified(c.shutdowns, Weight(c));
    PotentialsUpdate(c.attempts, Weight(c), i, c'.attempts[i]);
    assert c'.attempts == c.attempts[i := c'.attempts[i]];
  }

  lemma ReserveStepDecreases(c: System, operationId: string)
    requires c.calls > 0
    ensures Measure(Apply(c, ReserveStep(operationId))) < Measure(c)
  {
    hide WorkerId, Potentials, IdentityOf, Budget, Values;
    PotentialsAppend(c.attempts, Weight(c), Attempt(operationId, AwaitSpawn, Unborn));
    Spend(c.calls - 1, c.requests, c.extras, Weight(c));
  }

  /** A task that only moves on, with the shared state untouched where it counts. */
  lemma TurnDecreases(c: System, c': System, i: nat, pc: ShutdownPc)
    requires Started(c, i) && c'.shutdowns == c.shutdowns[i := pc] && c'.attempts == c.attempts
    requires c'.calls == c.calls && c'.requests == c.requests && c'.extras == c.extras
    requires Value(pc, Weight(c)) - |c'.shared.joinedWorkerIds|
           < Value(c.shutdowns[i], Weight(c)) - |c.shared.joinedWorkerIds|
    ensures Measure(c') < Measure(c)
  {
    hide Potentials, Values, Budget, Value;
    ValuesUpdate(c.shutdowns, Weight(c), i, pc);
  }

  lemma CheckStepDecreases(c: System, i: nat)
    requires Enabled(c, CheckStep(i))
    ensures Measure(ApplyCheck(c, i)) < Measure(c)
  {
    hide Measure, Taken, FailedTake, EveryTaskOwnsItsHandle, Emptied;
    FailedTakeShape(c.shared);
    TurnDecreases(c, ApplyCheck(c, i), i, ApplyCheck(c, i).shutdowns[i]);
  }

  lemma JoinStepDecreases(c: System, i: nat)
    requires Inv(c) && Enabled(c, JoinStep(i))
    ensures Measure(Apply(c, JoinStep(i))) < Measure(c)
  {
    JoinKeepsInv(c, i);
    hide Inv, Measure;
    TurnDecreases(c, Apply(c, JoinStep(i)), i, Joining(c.shutdowns[i].queue, c.shutdowns[i].done + 1));
  }

  lemma CloseStepDecreases(c: System, i: nat)
    requires Enabled(c, CloseStep(i))
    ensures Measure(Apply(c, CloseStep(i))) < Measure(c)
  {
    hide Measure, OutcomeOf;
    var c' := Apply(c, CloseStep(i));
    assert |QueueIds(c.shutdowns[i].queue)| == c.shutdowns[i].done;
    TurnDecreases(c, c', i, c'.shutdowns[i]);
  }

  lemma WakingStepDecreases(c: System, step: Step)
    requires Enabled(c, step)
    requires step.QuiesceStep? || step.ShutdownQuiesceStep? || step.BeginShutdownStep? || step.SpuriousWakeStep?
    ensures Measure(Apply(c, step)) < Measure(c)
  {
    hide Potentials, Values, Budget, NotifyAll, CancelRecords;
    var w := Weight(c);
    ValuesNotified(c.shutdowns, w);
    match step {
      case QuiesceStep => Spend(c.calls, c.requests, c.extras - 1, w);
      case ShutdownQuiesceStep(i) => ValuesUpdate(NotifyAll(c.shutdowns), w, i, Announcing);
      case BeginShutdownStep =>
        ValuesAppend(c.shutdowns, w, Begun);
        Spend(c.calls, c.requests - 1, c.extras, w);
      case SpuriousWakeStep(i) =>
        ValuesUpdate(c.shutdowns, w, i, Checking);
        Spend(c.calls, c.requests, c.extras - 1, w);
    }
  }

  lemma PublishStepDecreases(c: System, step: Step)
    requires Enabled(c, step) && step.PublishStep?
    ensures Measure(Apply(c, step)) < Measure(c)
  {
    hide Potentials, Values, Budget, PublishProgress;
    PublishShape(c.shared, c.attempts[step.s - 1].operationId, step.value);
    Spend(c.calls, c.requests, c.extras - 1, Weight(c));
  }

  /** Every step of every thread brings the system closer to rest. */
  lemma StepDecreases(c: System, step: Step)
    requires Inv(c) && Enabled(c, step)
    ensures Measure(Apply(c, step)) < Measure(c)
  {
    hide Inv, ApplyRecord, ApplyCheck, Measure, WellStaged;
    match step {
      case ReserveStep(operationId) => ReserveStepDecreases(c, operationId);
      case RecordStep(s) => RecordStepDecreases(c, s);
      case PublishStep(_, _) => PublishStepDecreases(c, step);
      case AnnounceStep(i) => TurnDecreases(c, Apply(c, step), i, Checking);
      case CheckStep(i) => CheckStepDecreases(c, i);
      case JoinStep(i) => JoinStepDecreases(c, i);
      case CloseStep(i) => CloseStepDecreases(c, i);
      case QuiesceStep => WakingStepDecreases(c, step);
      case BeginShutdownStep => WakingStepDecreases(c, step);
      case SpuriousWakeStep(_) => WakingStepDecreases(c, step);
      case ShutdownQuiesceStep(_) => WakingStepDecreases(c, step);
      case _ =>
        StageHolds(c, step.s);
        AttemptStepDecreases(c, step);
    }
  }

  lemma {:induction false} RunIsShort(c: System, steps: seq<Step>)
    requires Inv(c) && Runs(c, steps)
    ensures |steps| + Measure(Exec(c, steps)) <= Measure(c)
    decreases |steps|
  {
    hide Inv, Enabled, Apply, Measure;
    if steps != [] {
      StepKeepsInv(c, steps[0]);
      StepDecreases(c, steps[0]);
      RunIsShort(Apply(c, steps[0]), steps[1..]);
    }
  }

  lemma StepConservesShutdowns(c: System, step: Step)
    requires Enabled(c, step)
    ensures Weight(Apply(c, step)) == Weight(c)
  {
    hide WorkerId, Taken, EveryTaskOwnsItsHandle, CancelRecords, Push, FactsOf, IdentityOf, FailedTake;
  }

  lemma {:induction false} RunConservesShutdowns(c: System, steps: seq<Step>)
    requires Runs(c, steps)
    ensures Weight(Exec(c, steps)) == Weight(c)
    decreases |steps|
  {
    hide Enabled, Apply, Weight;
    if steps != [] {
      StepConservesShutdowns(c, steps[0]);
      RunConservesShutdowns(Apply(c, steps[0]), steps[1..]);
    }
  }

  // ---------- no deadlock ----------

  ghost predicate Stuck(c: System) {
    forall step :: !Enabled(c, step)
  }

  lemma AttemptCanMove(c: System, s: nat) returns (step: Step)
    requires Known(c, s) && WellStaged(c.attempts[s - 1]) && !c.attempts[s - 1].worker.Exited?
    ensures Enabled(c, step)
  {
    var a := c.attempts[s - 1];
    step :=
      if a.stage.AwaitSpawn? then SpawnStep(s)
      else if a.stage.AwaitInsert? then InsertStep(s)
      else if a.worker.AwaitCommand? then CommandStep(s, Finish(Completed))
      else if a.worker.Commanded? then RecordStep(s)
      else if a.worker.AwaitReceiver? then ReceiveStep(s)
      else ExitStep(s);
  }

  lemma JoinerIsReady(c: System, i: nat)
    requires Inv(c) && Started(c, i) && c.shutdowns[i].Joining? && AllExited(c.attempts)
    ensures c.shutdowns[i].done <= |c.shutdowns[i].queue|
    ensures c.shutdowns[i].done < |c.shutdowns[i].queue| ==>
              NextEnded(c.shutdowns[i].queue, c.shutdowns[i].done, c.attempts)
  {
    hide Recorded, Listed, HoldsHandles, ShutdownsAgree, AreAllWorkers, SlotsEmptied, OneJoins, QueueIds;
    assert SomeoneJoins(c.shutdowns);
    assert c.shared.lifecycle == LifecyclePhase.Closed ==> HoldsNone(c.shutdowns[i]);
    assert c.shared.lifecycle != LifecyclePhase.Closed ==> HoldsAll(c.shutdowns[i], c.attempts);
  }

  lemma NobodySleeps(c: System, i: nat)
    requires Inv(c) && Started(c, i) && AllExited(c.attempts)
    ensures !c.shutdowns[i].Asleep?
  {
    hide Inv;
    if c.shutdowns[i].Asleep? {
      SleeperHasSomeoneToWaitFor(c, i);
      assert false;
    }
  }

  lemma UnfinishedShutdownCanMove(c: System, i: nat) returns (step: Step)
    requires Inv(c) && Started(c, i) && !c.shutdowns[i].Finished? && !c.shutdowns[i].Crashed?
    requires AllExited(c.attempts)
    ensures Enabled(c, step)
  {
    hide Inv, AllExited, NextEnded;
    NobodySleeps(c, i);
    if c.shutdowns[i].Joining? {
      JoinerIsReady(c, i);
    }
    step :=
      if c.shutdowns[i].Begun? then ShutdownQuiesceStep(i)
      else if c.shutdowns[i].Announcing? then AnnounceStep(i)
      else if c.shutdowns[i].Checking? then CheckStep(i)
      else if c.shutdowns[i].done < |c.shutdowns[i].queue| then JoinStep(i)
      else CloseStep(i);
  }

  /** No deadlock: when nothing can move, every call was made, every worker exited and every shutdown ended. */
  lemma StuckMeansFinished(c: System)
    requires Inv(c) && Stuck(c)
    ensures c.calls == 0 && c.requests == 0 && AllExited(c.attempts)
    ensures forall i :: 0 <= i < |c.shutdowns| ==> c.shutdowns[i].Finished? || c.shutdowns[i].Crashed?
  {
    hide Inv;
    assert !Enabled(c, ReserveStep("")) && !Enabled(c, BeginShutdownStep);
    forall i | 0 <= i < |c.attempts| ensures c.attempts[i].stage.Returned? && c.attempts[i].worker.Exited? {
      StageHolds(c, i + 1);
      if !c.attempts[i].worker.Exited? {
        var step := AttemptCanMove(c, i + 1);
        assert false;
      }
    }
    forall i | 0 <= i < |c.shutdowns|
      ensures c.shutdowns[i].Finished? || c.shutdowns[i].Crashed?
    {
      if !c.shutdowns[i].Finished? && !c.shutdowns[i].Crashed? {
        var step := UnfinishedShutdownCanMove(c, i);
        assert false;
      }
    }
  }

  /** Where every shutdown has ended, one of them completed, unless there was none. */
  lemma SomeoneCompleted(c: System)
    requires Inv(c) && c.shutdowns != []
    requires forall i :: 0 <= i < |c.shutdowns| ==> c.shutdowns[i].Finished? || c.shutdowns[i].Crashed?
    ensures SomeoneFinished(c.shutdowns) && c.shared.lifecycle == LifecyclePhase.Closed
  {
    ClosedIffSomeoneFinished(c);
    hide Inv;
    assert !SomeoneJoins(c.shutdowns);
    if !c.shutdowns[0].Finished? {
      assert c.shutdowns[0].Crashed?;
      assert SomeoneCrashed(c.shutdowns);
    }
  }

  /**
   With cooperative clients every run is finite, and one that can go no further has closed the
   supervisor: every worker exited, every requested shutdown ended, and one at least completed.
   */
  lemma EveryMaximalRunCloses(capacity: nat, calls: nat, requests: nat, extras: nat, steps: seq<Step>)
    requires Runs(InitialSystem(capacity, calls, requests, extras), steps)
    ensures var c := Exec(InitialSystem(capacity, calls, requests, extras), steps);
            && |steps| <= Budget(calls, requests, extras, requests)
            && (Stuck(c) ==>
                  && |c.shutdowns| == requests && AllExited(c.attempts)
                  && (forall i :: 0 <= i < requests ==> c.shutdowns[i].Finished? || c.shutdowns[i].Crashed?)
                  && (requests > 0 ==> SomeoneFinished(c.shutdowns) && c.shared.lifecycle == LifecyclePhase.Closed))
  {
    var start := InitialSystem(capacity, calls, requests, extras);
    StartMeasure(capacity, calls, requests, extras);
    InitialInv(capacity, calls, requests, extras);
    hide Inv, InitialSystem, Measure, Stuck, Budget;
    RunKeepsInv(start, steps);
    RunIsShort(start, steps);
    RunConservesShutdowns(start, steps);
    var c := Exec(start, steps);
    MeasureIsNatural(c);
    if Stuck(c) {
      StuckMeansFinished(c);
      if requests > 0 {
        SomeoneCompleted(c);
      }
    }
  }

  lemma StartMeasure(capacity: nat, calls: nat, requests: nat, extras: nat)
    ensures var start := InitialSystem(capacity, calls, requests, extras);
            Measure(start) == Budget(calls, requests, extras, requests) && Weight(start) == requests
  {
    hide Budget;
  }
}

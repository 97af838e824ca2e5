/** Runs that reach the corners: lists in another order, a shutdown that panics, a publication that panics. */
module SupervisorWitnesses {
  import opened Wrappers
  import opened ByteOrder
  import opened Identifiers
  import opened Lifecycle
  import opened Supervisor
  import opened SupervisorSystem
  import opened SupervisorSafety
  import opened SupervisorTheorems
  import opened SupervisorLiveness
  import SP = SupervisorProgress

  // ---------- putting runs together ----------

  lemma {:induction false} RunsInTwo(c: System, one: seq<Step>, two: seq<Step>)
    requires Runs(c, one) && Runs(Exec(c, one), two)
    ensures Runs(c, one + two) && Exec(c, one + two) == Exec(Exec(c, one), two)
    decreases |one|
  {
    hide Enabled, Apply;
    if one == [] {
      assert one + two == two;
    } else {
      assert (one + two)[1..] == one[1..] + two;
      RunsInTwo(Apply(c, one[0]), one[1..], two);
    }
  }

  lemma OneStep(c: System, step: Step)
    requires Enabled(c, step)
    ensures Runs(c, [step]) && Exec(c, [step]) == Apply(c, step)
  {
    assert Runs(Apply(c, step), [step][1..]) && Exec(Apply(c, step), [step][1..]) == Apply(c, step);
  }

  lemma OneMoreStep(c: System, steps: seq<Step>, step: Step)
    requires Runs(c, steps) && Enabled(Exec(c, steps), step)
    ensures Runs(c, steps + [step]) && Exec(c, steps + [step]) == Apply(Exec(c, steps), step)
  {
    hide Enabled, Apply;
    OneStep(Exec(c, steps), step);
    RunsInTwo(c, steps, [step]);
  }

  lemma StepAdmitsOnlyByReserve(c: System, step: Step)
    requires Enabled(c, step) && c.calls == 0
    ensures Apply(c, step).calls == 0 && |Apply(c, step).attempts| == |c.attempts|
  {
    hide Taken, EveryTaskOwnsItsHandle, FailedTake, QueueIds;
    hide WorkerId, Quiesce, CloseAfterJoin, OutcomeOf, PublishProgress;
  }

  /** Any run with no reserve calls left can be completed: nothing can move in the end. */
  lemma {:induction false} Complete(c: System) returns (steps: seq<Step>)
    requires Inv(c) && c.calls == 0
    ensures Runs(c, steps) && Stuck(Exec(c, steps)) && |Exec(c, steps).attempts| == |c.attempts|
    decreases Measure(c) + 1
  {
    hide Inv, Enabled, Apply, Measure;
    MeasureIsNatural(c);
    if Stuck(c) {
      steps := [];
    } else {
      var step :| Enabled(c, step);
      StepKeepsInv(c, step);
      StepDecreases(c, step);
      StepAdmitsOnlyByReserve(c, step);
      var rest := Complete(Apply(c, step));
      OneStep(c, step);
      RunsInTwo(c, [step], rest);
      steps := [step] + rest;
    }
  }

  // ---------- any number of workers ----------

  /** Every active operation is named by the number of its attempt. */
  ghost predicate NamedByNumber(sh: Shared) {
    forall op :: op in sh.active ==> sh.active[op] < sh.nextSequence && op == Decimal(sh.active[op])
  }

  lemma NextNameIsFree(sh: Shared)
    requires NamedByNumber(sh)
    ensures Decimal(sh.nextSequence) !in sh.active
  {
    if Decimal(sh.nextSequence) in sh.active {
      DecimalIsInjective(sh.nextSequence, sh.active[Decimal(sh.nextSequence)]);
    }
  }

  lemma AdmitOne(c: System)
    requires c.shared.lifecycle == LifecyclePhase.Running && NamedByNumber(c.shared) && c.calls > 0
    requires c.shared.nextSequence < U64_MAX
    ensures var c' := Apply(c, ReserveStep(Decimal(c.shared.nextSequence)));
            && c'.shared.lifecycle == LifecyclePhase.Running && NamedByNumber(c'.shared)
            && c'.calls == c.calls - 1 && |c'.attempts| == |c.attempts| + 1
            && c'.shared.nextSequence == c.shared.nextSequence + 1
  {
    NextNameIsFree(c.shared);
    hide Decimal, WorkerId, IdentityOf;
  }

  lemma {:induction false} AdmitMany(c: System, n: nat) returns (steps: seq<Step>)
    requires c.shared.lifecycle == LifecyclePhase.Running && NamedByNumber(c.shared) && c.calls == n
    requires c.shared.nextSequence + n <= U64_MAX
    ensures Runs(c, steps) && Exec(c, steps).calls == 0 && |Exec(c, steps).attempts| == |c.attempts| + n
    decreases n
  {
    hide NamedByNumber, Apply;
    if n == 0 {
      steps := [];
    } else {
      var step := ReserveStep(Decimal(c.shared.nextSequence));
      AdmitOne(c);
      var rest := AdmitMany(Apply(c, step), n - 1);
      OneStep(c, step);
      hide Enabled;
      RunsInTwo(c, [step], rest);
      steps := [step] + rest;
    }
  }

  lemma AdmitManyAndComplete(capacity: nat, n: nat) returns (steps: seq<Step>)
    requires n < U64_MAX
    ensures Runs(InitialSystem(capacity, n, 1, 0), steps)
    ensures Stuck(Exec(InitialSystem(capacity, n, 1, 0), steps))
    ensures |Exec(InitialSystem(capacity, n, 1, 0), steps).attempts| == n
  {
    var start := InitialSystem(capacity, n, 1, 0);
    InitialInv(capacity, n, 1, 0);
    var admitted := AdmitMany(start, n);
    hide Inv, InitialSystem, Stuck;
    RunKeepsInv(start, admitted);
    var rest := Complete(Exec(start, admitted));
    RunsInTwo(start, admitted, rest);
    steps := admitted + rest;
  }

  lemma TheOnlyOneFinished(c: System)
    requires |c.shutdowns| == 1 && SomeoneFinished(c.shutdowns)
    ensures HasFinished(c, 0)
  {
  }

  /**
   For every number of workers there is a run in which a shutdown completes with exactly so many; its two id
   lists are equal as sequences for at most nine and different from ten on.
   */
  lemma AnyNumberOfWorkersCanBeJoined(capacity: nat, n: nat) returns (steps: seq<Step>)
    requires n < U64_MAX
    ensures Runs(InitialSystem(capacity, n, 1, 0), steps)
    ensures var c := Exec(InitialSystem(capacity, n, 1, 0), steps);
            && HasFinished(c, 0) && |c.attempts| == n
            && (c.shutdowns[0].outcome.joinedWorkerIds == c.shutdowns[0].outcome.expectedWorkerIds <==> n <= 9)
  {
    hide Runs, Exec, InitialSystem, Stuck, OutcomeOf, WorkerIds, Ascending, Budget, SomeoneFinished, AllExited;
    steps := AdmitManyAndComplete(capacity, n);
    EveryMaximalRunCloses(capacity, n, 1, 0, steps);
    TheOnlyOneFinished(Exec(InitialSystem(capacity, n, 1, 0), steps));
    EveryShutdownAccountsForEveryWorker(capacity, n, 1, 0, steps, 0);
  }

  // ---------- one worker that has recorded its terminal ----------

  /** One attempt whose operation is back at the client and whose worker waits for a command. */
  lemma OneReserved(capacity: nat, requests: nat, extras: nat) returns (steps: seq<Step>)
    ensures var start := InitialSystem(capacity, 1, requests, extras);
      Runs(start, steps) &&
      var c := Exec(start, steps);
      && c.attempts == [Attempt("a", Returned, AwaitCommand)] && c.shutdowns == []
      && c.calls == 0 && c.requests == requests && c.extras == extras
      && c.shared.lifecycle == LifecyclePhase.Running && c.shared.active == map["a" := 1]
      && "a" in c.shared.records && c.shared.records["a"].phase == OperationPhase.Running
  {
    hide WorkerId, IdentityOf;
    var c0 := InitialSystem(capacity, 1, requests, extras);
    var c1 := Apply(c0, ReserveStep("a"));
    var c2 := Apply(c1, SpawnStep(1));
    var c3 := Apply(c2, InsertStep(1));
    assert c1.attempts == [Attempt("a", AwaitSpawn, Unborn)];
    assert c3.attempts == [Attempt("a", Returned, AwaitCommand)];
    OneStep(c0, ReserveStep("a"));
    steps := [ReserveStep("a")];
    OneMoreStep(c0, steps, SpawnStep(1));
    steps := steps + [SpawnStep(1)];
    OneMoreStep(c0, steps, InsertStep(1));
    steps := steps + [InsertStep(1)];
  }

  /** Built with capacity zero, the bridge reaches a state where publishing for a live attempt panics. */
  lemma ZeroCapacityPanics(value: nat) returns (steps: seq<Step>)
    ensures Runs(InitialSystem(0, 1, 0, 1), steps)
    ensures var c := Exec(InitialSystem(0, 1, 0, 1), steps);
            && Enabled(c, PublishStep(1, value))
            && PublishProgress(c.shared, c.attempts[0].operationId, value).1.Panicked?
  {
    steps := OneReserved(0, 0, 1);
    hide InitialSystem, PublishProgress;
    SP.PublishPanicsIffCapacityIsZero(0, 1, 0, 1, steps, "a", value);
  }

  lemma RecordOne(c: System)
    requires c.attempts == [Attempt("a", Returned, AwaitCommand)] && c.shutdowns == []
    requires c.shared.active == map["a" := 1] && "a" in c.shared.records
    ensures var steps := [CommandStep(1, Finish(Completed)), RecordStep(1)];
      Runs(c, steps) &&
      var c' := Exec(c, steps);
      && c'.attempts == [Attempt("a", Returned, AwaitReceiver(Completed))] && c'.shutdowns == []
      && c'.calls == c.calls && c'.requests == c.requests
      && c'.shared.lifecycle == c.shared.lifecycle && c'.shared.active == map[]
  {
    var c1 := Apply(c, CommandStep(1, Finish(Completed)));
    var c2 := Apply(c1, RecordStep(1));
    assert c1.attempts == [Attempt("a", Returned, Commanded(Completed))];
    OneStep(c, CommandStep(1, Finish(Completed)));
    OneMoreStep(c, [CommandStep(1, Finish(Completed))], RecordStep(1));
    assert [CommandStep(1, Finish(Completed))] + [RecordStep(1)] == [CommandStep(1, Finish(Completed)), RecordStep(1)];
  }

  /** Two shutdowns begin, quiesce and announce themselves, and both stand before their take. */
  lemma BothBegin(c: System) returns (steps: seq<Step>)
    requires c.shutdowns == [] && c.requests == 2 && c.shared.lifecycle == LifecyclePhase.Running
    ensures Runs(c, steps)
    ensures var c' := Exec(c, steps);
            && c'.attempts == c.attempts && c'.shutdowns == [Checking, Checking] && c'.calls == c.calls
            && c'.shared.lifecycle != LifecyclePhase.Closed && c'.shared.active == c.shared.active
  {
    hide CancelRecords;
    var c1 := Apply(c, BeginShutdownStep);
    var c2 := Apply(c1, BeginShutdownStep);
    var c3 := Apply(c2, ShutdownQuiesceStep(0));
    assert c2.shutdowns == [Begun, Begun];
    assert c3.shutdowns == [Announcing, Begun];
    OneStep(c, BeginShutdownStep);
    steps := [BeginShutdownStep];
    OneMoreStep(c, steps, BeginShutdownStep);
    steps := steps + [BeginShutdownStep];
    OneMoreStep(c, steps, ShutdownQuiesceStep(0));
    steps := steps + [ShutdownQuiesceStep(0)];
    var rest := BothAnnounce(c3);
    RunsInTwo(c, steps, rest);
    steps := steps + rest;
  }

  lemma BothAnnounce(c: System) returns (steps: seq<Step>)
    requires c.shutdowns == [Announcing, Begun] && c.shared.lifecycle == Quiescing
    ensures Runs(c, steps)
    ensures var c' := Exec(c, steps);
            && c'.attempts == c.attempts && c'.shutdowns == [Checking, Checking] && c'.calls == c.calls
            && c'.shared == c.shared
  {
    var c1 := Apply(c, ShutdownQuiesceStep(1));
    var c2 := Apply(c1, AnnounceStep(0));
    assert c1.shutdowns == [Announcing, Announcing] && c1.shared == c.shared;
    assert c2.shutdowns == [Checking, Announcing];
    OneStep(c, ShutdownQuiesceStep(1));
    steps := [ShutdownQuiesceStep(1)];
    OneMoreStep(c, steps, AnnounceStep(0));
    steps := steps + [AnnounceStep(0)];
    OneMoreStep(c, steps, AnnounceStep(1));
    steps := steps + [AnnounceStep(1)];
    assert Apply(c2, AnnounceStep(1)).shutdowns == [Checking, Checking];
  }

  lemma FirstTakeJoins(c: System)
    requires Inv(c) && c.shutdowns == [Checking, Checking] && c.shared.active == map[]
    requires c.shared.lifecycle != LifecyclePhase.Closed
    ensures var c' := ApplyCheck(c, 0);
            && c'.shutdowns[0].Joining? && |c'.shutdowns| == 2 && c'.shutdowns[1] == Checking
            && c'.attempts == c.attempts && c'.calls == c.calls && c'.shared.lifecycle == c.shared.lifecycle
            && Inv(c') && c'.shared.active == map[] && SomeoneJoins(c'.shutdowns)
  {
    hide Inv, Taken, EveryTaskOwnsItsHandle, FailedTake;
    TakeKeepsInv(c, 0);
    assert ApplyCheck(c, 0).shutdowns[0].Joining?;
  }

  /** The first of them takes the handles and joins; the second finds the slots empty and panics. */
  lemma SecondTakePanics(c: System)
    requires Inv(c) && c.shutdowns == [Checking, Checking] && c.shared.active == map[] && c.attempts != []
    requires c.shared.lifecycle != LifecyclePhase.Closed
    ensures Runs(c, [CheckStep(0), CheckStep(1)])
    ensures var c' := Exec(c, [CheckStep(0), CheckStep(1)]);
            Inv(c') && HasCrashed(c', 1) && c'.calls == c.calls && c'.attempts == c.attempts
  {
    hide Inv, ApplyCheck, SomeoneJoins;
    FirstTakeJoins(c);
    var c1 := ApplyCheck(c, 0);
    CheckKeepsInv(c1, 1);
    CheckKeepsTheRest(c1, 1);
    OneStep(c, CheckStep(0));
    OneMoreStep(c, [CheckStep(0)], CheckStep(1));
    assert [CheckStep(0)] + [CheckStep(1)] == [CheckStep(0), CheckStep(1)];
  }

  lemma CheckKeepsTheRest(c: System, i: nat)
    requires Started(c, i)
    ensures var c' := ApplyCheck(c, i);
            c'.attempts == c.attempts && c'.calls == c.calls && |c'.shutdowns| == |c.shutdowns|
  {
    hide Taken, EveryTaskOwnsItsHandle, FailedTake;
  }

  /**
   With one worker and two shutdowns there is a run in which the second shutdown panics inside the join of the
   first, and the first completes all the same, accounting for the worker.
   */
  lemma TwoShutdownsCanCollide(capacity: nat) returns (steps: seq<Step>)
    ensures Runs(InitialSystem(capacity, 1, 2, 0), steps)
    ensures var c := Exec(InitialSystem(capacity, 1, 2, 0), steps);
            && HasCrashed(c, 1) && HasFinished(c, 0) && |c.attempts| == 1
            && TookInsideJoin(InitialSystem(capacity, 1, 2, 0), steps, 1)
            && c.shutdowns[0].outcome.AccountsForEveryWorker()
  {
    hide Runs, Exec, InitialSystem, Stuck, TookInsideJoin, OutcomeOf, WorkerIds, Ascending, Budget, HasCrashed;
    hide SomeoneFinished, AllExited;
    steps := CollideAndComplete(capacity);
    ShutdownPanicsIffItTookInsideAnothersJoin(capacity, 1, 2, 0, steps, 1);
    EveryMaximalRunCloses(capacity, 1, 2, 0, steps);
    TheOtherFinished(Exec(InitialSystem(capacity, 1, 2, 0), steps));
    EveryShutdownAccountsForEveryWorker(capacity, 1, 2, 0, steps, 0);
  }

  lemma CollideAndComplete(capacity: nat) returns (steps: seq<Step>)
    ensures Runs(InitialSystem(capacity, 1, 2, 0), steps)
    ensures var c := Exec(InitialSystem(capacity, 1, 2, 0), steps);
            HasCrashed(c, 1) && Stuck(c) && |c.attempts| == 1
  {
    var start := InitialSystem(capacity, 1, 2, 0);
    var crashed := SecondPanics(capacity);
    InitialInv(capacity, 1, 2, 0);
    hide Inv, InitialSystem, Stuck, HasCrashed;
    RunKeepsInv(start, crashed);
    var middle := Exec(start, crashed);
    var rest := Complete(middle);
    RunsInTwo(start, crashed, rest);
    steps := crashed + rest;
    RunCrashes(middle, rest, 1);
  }

  lemma TheOtherFinished(c: System)
    requires |c.shutdowns| == 2 && HasCrashed(c, 1) && SomeoneFinished(c.shutdowns)
    ensures HasFinished(c, 0)
  {
    var i :| 0 <= i < |c.shutdowns| && c.shutdowns[i].Finished?;
    assert i == 0;
  }

  lemma SecondPanics(capacity: nat) returns (steps: seq<Step>)
    ensures Runs(InitialSystem(capacity, 1, 2, 0), steps)
    ensures var c := Exec(InitialSystem(capacity, 1, 2, 0), steps);
            HasCrashed(c, 1) && c.calls == 0 && |c.attempts| == 1
  {
    var start := InitialSystem(capacity, 1, 2, 0);
    InitialInv(capacity, 1, 2, 0);
    var one := OneReserved(capacity, 2, 0);
    hide InitialSystem, Inv;
    RecordOne(Exec(start, one));
    var two := [CommandStep(1, Finish(Completed)), RecordStep(1)];
    RunsInTwo(start, one, two);
    var three := BothBegin(Exec(start, one + two));
    RunsInTwo(start, one + two, three);
    RunKeepsInv(start, one + two + three);
    var c := Exec(start, one + two + three);
    SecondTakePanics(c);
    steps := one + two + three + [CheckStep(0), CheckStep(1)];
    RunsInTwo(start, one + two + three, [CheckStep(0), CheckStep(1)]);
  }
}

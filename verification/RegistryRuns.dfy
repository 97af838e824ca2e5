/** What holds over whole runs of the reference adapter, whatever threads made the calls. */
module RegistryRuns {
  import opened Wrappers
  import opened Identifiers
  import opened Lifecycle
  import opened ProgressRing
  import opened Registry

  const CHAIN: seq<OperationPhase> := [Reserved, Queued, OperationPhase.Running, Terminal, Released]

  function Rank(phase: OperationPhase): nat {
    match phase
    case Reserved => 1
    case Queued => 2
    case Running => 3
    case Terminal => 4
    case Released => 5
  }

  /** How far attempt `s` has come along the chain; 0 before it is admitted. */
  function Progress(st: State, s: nat): (r: nat)
    ensures r <= 5
  {
    if s in st.attempts then Rank(st.attempts[s].phase) else 0
  }

  // ---------- one step, seen from one attempt ----------

  lemma EntriesAreGood(st: State, first: nat)
    requires Valid(st, first)
    ensures st.progressCapacity > 0 && st.nextSequence !in st.attempts
    ensures forall s :: s in st.attempts ==> GoodOperation(st, s)
  {
  }

  /** How an attempt may change in one step. */
  ghost predicate Evolves(a: Operation, b: Operation) {
    && b.identity == a.identity
    && Rank(a.phase) <= Rank(b.phase) <= Rank(a.phase) + 1
    && (a.terminal.Some? ==> b.terminal == a.terminal)
    && (a.cancellationRequested ==> b.cancellationRequested)
    && (!a.Pending() ==> b.progress == a.progress && b.cancellationRequested == a.cancellationRequested)
    && (a.phase.Released? ==> b == a)
  }

  lemma RecordStepEvolves(st: State, call: Call, s: nat)
    requires s in st.attempts && GoodOperation(st, s)
    requires !call.ReserveCall? && !call.ReleaseCall? && !call.QuiesceCall? && !call.CloseCall?
    ensures s in Apply(st, call).state.attempts
    ensures Evolves(st.attempts[s], Apply(st, call).state.attempts[s])
  {
    hide IdentityOf;
  }

  lemma ReserveOrReleaseEvolves(st: State, call: Call, s: nat)
    requires s in st.attempts && s != st.nextSequence && GoodOperation(st, s)
    requires call.ReserveCall? || call.ReleaseCall?
    ensures s in Apply(st, call).state.attempts
    ensures Evolves(st.attempts[s], Apply(st, call).state.attempts[s])
  {
    hide IdentityOf;
  }

  lemma QuiesceOrCloseEvolves(st: State, call: Call, s: nat)
    requires s in st.attempts && (s in st.active.Values ==> !st.attempts[s].phase.Released?)
    requires call.QuiesceCall? || call.CloseCall?
    ensures s in Apply(st, call).state.attempts
    ensures Evolves(st.attempts[s], Apply(st, call).state.attempts[s])
  {
    hide Facts;
  }

  lemma ListedAreUnreleased(st: State, s: nat)
    requires IndexMatchesArchive(st) && s in st.active.Values
    ensures s in st.attempts && !st.attempts[s].phase.Released?
  {
  }

  lemma IndexStepEvolves(st: State, first: nat, call: Call, s: nat)
    requires Valid(st, first) && s in st.attempts
    requires call.ReserveCall? || call.ReleaseCall? || call.QuiesceCall? || call.CloseCall?
    ensures s in Apply(st, call).state.attempts
    ensures Evolves(st.attempts[s], Apply(st, call).state.attempts[s])
  {
    EntriesAreGood(st, first);
    hide Apply, Evolves, IndexMatchesArchive, Counted, GoodOperation;
    if call.ReserveCall? || call.ReleaseCall? {
      ReserveOrReleaseEvolves(st, call, s);
    } else {
      if s in st.active.Values {
        ListedAreUnreleased(st, s);
      }
      QuiesceOrCloseEvolves(st, call, s);
    }
  }

  lemma StepEvolves(st: State, first: nat, call: Call, s: nat)
    requires Valid(st, first) && s in st.attempts
    ensures s in Apply(st, call).state.attempts
    ensures Evolves(st.attempts[s], Apply(st, call).state.attempts[s])
  {
    hide Apply, Evolves, IndexMatchesArchive, Counted;
    if call.ReserveCall? || call.ReleaseCall? || call.QuiesceCall? || call.CloseCall? {
      IndexStepEvolves(st, first, call, s);
    } else {
      assert GoodOperation(st, s);
      RecordStepEvolves(st, call, s);
    }
  }

  /** Attempts enter the archive only by admission, Reserved and empty, under the next sequence number. */
  lemma StepAdmits(st: State, first: nat, call: Call, s: nat)
    requires Valid(st, first) && s !in st.attempts
    ensures var step := Apply(st, call);
            if step.reply.Admitted? && s == st.nextSequence then
              && s in step.state.attempts
              && step.reply.identity == step.state.attempts[s].identity
              && call.ReserveCall? && step.reply.identity == IdentityOf(call.operationId, s)
              && step.state.attempts[s].phase.Reserved? && step.state.attempts[s].progress == []
              && !step.state.attempts[s].cancellationRequested
            else
              s !in step.state.attempts
  {
    hide IdentityOf, GoodOperation;
  }

  // ---------- phase history ----------

  /** The phase attempt `s` enters in one step, if any. */
  function Entered(st: State, st': State, s: nat): seq<OperationPhase> {
    if s in st'.attempts && (s !in st.attempts || st.attempts[s].phase != st'.attempts[s].phase)
    then [st'.attempts[s].phase] else []
  }

  /** The phases attempt `s` enters during a run, in order. */
  function History(st: State, calls: seq<Call>, s: nat): seq<OperationPhase>
    decreases |calls|
  {
    if calls == [] then []
    else
      Entered(st, Apply(st, calls[0]).state, s) + History(Apply(st, calls[0]).state, calls[1..], s)
  }

  lemma StepWalksTheChain(st: State, first: nat, call: Call, s: nat)
    requires Valid(st, first)
    ensures var st' := Apply(st, call).state;
            CHAIN[..Progress(st, s)] + Entered(st, st', s) == CHAIN[..Progress(st', s)]
  {
    if s in st.attempts {
      StepEvolves(st, first, call, s);
    } else {
      StepAdmits(st, first, call, s);
    }
    hide Valid, Apply;
  }

  /** Every attempt walks the chain from its start, one phase at a time, and never back. */
  lemma {:induction false} HistoryWalksTheChain(st: State, first: nat, calls: seq<Call>, s: nat)
    requires Valid(st, first)
    ensures CHAIN[..Progress(st, s)] + History(st, calls, s) == CHAIN[..Progress(Exec(st, calls), s)]
    decreases |calls|
  {
    hide Valid, Apply, Progress, Entered;
    if calls != [] {
      var st' := Apply(st, calls[0]).state;
      StepKeepsValid(st, first, calls[0]);
      StepWalksTheChain(st, first, calls[0], s);
      HistoryWalksTheChain(st', first, calls[1..], s);
      assert CHAIN[..Progress(st, s)] + (Entered(st, st', s) + History(st', calls[1..], s))
          == CHAIN[..Progress(st, s)] + Entered(st, st', s) + History(st', calls[1..], s);
    }
  }

  // ---------- one terminal ----------

  predicate WinsTerminal(st: State, call: Call, s: nat) {
    && (call.TerminalCall? || call.PanicCall?)
    && call.lease.sequence == s
    && Apply(st, call).reply.Done?
  }

  function WinningRecord(call: Call, s: nat): TerminalRecord
    requires call.TerminalCall? || call.PanicCall?
  {
    TerminalRecord(if call.TerminalCall? then call.outcome else Failed, s)
  }

  /** The terminal records set on attempt `s` during a run, one for each successful call. */
  function Terminals(st: State, calls: seq<Call>, s: nat): seq<TerminalRecord>
    decreases |calls|
  {
    if calls == [] then []
    else
      (if WinsTerminal(st, calls[0], s) then [WinningRecord(calls[0], s)] else [])
      + Terminals(Apply(st, calls[0]).state, calls[1..], s)
  }

  /** The terminal an attempt carries, as a list of none or one. */
  function TerminalOf(st: State, s: nat): (r: seq<TerminalRecord>)
    ensures |r| <= 1
  {
    if s in st.attempts && st.attempts[s].terminal.Some? then [st.attempts[s].terminal.value] else []
  }

  lemma TerminalCallSetsTerminal(st: State, call: Call, s: nat)
    requires s in st.attempts ==> GoodOperation(st, s)
    requires call.TerminalCall? || call.PanicCall?
    ensures TerminalOf(Apply(st, call).state, s)
         == TerminalOf(st, s) + (if WinsTerminal(st, call, s) then [WinningRecord(call, s)] else [])
  {
    hide IdentityOf;
  }

  lemma OtherCallsSetNoTerminal(st: State, call: Call, s: nat)
    requires s in st.attempts ==> GoodOperation(st, s)
    requires !call.TerminalCall? && !call.PanicCall? && !call.ReserveCall?
    ensures TerminalOf(Apply(st, call).state, s) == TerminalOf(st, s)
  {
    hide IdentityOf;
  }

  lemma StepSetsTerminal(st: State, first: nat, call: Call, s: nat)
    requires Valid(st, first)
    ensures TerminalOf(Apply(st, call).state, s)
         == TerminalOf(st, s) + (if WinsTerminal(st, call, s) then [WinningRecord(call, s)] else [])
  {
    hide Apply, IndexMatchesArchive, Counted;
    assert s in st.attempts ==> GoodOperation(st, s);
    if call.TerminalCall? || call.PanicCall? {
      TerminalCallSetsTerminal(st, call, s);
    } else if call.ReserveCall? {
      if s in st.attempts {
        AdmissionLeavesOthers(st, call, s);
      } else {
        StepAdmits(st, first, call, s);
        StepKeepsValid(st, first, call);
        assert s in Apply(st, call).state.attempts ==> GoodOperation(Apply(st, call).state, s);
      }
    } else {
      OtherCallsSetNoTerminal(st, call, s);
    }
  }

  lemma AdmissionLeavesOthers(st: State, call: Call, s: nat)
    requires call.ReserveCall? && s in st.attempts && s != st.nextSequence
    ensures s in Apply(st, call).state.attempts && Apply(st, call).state.attempts[s] == st.attempts[s]
  {
  }

  /**
   However many leases race, at most one terminal or panic call ever succeeds on an attempt, and the
   record it set is the one the attempt carries from then on.
   */
  lemma {:induction false} OneTerminalPerAttempt(st: State, first: nat, calls: seq<Call>, s: nat)
    requires Valid(st, first)
    ensures TerminalOf(Exec(st, calls), s) == TerminalOf(st, s) + Terminals(st, calls, s)
    ensures |TerminalOf(st, s)| + |Terminals(st, calls, s)| <= 1
    decreases |calls|
  {
    hide Valid, Apply, TerminalOf, WinsTerminal;
    if calls != [] {
      var st' := Apply(st, calls[0]).state;
      StepKeepsValid(st, first, calls[0]);
      StepSetsTerminal(st, first, calls[0], s);
      OneTerminalPerAttempt(st', first, calls[1..], s);
    }
  }

  // ---------- stale leases and tickets ----------

  predicate IsLeaseCall(call: Call) {
    !call.ReserveCall? && !call.CancelCall? && !call.TimeoutCall? && !call.QuiesceCall? && !call.CloseCall?
  }

  predicate IsTicketCall(call: Call) {
    call.CancelCall? || call.TimeoutCall?
  }

  /**
   Once an attempt has its terminal, its terminal, its progress and its cancellation flag are frozen over every
   run; all that can still happen to it is its release.
   */
  lemma {:induction false} EndedIsFrozen(st: State, first: nat, calls: seq<Call>, s: nat)
    requires Valid(st, first) && s in st.attempts && !st.attempts[s].Pending()
    ensures s in Exec(st, calls).attempts
    ensures var was, now := st.attempts[s], Exec(st, calls).attempts[s];
            && now.identity == was.identity && now.terminal == was.terminal && now.progress == was.progress
            && now.cancellationRequested == was.cancellationRequested
            && (now.phase == was.phase || (was.phase.Terminal? && now.phase.Released?))
    decreases |calls|
  {
    hide Valid, Apply, IdentityOf;
    EntriesAreGood(st, first);
    if calls != [] {
      StepKeepsValid(st, first, calls[0]);
      StepEvolves(st, first, calls[0], s);
      EndedIsFrozen(Apply(st, calls[0]).state, first, calls[1..], s);
    }
  }

  lemma {:induction false} ReleasedStaysReleased(st: State, first: nat, calls: seq<Call>, s: nat)
    requires Valid(st, first) && s in st.attempts && st.attempts[s].phase.Released?
    ensures s in Exec(st, calls).attempts && Exec(st, calls).attempts[s] == st.attempts[s]
    decreases |calls|
  {
    if calls != [] {
      StepKeepsValid(st, first, calls[0]);
      StepEvolves(st, first, calls[0], s);
      hide Valid, Apply;
      ReleasedStaysReleased(Apply(st, calls[0]).state, first, calls[1..], s);
    }
  }

  /**
   Once attempt `s` is Released, its archive entry never changes again and nothing done with one of
   its leases or tickets has any effect, even after its operation id has been reserved afresh.
   */
  lemma ReleasedLeaseIsInertForever(st: State, first: nat, calls: seq<Call>, s: nat, call: Call)
    requires Valid(st, first) && s in st.attempts && st.attempts[s].phase.Released?
    requires IsLeaseCall(call) ==> call.lease == st.attempts[s].identity
    requires IsTicketCall(call) ==> call.ticket == st.attempts[s].identity
    requires IsLeaseCall(call) || IsTicketCall(call)
    ensures var later := Exec(st, calls);
            && s in later.attempts && later.attempts[s] == st.attempts[s]
            && Apply(later, call) == Step(later, if IsLeaseCall(call) then Refused(StaleLease) else Done)
  {
    ReleasedStaysReleased(st, first, calls, s);
    assert GoodOperation(st, s);
    hide IdentityOf, Exec, Valid;
  }

  // ---------- looking attempts up ----------

  /** Attempt `s` is the one unreleased attempt of `operationId`. */
  ghost predicate IsLiveAttempt(st: State, operationId: string, s: nat) {
    s in st.attempts && st.attempts[s].identity.operationId == operationId && !st.attempts[s].phase.Released?
  }

  /** What a snapshot shows of an attempt: everything, the terminal twice. */
  predicate Shows(snapshot: OperationSnapshot, operation: Operation) {
    && snapshot.identity == operation.identity && snapshot.phase == operation.phase
    && snapshot.cancellationRequested == operation.cancellationRequested
    && snapshot.authoritativeTerminal == operation.terminal && snapshot.finalProjection == operation.terminal
    && snapshot.progressProjection == operation.progress
  }

  /** The index answers with the one unreleased attempt of an operation id as it is, and only if there is one. */
  lemma CurrentSnapshotIsTheLiveAttempt(st: State, first: nat, operationId: string)
    requires Valid(st, first)
    ensures CurrentSnapshot(st, operationId).Some? <==> exists s :: IsLiveAttempt(st, operationId, s)
    ensures forall s :: IsLiveAttempt(st, operationId, s) ==>
              CurrentSnapshot(st, operationId).Some? && Shows(CurrentSnapshot(st, operationId).value, st.attempts[s])
  {
    hide Counted, GoodOperation;
    if operationId in st.active {
      assert IsLiveAttempt(st, operationId, st.active[operationId]);
    }
  }

  lemma LeaseFindsItsAttempt(st: State, first: nat, s: nat)
    requires Valid(st, first) && s in st.attempts
    ensures st.attempts[s].identity.sequence == s
    ensures var found := LeaseSnapshot(st, st.attempts[s].identity); found.Some? && Shows(found.value, st.attempts[s])
    ensures forall lease: AttemptIdentity :: lease.sequence == s && lease != st.attempts[s].identity ==>
              LeaseSnapshot(st, lease).None?
  {
    EntriesAreGood(st, first);
    hide Valid, AttemptId;
    assert GoodOperation(st, s);
  }

  lemma {:induction false} AttemptsAreKept(st: State, first: nat, calls: seq<Call>, s: nat)
    requires Valid(st, first) && s in st.attempts
    ensures s in Exec(st, calls).attempts && Exec(st, calls).attempts[s].identity == st.attempts[s].identity
    decreases |calls|
  {
    hide Valid, Apply;
    if calls != [] {
      StepKeepsValid(st, first, calls[0]);
      StepEvolves(st, first, calls[0], s);
      AttemptsAreKept(Apply(st, calls[0]).state, first, calls[1..], s);
    }
  }

  /**
   A lease finds its own attempt for ever and as it then is, released or not, whoever has its operation id by
   then; and once the attempt has its terminal, all it shows but the release never changes.
   */
  lemma LeaseSnapshotOutlivesTheAttempt(st: State, first: nat, calls: seq<Call>, s: nat)
    requires Valid(st, first) && s in st.attempts
    ensures var was, end := st.attempts[s], Exec(st, calls);
            var later := LeaseSnapshot(end, was.identity);
            && s in end.attempts && later.Some? && Shows(later.value, end.attempts[s])
            && later.value.identity == was.identity
            && (!was.Pending() ==>
                  && later.value.authoritativeTerminal == was.terminal == later.value.finalProjection
                  && later.value.progressProjection == was.progress
                  && later.value.cancellationRequested == was.cancellationRequested)
  {
    hide Valid, Apply;
    AttemptsAreKept(st, first, calls, s);
    RunKeepsValid(st, first, calls);
    LeaseFindsItsAttempt(Exec(st, calls), first, s);
    if !st.attempts[s].Pending() {
      EndedIsFrozen(st, first, calls, s);
    }
  }

  // ---------- after quiesce ----------

  /** Nothing is listed in `b` that `a` does not list. */
  ghost predicate ShrinksTo(a: map<string, nat>, b: map<string, nat>) {
    forall op :: op in b ==> op in a && a[op] == b[op]
  }

  lemma ShrinkingIsSmaller(a: map<string, nat>, b: map<string, nat>)
    requires ShrinksTo(a, b)
    ensures |b| <= |a|
  {
    assert a.Keys == b.Keys + (a.Keys - b.Keys);
    assert |a.Keys| == |b.Keys| + |a.Keys - b.Keys|;
  }

  lemma StepAfterQuiesce(st: State, call: Call)
    requires st.lifecycle != LifecyclePhase.Running
    requires forall s :: s in st.attempts ==> GoodOperation(st, s)
    ensures var st' := Apply(st, call).state;
            && st'.lifecycle != LifecyclePhase.Running
            && st'.attempts.Keys == st.attempts.Keys && st'.nextSequence == st.nextSequence
            && ShrinksTo(st.active, st'.active)
            && (st.lifecycle == LifecyclePhase.Closed ==> st'.lifecycle == LifecyclePhase.Closed)
            && !Apply(st, call).reply.Admitted?
  {
    hide IdentityOf;
    if call.ReleaseCall? {
      ReleaseAfterQuiesce(st, call.lease);
    } else {
      hide Release, Unlist;
    }
  }

  lemma ReleaseAfterQuiesce(st: State, lease: AttemptIdentity)
    requires forall s :: s in st.attempts ==> GoodOperation(st, s)
    ensures var st' := Release(st, lease).state;
            && st'.lifecycle == st.lifecycle
            && st'.attempts.Keys == st.attempts.Keys && st'.nextSequence == st.nextSequence
            && ShrinksTo(st.active, st'.active)
            && !Release(st, lease).reply.Admitted?
  {
    hide IdentityOf;
  }

  /**
   After `quiesce` takes effect no run adds an attempt or a live entry, and every attempt that still
   owes a terminal has cancellation requested.
   */
  lemma {:induction false} QuiescedOnlyShrinks(st: State, first: nat, calls: seq<Call>)
    requires Valid(st, first) && st.lifecycle != LifecyclePhase.Running
    ensures var end := Exec(st, calls);
            && end.lifecycle != LifecyclePhase.Running
            && end.attempts.Keys == st.attempts.Keys && end.nextSequence == st.nextSequence
            && ShrinksTo(st.active, end.active) && |end.active| <= |st.active|
            && forall s :: s in end.attempts && end.attempts[s].Pending() ==> end.attempts[s].cancellationRequested
    decreases |calls|
  {
    hide Valid, Apply;
    EntriesAreGood(st, first);
    if calls != [] {
      StepAfterQuiesce(st, calls[0]);
      StepKeepsValid(st, first, calls[0]);
      QuiescedOnlyShrinks(Apply(st, calls[0]).state, first, calls[1..]);
      ShrinkingIsSmaller(st.active, Exec(st, calls).active);
    }
  }

  lemma ClosedStepChangesNothing(st: State, first: nat, call: Call)
    requires Valid(st, first) && st.lifecycle == LifecyclePhase.Closed
    ensures Apply(st, call).state == st
  {
    assert forall s :: s in st.attempts ==> st.attempts[s].phase.Released?;
    hide IdentityOf, Counted;
  }

  /** `Closed` freezes the whole state, so every later shutdown reports the same facts. */
  lemma {:induction false} ClosedIsFrozen(st: State, first: nat, calls: seq<Call>)
    requires Valid(st, first) && st.lifecycle == LifecyclePhase.Closed
    ensures Exec(st, calls) == st
    ensures var n := st.nextSequence - first;
            CloseIfDrained(Exec(st, calls)).reply == Reported(ClosedFacts(LifecyclePhase.Closed, 0, 0, n, n))
    decreases |calls|
  {
    if calls == [] {
      assert |st.active| == 0;
    } else {
      ClosedStepChangesNothing(st, first, calls[0]);
      hide Valid, Apply, CloseIfDrained;
      ClosedIsFrozen(st, first, calls[1..]);
    }
  }

  lemma CloseReports(st: State, first: nat)
    requires Valid(st, first) && st.lifecycle != LifecyclePhase.Running
    ensures var step := CloseIfDrained(st);
            && step.reply.Reported?
            && (step.reply.facts.lifecycle == LifecyclePhase.Closed <==> st.active == map[])
            && step.reply.facts.lifecycle == step.state.lifecycle
            && step.reply.facts.activeOperations == step.reply.facts.retainedTasks == |st.active|
            && step.reply.facts.joinedWorkers == |ReleasedAttempts(st)|
            && step.reply.facts.expectedWorkers == st.nextSequence - first
  {
  }

  /**
   A shutdown is `quiesce`, any calls by other threads, then the closing section. It closes exactly
   when no attempt is live by then, and its facts count every admission.
   */
  lemma ShutdownReportsTheTruth(st: State, first: nat, between: seq<Call>)
    requires Valid(st, first)
    ensures var drained := Exec(Quiesce(st).state, between);
            var step := CloseIfDrained(drained);
            && step.reply.Reported?
            && (step.reply.facts.lifecycle == LifecyclePhase.Closed <==> drained.active == map[])
            && step.reply.facts.lifecycle == step.state.lifecycle
            && step.reply.facts.activeOperations == step.reply.facts.retainedTasks == |drained.active|
            && step.reply.facts.joinedWorkers == |ReleasedAttempts(drained)|
            && step.reply.facts.expectedWorkers == Quiesce(st).state.nextSequence - first
  {
    var quiesced := Quiesce(st).state;
    QuiesceKeepsValid(st, first);
    assert quiesced.lifecycle != LifecyclePhase.Running;
    hide Valid, Quiesce, CloseIfDrained, ReleasedAttempts;
    RunKeepsValid(quiesced, first, between);
    QuiescedOnlyShrinks(quiesced, first, between);
    CloseReports(Exec(quiesced, between), first);
  }

  // ---------- progress ----------

  function PublishedValue(st: State, call: Call, s: nat): seq<nat> {
    if call.PublishCall? && call.lease.sequence == s && Apply(st, call).reply.Done? then [call.value] else []
  }

  /** The values successfully published for attempt `s` during a run. */
  function Published(st: State, calls: seq<Call>, s: nat): seq<nat>
    decreases |calls|
  {
    if calls == [] then []
    else PublishedValue(st, calls[0], s) + Published(Apply(st, calls[0]).state, calls[1..], s)
  }

  function BufferOf(st: State, s: nat): seq<nat> {
    if s in st.attempts then st.attempts[s].progress else []
  }

  lemma OtherCallsLeaveTheBuffer(st: State, call: Call, s: nat)
    requires s in st.attempts ==> GoodOperation(st, s)
    requires !call.PublishCall? && (call.ReserveCall? ==> s != st.nextSequence || s !in st.attempts)
    ensures BufferOf(Apply(st, call).state, s) == BufferOf(st, s)
  {
    hide IdentityOf;
  }

  lemma PublishPushes(st: State, call: Call, s: nat)
    requires s in st.attempts ==> GoodOperation(st, s)
    requires st.progressCapacity > 0 && call.PublishCall?
    ensures BufferOf(Apply(st, call).state, s)
         == if PublishedValue(st, call, s) == [] then BufferOf(st, s)
            else Push(BufferOf(st, s), st.progressCapacity, call.value)
  {
    hide IdentityOf;
  }

  lemma StepRefinesHistory(st: State, first: nat, call: Call, s: nat, history: seq<nat>)
    requires Valid(st, first) && BufferOf(st, s) == Latest(history, st.progressCapacity)
    ensures BufferOf(Apply(st, call).state, s)
         == Latest(history + PublishedValue(st, call, s), st.progressCapacity)
  {
    hide Valid, Apply, BufferOf, Latest, Push, GoodOperation;
    EntriesAreGood(st, first);
    if call.PublishCall? {
      PublishPushes(st, call, s);
      PushRefinesHistory(history, st.progressCapacity, call.value);
    } else {
      OtherCallsLeaveTheBuffer(st, call, s);
    }
    assert history + [] == history;
  }

  lemma StepKeepsCapacity(st: State, call: Call)
    ensures Apply(st, call).state.progressCapacity == st.progressCapacity
  {
  }

  /**
   The buffer of an attempt is always the last values published to it, as many as fit, in order: the
   ring loses only the oldest. `history` is what was published before the run.
   */
  lemma {:induction false} BufferIsLatestPublished(
      st: State, first: nat, calls: seq<Call>, s: nat, history: seq<nat>)
    requires Valid(st, first) && BufferOf(st, s) == Latest(history, st.progressCapacity)
    ensures BufferOf(Exec(st, calls), s) == Latest(history + Published(st, calls, s), st.progressCapacity)
    decreases |calls|
  {
    hide Valid, Apply, BufferOf, PublishedValue, Latest;
    if calls == [] {
      assert history + [] == history;
    } else {
      var st' := Apply(st, calls[0]).state;
      var value := PublishedValue(st, calls[0], s);
      StepKeepsValid(st, first, calls[0]);
      StepKeepsCapacity(st, calls[0]);
      StepRefinesHistory(st, first, calls[0], s, history);
      BufferIsLatestPublished(st', first, calls[1..], s, history + value);
      assert history + value + Published(st', calls[1..], s) == history + (value + Published(st', calls[1..], s));
    }
  }

  // ---------- identities ----------

  /** The identities handed out during a run, in order. */
  function Admissions(st: State, calls: seq<Call>): seq<AttemptIdentity>
    decreases |calls|
  {
    if calls == [] then []
    else
      var step := Apply(st, calls[0]);
      (if step.reply.Admitted? then [step.reply.identity] else []) + Admissions(step.state, calls[1..])
  }

  lemma {:induction false} AdmissionsAreNumbered(st: State, first: nat, calls: seq<Call>)
    requires Valid(st, first)
    ensures var ids := Admissions(st, calls);
            && |ids| == Exec(st, calls).nextSequence - st.nextSequence
            && forall i :: 0 <= i < |ids| ==> ids[i] == IdentityOf(ids[i].operationId, st.nextSequence + i)
    decreases |calls|
  {
    hide Valid, Apply, IdentityOf;
    if calls != [] {
      var step := Apply(st, calls[0]);
      StepKeepsValid(st, first, calls[0]);
      StepNumbers(st, calls[0]);
      AdmissionsAreNumbered(step.state, first, calls[1..]);
    }
  }

  lemma StepNumbers(st: State, call: Call)
    requires !Apply(st, call).reply.Panicked?
    ensures var step := Apply(st, call);
            if step.reply.Admitted? then
              && step.state.nextSequence == st.nextSequence + 1
              && step.reply.identity == IdentityOf(step.reply.identity.operationId, st.nextSequence)
            else step.state.nextSequence == st.nextSequence
  {
    hide AttemptId;
  }

  /** No two reservations of a run share an attempt id, whatever characters the operation ids hold. */
  lemma AttemptIdsAreDistinct(st: State, first: nat, calls: seq<Call>)
    requires Valid(st, first)
    ensures var ids := Admissions(st, calls);
            forall i, j :: 0 <= i < j < |ids| ==> ids[i].attemptId != ids[j].attemptId
  {
    hide Valid, AttemptId;
    AdmissionsAreNumbered(st, first, calls);
    var ids := Admissions(st, calls);
    forall i, j | 0 <= i < j < |ids| ensures ids[i].attemptId != ids[j].attemptId {
      AttemptIdsDiffer(ids[i].operationId, st.nextSequence + i, ids[j].operationId, st.nextSequence + j);
    }
  }
}

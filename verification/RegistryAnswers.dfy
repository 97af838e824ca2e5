/** When each call of the reference adapter succeeds, what it then does, and that a quiesced adapter can be drained. */
module RegistryAnswers {
  import opened Wrappers
  import opened Identifiers
  import opened Lifecycle
  import opened Registry
  import opened RegistryRuns

  // ---------- reserve ----------

  ghost predicate HasLiveAttempt(st: State, operationId: string) {
    exists s :: IsLiveAttempt(st, operationId, s)
  }

  lemma ListedIffLive(st: State, first: nat, operationId: string)
    requires Valid(st, first)
    ensures operationId in st.active <==> HasLiveAttempt(st, operationId)
  {
    hide Counted, GoodOperation;
    if operationId in st.active {
      assert IsLiveAttempt(st, operationId, st.active[operationId]);
    }
  }

  /**
   A reservation succeeds exactly while the adapter runs, no attempt of that operation id is unreleased and a
   sequence number is left; each refusal names the first of these that fails.
   */
  lemma ReserveAnswers(st: State, first: nat, operationId: string)
    requires Valid(st, first)
    ensures var reply := Apply(st, ReserveCall(operationId)).reply;
      var running, live := st.lifecycle == LifecyclePhase.Running, HasLiveAttempt(st, operationId);
      var left := st.nextSequence < 0xFFFF_FFFF_FFFF_FFFF;
      && (reply.Admitted? <==> running && !live && left)
      && (reply == Refused(AdmissionClosed) <==> !running)
      && (reply == Refused(DuplicateOperation) <==> running && live)
      && (reply == Refused(SequenceExhausted) <==> running && !live && !left)
  {
    ListedIffLive(st, first, operationId);
    ReserveKeepsValid(st, first, operationId);
    hide Valid, HasLiveAttempt, Admit, IdentityOf;
  }

  /** An admission adds one Reserved attempt under the next number, lists it and counts it; nothing else changes. */
  lemma AdmissionInFull(st: State, first: nat, operationId: string)
    requires Valid(st, first) && Apply(st, ReserveCall(operationId)).reply.Admitted?
    ensures var step := Apply(st, ReserveCall(operationId));
      var s := st.nextSequence;
      var identity := AttemptIdentity(operationId, operationId + "#" + Decimal(s), s);
      && step.reply == Admitted(identity)
      && step.state == st.(
           nextSequence := s + 1,
           active := st.active[operationId := s],
           attempts := st.attempts[s := Operation(identity, Reserved, false, None, [])],
           retainedTasks := st.retainedTasks + 1)
      && s !in st.attempts && operationId !in st.active
  {
    EntriesAreGood(st, first);
    hide Valid, GoodOperation, Decimal;
  }

  // ---------- calls on a lease ----------

  /** The phase a call wants the attempt in. */
  function Demanded(call: Call): OperationPhase
    requires IsLeaseCall(call)
  {
    match call
    case QueueCall(_) => Reserved
    case StartCall(_) => Queued
    case PublishCall(_, _) => OperationPhase.Running
    case TerminalCall(_, _) => OperationPhase.Running
    case PanicCall(_) => OperationPhase.Running
    case ReleaseCall(_) => Terminal
  }

  /** The lease is the identity of an archived attempt. */
  predicate Fits(st: State, lease: AttemptIdentity) {
    lease.sequence in st.attempts && st.attempts[lease.sequence].identity == lease
  }

  lemma ReleasableIsListed(st: State, first: nat, lease: AttemptIdentity)
    requires Valid(st, first) && Fits(st, lease) && !st.attempts[lease.sequence].phase.Released?
    ensures lease.operationId in st.active && st.active[lease.operationId] == lease.sequence
  {
    hide Counted, GoodOperation;
  }

  ghost predicate AnswersAsDemanded(st: State, call: Call, reply: Reply)
    requires IsLeaseCall(call)
  {
    var s := call.lease.sequence;
    && (reply == Done <==> Fits(st, call.lease) && st.attempts[s].phase == Demanded(call))
    && (reply == Refused(UnknownOperation) <==> s !in st.attempts)
    && (reply == Refused(StaleLease) <==>
          s in st.attempts && (st.attempts[s].identity != call.lease || st.attempts[s].phase.Released?))
    && (reply == Refused(InvalidTransition) <==>
          && Fits(st, call.lease) && !st.attempts[s].phase.Released?
          && st.attempts[s].phase != Demanded(call))
  }

  lemma ReleaseAnswers(st: State, first: nat, lease: AttemptIdentity)
    requires Valid(st, first)
    ensures AnswersAsDemanded(st, ReleaseCall(lease), Release(st, lease).reply)
  {
    hide Valid, Unlist;
    ReleaseKeepsValid(st, first, lease);
    if Fits(st, lease) && !st.attempts[lease.sequence].phase.Released? {
      ReleasableIsListed(st, first, lease);
    }
  }

  lemma OtherLeaseCallsAnswer(st: State, call: Call)
    requires IsLeaseCall(call) && !call.ReleaseCall?
    ensures AnswersAsDemanded(st, call, Apply(st, call).reply)
  {
    hide Store;
  }

  /** The answer depends on the lease and the phase alone: cancellation, progress and shutdown play no part. */
  lemma LeaseCallAnswers(st: State, first: nat, call: Call)
    requires Valid(st, first) && IsLeaseCall(call)
    ensures AnswersAsDemanded(st, call, Apply(st, call).reply)
  {
    hide Valid, AnswersAsDemanded, Release;
    if call.ReleaseCall? {
      ReleaseAnswers(st, first, call.lease);
    } else {
      OtherLeaseCallsAnswer(st, call);
    }
  }

  /** What a successful call makes of the attempt. */
  function AfterCall(was: Operation, call: Call, capacity: nat): Operation
    requires IsLeaseCall(call) && (|was.progress| == capacity ==> was.progress != [])
  {
    match call
    case QueueCall(_) => was.(phase := Queued)
    case StartCall(_) => was.(phase := OperationPhase.Running)
    case PublishCall(_, value) =>
      was.(progress := (if |was.progress| == capacity then was.progress[1..] else was.progress) + [value])
    case TerminalCall(lease, outcome) =>
      was.(phase := Terminal, terminal := Some(TerminalRecord(outcome, lease.sequence)))
    case PanicCall(lease) => was.(phase := Terminal, terminal := Some(TerminalRecord(Failed, lease.sequence)))
    case ReleaseCall(_) => was.(phase := Released)
  }

  lemma RoomToPush(st: State, first: nat, s: nat)
    requires Valid(st, first) && s in st.attempts
    ensures |st.attempts[s].progress| == st.progressCapacity ==> st.attempts[s].progress != []
  {
    EntriesAreGood(st, first);
  }

  /** A successful call changes its own attempt and nothing else, but for what a release counts and delists. */
  lemma LeaseCallInFull(st: State, first: nat, call: Call)
    requires Valid(st, first) && IsLeaseCall(call) && Apply(st, call).reply == Done
    ensures Fits(st, call.lease)
    ensures var s := call.lease.sequence;
      && (|st.attempts[s].progress| == st.progressCapacity ==> st.attempts[s].progress != [])
      && var moved := st.(attempts := st.attempts[s := AfterCall(st.attempts[s], call, st.progressCapacity)]);
         Apply(st, call).state
         == if call.ReleaseCall?
            then moved.(active := st.active - {call.lease.operationId},
                        retainedTasks := st.retainedTasks - 1, joinedWorkers := st.joinedWorkers + 1)
            else moved
  {
    LeaseCallAnswers(st, first, call);
    RoomToPush(st, first, call.lease.sequence);
    hide Valid;
  }

  // ---------- tickets, waiters and quiesce ----------

  predicate IsPending(operation: Operation) {
    operation.phase == Reserved || operation.phase == Queued || operation.phase == OperationPhase.Running
  }

  /** Cancelling sets the flag of the ticket's own attempt, if that has not ended, and does nothing else. */
  lemma CancelSetsTheFlag(st: State, ticket: AttemptIdentity)
    ensures Apply(st, CancelCall(ticket)) == Step(
      if Fits(st, ticket) && IsPending(st.attempts[ticket.sequence])
      then st.(attempts := st.attempts[ticket.sequence := st.attempts[ticket.sequence].(cancellationRequested := true)])
      else st,
      Done)
  {
  }

  /** A waiter that times out is told whether its attempt exists, and changes nothing. */
  lemma TimeoutChangesNothing(st: State, ticket: AttemptIdentity)
    ensures Apply(st, TimeoutCall(ticket)) == Step(st, if Fits(st, ticket) then Done else Refused(UnknownOperation))
  {
  }

  function Flagged(operation: Operation): Operation {
    if IsPending(operation) then operation.(cancellationRequested := true) else operation
  }

  /** Quiescing flags every attempt that has not ended, and changes nothing else of any attempt. */
  lemma QuiesceFlagsThePending(st: State, first: nat)
    requires Valid(st, first)
    ensures var after := Apply(st, QuiesceCall).state;
      if st.lifecycle != LifecyclePhase.Running then after == st
      else
        && after == st.(lifecycle := Quiescing, attempts := after.attempts)
        && after.attempts.Keys == st.attempts.Keys
        && forall s :: s in st.attempts ==> after.attempts[s] == Flagged(st.attempts[s])
  {
    hide Counted, GoodOperation;
    forall s | s in st.attempts && IsPending(st.attempts[s])
      ensures s in st.active.Values
    {
      assert st.active[st.attempts[s].identity.operationId] == s;
    }
    forall s | s in st.active.Values
      ensures s in st.attempts && !st.attempts[s].phase.Released?
    {
    }
  }

  /** The call asks for cancellation of attempt `s`. */
  predicate AsksToCancel(st: State, call: Call, s: nat)
    requires s in st.attempts
  {
    || (call.CancelCall? && call.ticket == st.attempts[s].identity)
    || (call.QuiesceCall? && st.lifecycle == LifecyclePhase.Running)
  }

  lemma LeaseCallsKeepFlags(st: State, first: nat, call: Call, s: nat)
    requires Valid(st, first) && IsLeaseCall(call) && s in st.attempts
    ensures s in Apply(st, call).state.attempts
    ensures Apply(st, call).state.attempts[s].cancellationRequested == st.attempts[s].cancellationRequested
  {
    hide Valid, Apply;
    if Apply(st, call).reply == Done {
      LeaseCallInFull(st, first, call);
      RoomToPush(st, first, call.lease.sequence);
    } else {
      LeaseCallAnswers(st, first, call);
      RefusalChangesNothing(st, first, call);
      StepKeepsValid(st, first, call);
      NeverReports(st, call);
    }
  }

  lemma NeverReports(st: State, call: Call)
    requires IsLeaseCall(call)
    ensures var reply := Apply(st, call).reply; reply == Done || reply.Refused? || reply.Panicked?
  {
    hide Store, Unlist;
  }

  lemma IdentityFitsItself(st: State, first: nat, s: nat)
    requires Valid(st, first) && s in st.attempts
    ensures st.attempts[s].identity.sequence == s
  {
    EntriesAreGood(st, first);
    hide AttemptId;
  }

  /** A flag is set by a request that reaches its attempt before the end, and by nothing else. */
  lemma FlagsAreSetByRequests(st: State, first: nat, call: Call, s: nat)
    requires Valid(st, first) && s in st.attempts
    ensures s in Apply(st, call).state.attempts
    ensures Apply(st, call).state.attempts[s].cancellationRequested <==>
      st.attempts[s].cancellationRequested || (IsPending(st.attempts[s]) && AsksToCancel(st, call, s))
  {
    hide Valid, Reserve, Quiesce, Release, GoodOperation, PublishProgress, Advance, RecordTerminal;
    IdentityFitsItself(st, first, s);
    EntriesAreGood(st, first);
    if IsLeaseCall(call) {
      LeaseCallsKeepFlags(st, first, call, s);
    } else if call.QuiesceCall? {
      QuiesceFlagsThePending(st, first);
    } else if call.CancelCall? {
      CancelSetsTheFlag(st, call.ticket);
    } else if call.TimeoutCall? {
      TimeoutChangesNothing(st, call.ticket);
    } else if call.ReserveCall? {
      AdmissionLeavesOthers(st, call, s);
    }
  }

  // ---------- draining ----------

  lemma {:induction false} ExecInTwo(st: State, one: seq<Call>, two: seq<Call>)
    ensures Exec(st, one + two) == Exec(Exec(st, one), two)
    decreases |one|
  {
    hide Apply;
    if one == [] {
      assert one + two == two;
    } else {
      assert (one + two)[1..] == one[1..] + two;
      ExecInTwo(Apply(st, one[0]).state, one[1..], two);
    }
  }

  lemma ExecOne(st: State, call: Call)
    ensures Exec(st, [call]) == Apply(st, call).state
  {
    assert Exec(Apply(st, call).state, [call][1..]) == Apply(st, call).state;
  }

  /** The next call an unreleased attempt needs on its way to release. */
  function NextCall(operation: Operation): Call {
    match operation.phase
    case Reserved => QueueCall(operation.identity)
    case Queued => StartCall(operation.identity)
    case Running => TerminalCall(operation.identity, Completed)
    case _ => ReleaseCall(operation.identity)
  }

  lemma NextCallAdvances(st: State, first: nat, s: nat)
    requires Valid(st, first) && s in st.attempts && !st.attempts[s].phase.Released?
    ensures var after := Apply(st, NextCall(st.attempts[s])).state;
      && Valid(after, first) && s in after.attempts
      && Rank(after.attempts[s].phase) == Rank(st.attempts[s].phase) + 1
      && after.lifecycle == st.lifecycle
      && after.active == if st.attempts[s].phase.Terminal?
                         then st.active - {st.attempts[s].identity.operationId} else st.active
  {
    hide Valid, Apply;
    var call := NextCall(st.attempts[s]);
    IdentityFitsItself(st, first, s);
    LeaseCallAnswers(st, first, call);
    LeaseCallInFull(st, first, call);
    StepKeepsValid(st, first, call);
  }

  /** One attempt can be brought to its release, whatever its phase, and only it leaves the index. */
  lemma {:induction false} ReleaseOne(st: State, first: nat, s: nat) returns (calls: seq<Call>)
    requires Valid(st, first) && s in st.attempts && !st.attempts[s].phase.Released?
    ensures var end := Exec(st, calls);
      && Valid(end, first) && end.lifecycle == st.lifecycle
      && end.active == st.active - {st.attempts[s].identity.operationId}
    decreases 5 - Rank(st.attempts[s].phase)
  {
    hide Valid, Apply, NextCall;
    var call := NextCall(st.attempts[s]);
    var after := Apply(st, call).state;
    NextCallAdvances(st, first, s);
    NextCallKeepsIdentity(st, first, s);
    ExecOne(st, call);
    calls := [call];
    if !st.attempts[s].phase.Terminal? {
      var rest := ReleaseOne(after, first, s);
      ExecInTwo(st, [call], rest);
      calls := [call] + rest;
    }
  }

  lemma NextCallKeepsIdentity(st: State, first: nat, s: nat)
    requires Valid(st, first) && s in st.attempts
    ensures s in Apply(st, NextCall(st.attempts[s])).state.attempts
    ensures Apply(st, NextCall(st.attempts[s])).state.attempts[s].identity == st.attempts[s].identity
  {
    hide Valid, Apply, NextCall;
    StepEvolves(st, first, NextCall(st.attempts[s]), s);
  }

  lemma {:induction false} ReleaseAll(st: State, first: nat) returns (calls: seq<Call>)
    requires Valid(st, first)
    ensures var end := Exec(st, calls);
      Valid(end, first) && end.lifecycle == st.lifecycle && end.active == map[]
    decreases |st.active|
  {
    hide Valid;
    if st.active == map[] {
      calls := [];
    } else {
      var op :| op in st.active;
      ListedIsUnreleased(st, first, op);
      var one := ReleaseOne(st, first, st.active[op]);
      OneFewer(st.active, op);
      var rest := ReleaseAll(Exec(st, one), first);
      ExecInTwo(st, one, rest);
      calls := one + rest;
    }
  }

  lemma ListedIsUnreleased(st: State, first: nat, op: string)
    requires Valid(st, first) && op in st.active
    ensures IsLiveAttempt(st, op, st.active[op])
  {
    hide Counted, GoodOperation;
  }

  lemma OneFewer(m: map<string, nat>, op: string)
    requires op in m
    ensures |m - {op}| < |m|
  {
    assert m.Keys == (m - {op}).Keys + {op};
  }

  lemma DrainedCloses(st: State, first: nat)
    requires Valid(st, first) && st.active == map[] && st.lifecycle != LifecyclePhase.Running
    ensures Apply(st, CloseCall).state.lifecycle == LifecyclePhase.Closed
  {
    assert |st.active| == 0;
    hide IndexMatchesArchive, GoodOperation;
  }

  /** From every valid state, with whatever is pending or flagged, some calls release everything and close. */
  lemma EveryStateCanClose(st: State, first: nat) returns (calls: seq<Call>)
    requires Valid(st, first)
    ensures Exec(st, calls).lifecycle == LifecyclePhase.Closed
  {
    hide Apply, Quiesce;
    var quiesced := Apply(st, QuiesceCall).state;
    QuiesceEndsRunning(st);
    StepKeepsValid(st, first, QuiesceCall);
    hide Valid;
    ExecOne(st, QuiesceCall);
    var drained := ReleaseAll(quiesced, first);
    var end := Exec(quiesced, drained);
    DrainedCloses(end, first);
    ExecOne(end, CloseCall);
    ExecInTwo(quiesced, drained, [CloseCall]);
    ExecInTwo(st, [QuiesceCall], drained + [CloseCall]);
    calls := [QuiesceCall] + (drained + [CloseCall]);
  }

  lemma QuiesceEndsRunning(st: State)
    ensures Apply(st, QuiesceCall).state.lifecycle != LifecyclePhase.Running
  {
  }

  /** Whatever threads did to a fresh adapter, and in particular once it is quiesced, it can still be closed. */
  lemma EveryReachableStateCanClose(first: nat, capacity: nat, before: seq<Call>) returns (calls: seq<Call>)
    requires first <= 0xFFFF_FFFF_FFFF_FFFF && capacity > 0
    ensures Exec(Initial(first, capacity), before + calls).lifecycle == LifecyclePhase.Closed
  {
    hide Valid, Initial;
    InitialIsValid(first, capacity);
    RunKeepsValid(Initial(first, capacity), first, before);
    calls := EveryStateCanClose(Exec(Initial(first, capacity), before), first);
    ExecInTwo(Initial(first, capacity), before, calls);
  }
}

/** The adapter object itself: each method is one critical section over the fields the lock guards. */
module RegistryAdapter {
  import opened Wrappers
  import opened ByteOrder
  import opened Lifecycle
  import R = Registry

  class ReferenceAdapter {
    var lifecycle: LifecyclePhase
    var nextSequence: nat
    var progressCapacity: nat
    var active: map<string, nat>
    var attempts: map<nat, R.Operation>
    var retainedTasks: nat
    var joinedWorkers: nat

    function Contents(): R.State
      reads this
    {
      R.State(lifecycle, nextSequence, progressCapacity, active, attempts, retainedTasks, joinedWorkers)
    }

    constructor Deterministic(first: nat, capacity: nat)
      requires capacity > 0
      ensures Contents() == R.Initial(first, capacity)
    {
      lifecycle := LifecyclePhase.Running;
      nextSequence := first;
      progressCapacity := capacity;
      active, attempts := map[], map[];
      retainedTasks, joinedWorkers := 0, 0;
    }

    method Reserve(operationId: string) returns (reply: R.Reply)
      modifies this
      ensures R.Step(Contents(), reply) == R.Reserve(old(Contents()), operationId)
    {
      hide IdentityOf;
      if lifecycle != LifecyclePhase.Running {
        return R.Refused(AdmissionClosed);
      }
      if operationId in active {
        return R.Refused(DuplicateOperation);
      }
      if nextSequence >= U64_MAX {
        return R.Refused(SequenceExhausted);
      }
      var sequence := nextSequence;
      var identity := IdentityOf(operationId, sequence);
      nextSequence := nextSequence + 1;
      active := active[operationId := sequence];
      attempts := attempts[sequence := R.Operation(identity, Reserved, false, None, [])];
      if retainedTasks >= USIZE_MAX {
        return R.Panicked;
      }
      retainedTasks := retainedTasks + 1;
      return R.Admitted(identity);
    }

    method Queue(lease: AttemptIdentity) returns (reply: R.Reply)
      modifies this`attempts
      ensures R.Step(Contents(), reply) == R.Apply(old(Contents()), R.QueueCall(lease))
    {
      var found := R.Lookup(Contents(), lease);
      if found.Err? {
        return R.Refused(found.error);
      }
      var operation := found.value;
      if operation.phase != Reserved {
        return R.Refused(InvalidTransition);
      }
      attempts := attempts[lease.sequence := operation.(phase := Queued)];
      return R.Done;
    }

    method Start(lease: AttemptIdentity) returns (reply: R.Reply)
      modifies this`attempts
      ensures R.Step(Contents(), reply) == R.Apply(old(Contents()), R.StartCall(lease))
    {
      var found := R.Lookup(Contents(), lease);
      if found.Err? {
        return R.Refused(found.error);
      }
      var operation := found.value;
      if operation.phase != Queued {
        return R.Refused(InvalidTransition);
      }
      attempts := attempts[lease.sequence := operation.(phase := OperationPhase.Running)];
      return R.Done;
    }

    method PublishProgress(lease: AttemptIdentity, value: nat) returns (reply: R.Reply)
      modifies this`attempts
      ensures R.Step(Contents(), reply) == R.Apply(old(Contents()), R.PublishCall(lease, value))
    {
      var found := R.Lookup(Contents(), lease);
      if found.Err? {
        return R.Refused(found.error);
      }
      var operation := found.value;
      if operation.phase != OperationPhase.Running {
        return R.Refused(InvalidTransition);
      }
      var progress := operation.progress;
      if |progress| == progressCapacity {
        progress := if progress == [] then [] else progress[1..];
      }
      progress := progress + [value];
      attempts := attempts[lease.sequence := operation.(progress := progress)];
      return R.Done;
    }

    method RequestCancellation(identity: AttemptIdentity)
      modifies this`attempts
      ensures R.Step(Contents(), R.Done) == R.Apply(old(Contents()), R.CancelCall(identity))
    {
      if identity.sequence in attempts {
        var operation := attempts[identity.sequence];
        if operation.identity == identity && operation.Pending() {
          attempts := attempts[identity.sequence := operation.(cancellationRequested := true)];
        }
      }
    }

    /** Two critical sections: the explicit request, then the one the ticket's destructor makes. */
    method ConsumerDrop(ticket: AttemptIdentity)
      modifies this`attempts
      ensures Contents() == R.Apply(R.Apply(old(Contents()), R.CancelCall(ticket)).state, R.CancelCall(ticket)).state
    {
      hide R.Apply;
      RequestCancellation(ticket);
      RequestCancellation(ticket);
    }

    method WaiterTimeout(ticket: AttemptIdentity) returns (reply: R.Reply)
      ensures R.Step(Contents(), reply) == R.Apply(Contents(), R.TimeoutCall(ticket))
    {
      if ticket.sequence in attempts && attempts[ticket.sequence].identity == ticket {
        return R.Done;
      }
      return R.Refused(UnknownOperation);
    }

    method TerminalInner(lease: AttemptIdentity, outcome: TerminalClass) returns (reply: R.Reply)
      modifies this`attempts
      ensures R.Step(Contents(), reply) == R.RecordTerminal(old(Contents()), lease, outcome)
    {
      var found := R.Lookup(Contents(), lease);
      if found.Err? {
        return R.Refused(found.error);
      }
      var operation := found.value;
      if operation.phase != OperationPhase.Running {
        return R.Refused(InvalidTransition);
      }
      operation := operation.(terminal := Some(TerminalRecord(outcome, lease.sequence)));
      operation := operation.(phase := OperationPhase.Terminal);
      attempts := attempts[lease.sequence := operation];
      return R.Done;
    }

    method Terminal(lease: AttemptIdentity, outcome: TerminalClass) returns (reply: R.Reply)
      modifies this`attempts
      ensures R.Step(Contents(), reply) == R.Apply(old(Contents()), R.TerminalCall(lease, outcome))
    {
      hide R.RecordTerminal;
      reply := TerminalInner(lease, outcome);
    }

    method RecordExecutorPanic(lease: AttemptIdentity) returns (reply: R.Reply)
      modifies this`attempts
      ensures R.Step(Contents(), reply) == R.Apply(old(Contents()), R.PanicCall(lease))
    {
      hide R.RecordTerminal;
      reply := TerminalInner(lease, Failed);
    }

    method Release(lease: AttemptIdentity) returns (reply: R.Reply)
      modifies this
      ensures R.Step(Contents(), reply) == R.Apply(old(Contents()), R.ReleaseCall(lease))
    {
      var found := R.Lookup(Contents(), lease);
      if found.Err? {
        return R.Refused(found.error);
      }
      var operation := found.value;
      if operation.phase != OperationPhase.Terminal {
        return R.Refused(InvalidTransition);
      }
      attempts := attempts[lease.sequence := operation.(phase := Released)];
      var removed := if lease.operationId in active then Some(active[lease.operationId]) else None;
      active := active - {lease.operationId};
      if removed != Some(lease.sequence) {
        return R.Refused(StaleLease);
      }
      if retainedTasks == 0 || joinedWorkers >= USIZE_MAX {
        return R.Panicked;
      }
      retainedTasks := retainedTasks - 1;
      joinedWorkers := joinedWorkers + 1;
      return R.Done;
    }

    method Quiesce()
      modifies this`lifecycle, this`attempts
      ensures R.Step(Contents(), R.Done) == R.Apply(old(Contents()), R.QuiesceCall)
    {
      hide R.CancelListed;
      if lifecycle == LifecyclePhase.Running {
        lifecycle := Quiescing;
        CancelActive(SortedKeys(active.Keys));
      }
    }

    /** The loop of `quiesce` over the listed operations. */
    method CancelActive(ids: seq<string>)
      requires forall op :: op in active <==> op in ids
      modifies this`attempts
      ensures attempts == R.CancelListed(old(attempts), active.Values)
    {
      hide R.CancelListed;
      ghost var listed: set<nat> := {};
      CancelNone(attempts);
      for i := 0 to |ids|
        invariant attempts == R.CancelListed(old(attempts), listed)
        invariant listed <= active.Values && forall k :: 0 <= k < i ==> active[ids[k]] in listed
      {
        assert ids[i] in ids;
        var sequence := active[ids[i]];
        CancelOneMore(old(attempts), listed, sequence);
        if sequence in attempts && attempts[sequence].phase != OperationPhase.Terminal {
          attempts := attempts[sequence := attempts[sequence].(cancellationRequested := true)];
        }
        listed := listed + {sequence};
      }
      assert listed == active.Values by {
        forall s | s in active.Values ensures s in listed {
          var op :| op in active && active[op] == s;
          assert op in ids;
        }
      }
    }

    lemma CancelNone(attempts: map<nat, R.Operation>)
      ensures R.CancelListed(attempts, {}) == attempts
    {
    }

    lemma CancelOneMore(attempts: map<nat, R.Operation>, listed: set<nat>, s: nat)
      ensures var done := R.CancelListed(attempts, listed);
              var next := if s in done && done[s].phase != OperationPhase.Terminal
                          then done[s := done[s].(cancellationRequested := true)] else done;
              R.CancelListed(attempts, listed + {s}) == next
    {
    }

    /** Two critical sections; on a shared adapter the calls of other threads may fall between them. */
    method Shutdown() returns (reply: R.Reply)
      modifies this
      ensures R.Step(Contents(), reply) == R.CloseIfDrained(R.Quiesce(old(Contents())).state)
    {
      hide R.Quiesce;
      Quiesce();
      reply := CloseIfDrained();
    }

    method CloseIfDrained() returns (reply: R.Reply)
      modifies this`lifecycle
      ensures R.Step(Contents(), reply) == R.CloseIfDrained(old(Contents()))
    {
      if active == map[] && retainedTasks == 0 {
        lifecycle := LifecyclePhase.Closed;
      }
      reply := R.Facts(Contents());
    }

    method CurrentSnapshot(operationId: string) returns (snapshot: Option<OperationSnapshot>)
      ensures snapshot == R.CurrentSnapshot(Contents(), operationId)
    {
      if operationId in active && active[operationId] in attempts {
        return Some(attempts[active[operationId]].Snapshot());
      }
      return None;
    }

    method LeaseSnapshot(lease: AttemptIdentity) returns (snapshot: Option<OperationSnapshot>)
      ensures snapshot == R.LeaseSnapshot(Contents(), lease)
    {
      if lease.sequence in attempts && attempts[lease.sequence].identity == lease {
        return Some(attempts[lease.sequence].Snapshot());
      }
      return None;
    }
  }
}

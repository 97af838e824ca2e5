/** The record behind the supervisor's lock; each method is what one thread does while it holds the lock. */
module SupervisorState {
  import opened Wrappers
  import opened ByteOrder
  import opened Collections
  import opened Identifiers
  import opened Lifecycle
  import S = Supervisor

  class ReferenceSupervisorState {
    var lifecycle: LifecyclePhase
    var nextSequence: nat
    var records: map<string, OperationSnapshot>
    var active: map<string, nat>
    var tasks: map<string, Option<nat>>
    var expectedWorkerIds: seq<string>
    var joinedWorkerIds: seq<string>
    var progressCapacity: nat

    function Contents(): S.Shared
      reads this
    {
      S.Shared(lifecycle, nextSequence, records, active, tasks, expectedWorkerIds, joinedWorkerIds, progressCapacity)
    }

    constructor Deterministic(capacity: nat)
      ensures Contents() == S.Initial(capacity)
    {
      lifecycle := LifecyclePhase.Running;
      nextSequence := 1;
      records, active, tasks := map[], map[], map[];
      expectedWorkerIds, joinedWorkerIds := [], [];
      progressCapacity := capacity;
    }

    /** First section of `reserve`. */
    method Admit(operationId: string) returns (admitted: Result<nat, AdapterError>)
      modifies this
      ensures admitted.Err? <==> S.Refusal(old(Contents()), operationId).Some?
      ensures admitted.Err? ==> Some(admitted.error) == S.Refusal(old(Contents()), operationId)
      ensures Contents() == if admitted.Ok? then S.Admit(old(Contents()), operationId) else old(Contents())
      ensures admitted.Ok? ==> admitted.value == old(nextSequence)
    {
      hide WorkerId, IdentityOf;
      if lifecycle != LifecyclePhase.Running {
        return Err(AdmissionClosed);
      }
      if operationId in active {
        return Err(DuplicateOperation);
      }
      if nextSequence >= U64_MAX {
        return Err(SequenceExhausted);
      }
      var sequence := nextSequence;
      nextSequence := sequence + 1;
      active := active[operationId := sequence];
      records := records[operationId :=
        OperationSnapshot(IdentityOf(operationId, sequence), OperationPhase.Running, false, None, None, [])];
      expectedWorkerIds := expectedWorkerIds + [WorkerId(sequence)];
      return Ok(sequence);
    }

    /** Second section of `reserve`. */
    method InsertTask(sequence: nat)
      modifies this`tasks
      ensures Contents() == S.InsertTask(old(Contents()), sequence)
    {
      hide WorkerId;
      tasks := tasks[WorkerId(sequence) := Some(sequence)];
    }

    /** The worker's section; without a record its `expect` panics. */
    method RecordRelease(operationId: string, outcome: TerminalClass) returns (recorded: bool)
      modifies this`records, this`active
      ensures recorded <==> operationId in old(records)
      ensures Contents() == if recorded then S.RecordRelease(old(Contents()), operationId, outcome) else old(Contents())
    {
      if operationId !in records {
        return false;
      }
      var snapshot := records[operationId];
      var terminal := TerminalRecord(outcome, snapshot.identity.sequence);
      snapshot := snapshot.(phase := Released);
      snapshot := snapshot.(authoritativeTerminal := Some(terminal));
      snapshot := snapshot.(finalProjection := Some(terminal));
      records := records[operationId := snapshot];
      active := active - {operationId};
      return true;
    }

    method QuiesceInner()
      modifies this`lifecycle, this`records
      ensures Contents() == S.Quiesce(old(Contents()))
    {
      hide S.CancelRecords;
      if lifecycle == LifecyclePhase.Running {
        lifecycle := Quiescing;
        CancelActive(SortedKeys(active.Keys));
      }
    }

    /** The loop of `quiesce_inner` over the active ids. */
    method CancelActive(ids: seq<string>)
      requires forall op :: op in active <==> op in ids
      modifies this`records
      ensures records == S.CancelRecords(old(records), active.Keys)
    {
      hide S.CancelRecords;
      ghost var listed: set<string> := {};
      CancelNone(records);
      for i := 0 to |ids|
        invariant records == S.CancelRecords(old(records), listed)
        invariant listed <= active.Keys && forall k :: 0 <= k < i ==> ids[k] in listed
      {
        assert ids[i] in ids;
        CancelOneMore(old(records), listed, ids[i]);
        if ids[i] in records {
          records := records[ids[i] := records[ids[i]].(cancellationRequested := true)];
        }
        listed := listed + {ids[i]};
      }
      assert listed == active.Keys;
    }

    lemma CancelNone(records: map<string, OperationSnapshot>)
      ensures S.CancelRecords(records, {}) == records
    {
    }

    lemma CancelOneMore(records: map<string, OperationSnapshot>, listed: set<string>, id: string)
      ensures var done := S.CancelRecords(records, listed);
              var next := if id in done then done[id := done[id].(cancellationRequested := true)] else done;
              S.CancelRecords(records, listed + {id}) == next
    {
    }

    /** Empties every slot of `tasks` in key order; a slot already empty panics. */
    method TakeHandles() returns (taken: Result<seq<S.Task>, ()>)
      modifies this`tasks
      ensures taken.Ok? <==> S.EveryTaskOwnsItsHandle(old(Contents()))
      ensures taken.Ok? ==> taken.value == S.Taken(old(Contents())) && Contents() == S.TakeHandles(old(Contents()))
      ensures taken.Err? ==> Contents() == S.FailedTake(old(Contents()))
    {
      var ids := SortedKeys(tasks.Keys);
      AscendingHasNoDuplicates(ids);
      hide SortedKeys, S.Emptied;
      taken := TakeEach(ids);
      assert Elements(ids) == old(tasks).Keys;
      assert taken.Ok? ==> taken.value == S.TasksOf(old(tasks), ids);
    }

    /** The loop of the take over the listed task ids. */
    method TakeEach(ids: seq<string>) returns (taken: Result<seq<S.Task>, ()>)
      requires NoDuplicates(ids) && forall id :: id in ids <==> id in tasks
      modifies this`tasks
      ensures taken.Ok? <==> forall id :: id in old(tasks) ==> old(tasks)[id].Some?
      ensures taken.Ok? ==> tasks == S.Emptied(old(tasks), Elements(ids)) && |taken.value| == |ids|
      ensures taken.Ok? ==> forall k :: 0 <= k < |ids| ==> taken.value[k] == S.Task(ids[k], old(tasks)[ids[k]].value)
      ensures taken.Err? ==> tasks == S.Emptied(old(tasks), Elements(S.OwnedPrefix(old(tasks), ids)))
    {
      hide S.Emptied;
      var queue: seq<S.Task> := [];
      ghost var emptied: set<string> := {};
      EmptyNone(tasks);
      assert emptied == Elements(ids[..0]);
      for i := 0 to |ids|
        invariant tasks == S.Emptied(old(tasks), emptied) && |queue| == i
        invariant emptied == Elements(ids[..i])
        invariant forall k :: 0 <= k < i ==>
          old(tasks)[ids[k]].Some? && queue[k] == S.Task(ids[k], old(tasks)[ids[k]].value)
      {
        assert ids[i] in ids && ids[..i + 1] == ids[..i] + [ids[i]];
        EmptyOneMore(old(tasks), emptied, ids[i]);
        if tasks[ids[i]].None? {
          PrefixStops(old(tasks), ids, i);
          return Err(());
        }
        queue := queue + [S.Task(ids[i], tasks[ids[i]].value)];
        tasks := tasks[ids[i] := None];
        emptied := emptied + {ids[i]};
      }
      assert ids[..|ids|] == ids;
      return Ok(queue);
    }

    lemma {:induction false} PrefixStops(tasks: map<string, Option<nat>>, ids: seq<string>, i: nat)
      requires i < |ids| && forall id :: id in ids ==> id in tasks
      requires (forall k :: 0 <= k < i ==> tasks[ids[k]].Some?) && tasks[ids[i]].None?
      ensures S.OwnedPrefix(tasks, ids) == ids[..i]
    {
      if i > 0 {
        PrefixStops(tasks, ids[1..], i - 1);
        assert ids[..i] == [ids[0]] + ids[1..][..i - 1];
      }
    }

    lemma EmptyNone(tasks: map<string, Option<nat>>)
      ensures S.Emptied(tasks, {}) == tasks
    {
    }

    lemma EmptyOneMore(tasks: map<string, Option<nat>>, ids: set<string>, id: string)
      requires id in tasks && id !in ids
      ensures id in S.Emptied(tasks, ids) && S.Emptied(tasks, ids)[id] == tasks[id]
      ensures S.Emptied(tasks, ids + {id}) == S.Emptied(tasks, ids)[id := None]
    {
    }

    /** After the joins: drop each joined task, note its worker, then close. */
    method CloseAfterJoin(joined: seq<string>) returns (outcome: ShutdownOutcome)
      modifies this`tasks, this`joinedWorkerIds, this`lifecycle
      ensures Contents() == S.CloseAfterJoin(old(Contents()), joined)
      ensures outcome == S.OutcomeOf(Contents())
    {
      hide Elements, S.OutcomeOf;
      DropEach(joined);
      lifecycle := LifecyclePhase.Closed;
      outcome := S.OutcomeOf(Contents());
    }

    /** The loop of the close over the joined worker ids. */
    method DropEach(joined: seq<string>)
      modifies this`tasks, this`joinedWorkerIds
      ensures tasks == old(tasks) - Elements(joined)
      ensures joinedWorkerIds == old(joinedWorkerIds) + joined
    {
      hide Elements;
      assert old(tasks) - Elements([]) == old(tasks);
      for i := 0 to |joined|
        invariant joinedWorkerIds == old(joinedWorkerIds) + joined[..i]
        invariant tasks == old(tasks) - Elements(joined[..i])
      {
        assert joined[..i + 1] == joined[..i] + [joined[i]];
        assert Elements(joined[..i + 1]) == Elements(joined[..i]) + {joined[i]};
        tasks := tasks - {joined[i]};
        joinedWorkerIds := joinedWorkerIds + [joined[i]];
      }
      assert joined[..|joined|] == joined;
    }

    method PublishProgress(operationId: string, value: nat) returns (reply: S.PublishReply)
      modifies this`records
      ensures (Contents(), reply) == S.PublishProgress(old(Contents()), operationId, value)
    {
      if operationId !in records {
        return S.Refused(UnknownOperation);
      }
      var snapshot := records[operationId];
      if snapshot.phase != OperationPhase.Running {
        return S.Refused(InvalidTransition);
      }
      var buffer := snapshot.progressProjection;
      if |buffer| == progressCapacity {
        if buffer == [] {
          return S.Panicked;
        }
        buffer := buffer[1..];
      }
      buffer := buffer + [value];
      records := records[operationId := snapshot.(progressProjection := buffer)];
      return S.Published;
    }
  }
}

/** The observable projection of one fixture case: its checks, and what an accepted projection guarantees. */
module FixtureProjection {
  import opened Wrappers
  import opened Collections
  import opened FixtureTypes
  import PC = PublicationContracts

  // ---------- identities ----------

  datatype Identity = Identity(operationId: string, attemptId: Option<string>, correlationId: Option<string>)

  datatype Attempt = Attempt(operationId: string, attemptId: Option<string>)

  function EventIdentity(e: EventFact): Identity {
    Identity(e.operationId, e.attemptId, e.correlationId)
  }

  function RowIdentity(l: LifecycleFact): Identity {
    Identity(l.operationId, l.attemptId, l.correlationId)
  }

  function RowAttempt(l: LifecycleFact): Attempt {
    Attempt(l.operationId, l.attemptId)
  }

  // ---------- what is accepted ----------

  ghost predicate EventOk(env: Env, e: EventFact) {
    && env.safeId(e.operationId) && env.safeId(e.kind)
    && (forall id :: e.attemptId == Some(id) ==> env.safeId(id))
    && (forall id :: e.correlationId == Some(id) ==> env.safeId(id))
    && (forall a :: e.payload == Some(a) ==> ArtifactOk(env, a))
  }

  /** Events are numbered by their positions. */
  ghost predicate EventsOk(env: Env, events: seq<EventFact>) {
    events != [] && forall i :: 0 <= i < |events| ==> events[i].sequence == i && EventOk(env, events[i])
  }

  /** Something was there unless created, is there unless removed, and changed as the disposition says. */
  predicate TransitionOk(d: DurableStateFact) {
    && (d.before.None? <==> d.disposition == Created)
    && (d.after.None? <==> d.disposition == Removed)
    && (d.disposition == Unchanged ==> d.before == d.after)
    && (d.disposition == Updated ==> d.before != d.after)
  }

  ghost predicate StateOk(env: Env, d: DurableStateFact) {
    && env.safeId(d.stateId) && env.safeId(d.schemaId) && TransitionOk(d)
    && (forall a :: d.before == Some(a) || d.after == Some(a) ==> ArtifactOk(env, a))
  }

  ghost function StateIds(states: seq<DurableStateFact>): seq<string> {
    Map(states, (d: DurableStateFact) => d.stateId)
  }

  ghost predicate StatesOk(env: Env, states: seq<DurableStateFact>) {
    && states != [] && NoDuplicates(StateIds(states))
    && forall d :: d in states ==> StateOk(env, d)
  }

  ghost predicate RowOk(env: Env, l: LifecycleFact) {
    && env.safeId(l.operationId) && l.released
    && (forall id :: l.attemptId == Some(id) || l.correlationId == Some(id) ==> env.safeId(id))
  }

  ghost function RowAttempts(rows: seq<LifecycleFact>): seq<Attempt> {
    Map(rows, RowAttempt)
  }

  ghost predicate RowsOk(env: Env, rows: seq<LifecycleFact>) {
    && rows != [] && NoDuplicates(RowAttempts(rows))
    && forall l :: l in rows ==> RowOk(env, l)
  }

  /** The event is one of the row's: same operation, attempt and correlation. */
  predicate Belongs(e: EventFact, l: LifecycleFact) {
    e.operationId == l.operationId && e.attemptId == l.attemptId && e.correlationId == l.correlationId
  }

  predicate EveryEventHasARow(p: Projection) {
    forall e :: e in p.orderedEvents ==> exists l :: l in p.lifecycle && Belongs(e, l)
  }

  predicate EveryRowHasAnEvent(p: Projection) {
    forall l :: l in p.lifecycle ==> exists e :: e in p.orderedEvents && Belongs(e, l)
  }

  /** The identities named by the events are exactly those of the lifecycle rows. */
  predicate Bound(p: Projection) {
    EveryEventHasARow(p) && EveryRowHasAnEvent(p)
  }

  predicate OwnershipOk(o: OwnershipFacts) {
    o.activeOperations == 0 && o.retainedTasks == 0 && o.joinedWorkers == o.expectedWorkers
  }

  predicate FactOk(env: Env, value: FactValue) {
    match value
    case Text(text) => env.text(text)
    case Digest(digest) => PC.DigestAccepted(digest)
    case Boolean(_) => true
    case Integer(_) => true
  }

  predicate FactsOk(env: Env, facts: map<string, FactValue>) {
    facts != map[] && forall name :: name in facts ==> env.safeId(name) && FactOk(env, facts[name])
  }

  ghost predicate TextsOk(env: Env, texts: seq<string>) {
    NoDuplicates(texts) && forall t :: t in texts ==> env.text(t)
  }

  ghost predicate ValidProjection(env: Env, p: Projection) {
    && EventsOk(env, p.orderedEvents)
    && StatesOk(env, p.durableState)
    && RowsOk(env, p.lifecycle)
    && Bound(p)
    && OwnershipOk(p.ownership)
    && FactsOk(env, p.outputFacts)
    && p.failClosedFacts != [] && TextsOk(env, p.failClosedFacts)
  }

  // ---------- the checks ----------

  function ValidateOptionalId(env: Env, id: Option<string>): (verdict: Verdict<ValidationError>)
    ensures verdict.Pass? <==> forall x :: id == Some(x) ==> env.safeId(x)
  {
    match id
    case None => Pass
    case Some(x) => Require(env.safeId(x), Invalid(Syntax))
  }

  function ValidateOptionalArtifact(env: Env, artifact: Option<ArtifactIdentity>): (verdict: Verdict<ValidationError>)
    ensures verdict.Pass? <==> forall a :: artifact == Some(a) ==> ArtifactOk(env, a)
  {
    match artifact
    case None => Pass
    case Some(a) => ValidateArtifact(env, a)
  }

  function ValidateEvent(env: Env, e: EventFact): (verdict: Verdict<ValidationError>)
    ensures verdict.Pass? <==> EventOk(env, e)
  {
    if !env.safeId(e.operationId) then Fail(Invalid(Syntax))
    else if ValidateOptionalId(env, e.attemptId).Fail? then ValidateOptionalId(env, e.attemptId)
    else if ValidateOptionalId(env, e.correlationId).Fail? then ValidateOptionalId(env, e.correlationId)
    else if !env.safeId(e.kind) then Fail(Invalid(Syntax))
    else ValidateOptionalArtifact(env, e.payload)
  }

  /** The transition table, disposition by disposition. */
  function ValidTransition(d: DurableStateFact): (valid: bool)
    ensures valid <==> TransitionOk(d)
  {
    match d.disposition
    case Unchanged => d.before.Some? && d.before == d.after
    case Created => d.before.None? && d.after.Some?
    case Updated => d.before.Some? && d.after.Some? && d.before != d.after
    case Removed => d.before.Some? && d.after.None?
    case Quarantined => d.before.Some? && d.after.Some?
    case Recovered => d.before.Some? && d.after.Some?
  }

  function ValidateOwnership(o: OwnershipFacts): (verdict: Verdict<ValidationError>)
    ensures verdict.Pass? <==> o == OwnershipFacts(0, 0, o.joinedWorkers, o.joinedWorkers)
  {
    if o.activeOperations != 0 then Fail(Invalid(Ownership))
    else if o.retainedTasks != 0 then Fail(Invalid(Ownership))
    else if o.joinedWorkers != o.expectedWorkers then Fail(Inconsistent(Ownership))
    else Pass
  }

  function ValidateFact(env: Env, value: FactValue): (verdict: Verdict<ValidationError>)
    ensures verdict.Pass? <==> FactOk(env, value)
  {
    if value.Text? && !env.text(value.text) then Fail(Invalid(Syntax))
    else if value.Digest? then
      PC.DigestValidIff(value.digest);
      Require(value.digest.Valid(), Invalid(OutputFacts))
    else Pass
  }

  function ValidateOutputFacts(env: Env, facts: map<string, FactValue>): (verdict: Verdict<ValidationError>)
    ensures verdict.Pass? <==> FactsOk(env, facts)
  {
    if facts == map[] then Fail(Empty(OutputFacts))
    else if exists name :: name in facts && !env.safeId(name) then Fail(Invalid(Syntax))
    else if exists name :: name in facts && ValidateFact(env, facts[name]).Fail? then Fail(Invalid(OutputFacts))
    else Pass
  }

  method ValidateEvents(env: Env, events: seq<EventFact>) returns (verdict: Verdict<ValidationError>)
    ensures verdict.Pass? <==> EventsOk(env, events)
  {
    if events == [] {
      return Fail(Empty(OrderedEvents));
    }
    for expected := 0 to |events|
      invariant forall i :: 0 <= i < expected ==> events[i].sequence == i && EventOk(env, events[i])
    {
      if events[expected].sequence != expected {
        return Fail(Invalid(OrderedEvents));
      }
      verdict := ValidateEvent(env, events[expected]);
      if verdict.Fail? {
        return;
      }
    }
    return Pass;
  }

  method ValidateDurableState(env: Env, states: seq<DurableStateFact>) returns (verdict: Verdict<ValidationError>)
    ensures verdict.Pass? <==> StatesOk(env, states)
  {
    if states == [] {
      return Fail(Empty(DurableState));
    }
    var ids: set<string> := {};
    for i := 0 to |states|
      invariant forall x :: x in ids <==> exists j :: 0 <= j < i && StateIds(states)[j] == x
      invariant forall j, k :: 0 <= j < k < i ==> StateIds(states)[j] != StateIds(states)[k]
      invariant forall j :: 0 <= j < i ==> StateOk(env, states[j])
    {
      var state := states[i];
      assert state in states;
      assert StateIds(states)[i] == state.stateId;
      if !env.safeId(state.stateId) || !env.safeId(state.schemaId) {
        return Fail(Invalid(Syntax));
      }
      if state.stateId in ids {
        return Fail(Duplicate(DurableStateId));
      }
      ids := ids + {state.stateId};
      verdict := ValidateOptionalArtifact(env, state.before);
      if verdict.Fail? {
        return;
      }
      verdict := ValidateOptionalArtifact(env, state.after);
      if verdict.Fail? {
        return;
      }
      if !ValidTransition(state) {
        return Fail(Inconsistent(Disposition));
      }
    }
    return Pass;
  }

  method ValidateLifecycle(env: Env, rows: seq<LifecycleFact>) returns (verdict: Verdict<ValidationError>)
    ensures verdict.Pass? <==> RowsOk(env, rows)
  {
    if rows == [] {
      return Fail(Empty(LifecycleRows));
    }
    var identities: set<Attempt> := {};
    for i := 0 to |rows|
      invariant forall x :: x in identities <==> exists j :: 0 <= j < i && RowAttempts(rows)[j] == x
      invariant forall j, k :: 0 <= j < k < i ==> RowAttempts(rows)[j] != RowAttempts(rows)[k]
      invariant forall j :: 0 <= j < i ==> RowOk(env, rows[j])
    {
      var fact := rows[i];
      assert fact in rows;
      assert RowAttempts(rows)[i] == RowAttempt(fact);
      if !env.safeId(fact.operationId) {
        return Fail(Invalid(Syntax));
      }
      verdict := ValidateOptionalId(env, fact.attemptId);
      if verdict.Fail? {
        return;
      }
      verdict := ValidateOptionalId(env, fact.correlationId);
      if verdict.Fail? {
        return;
      }
      if !fact.released {
        return Fail(Invalid(Released));
      }
      if RowAttempt(fact) in identities {
        return Fail(Duplicate(LifecycleIdentity));
      }
      identities := identities + {RowAttempt(fact)};
    }
    return Pass;
  }

  function EventIdentities(p: Projection): set<Identity> {
    set e | e in p.orderedEvents :: EventIdentity(e)
  }

  function RowIdentities(p: Projection): set<Identity> {
    set l | l in p.lifecycle :: RowIdentity(l)
  }

  function ValidateEventLifecycleBinding(p: Projection): (verdict: Verdict<ValidationError>)
    ensures verdict.Pass? <==> Bound(p)
  {
    BoundMeansEqualSets(p);
    Require(EventIdentities(p) == RowIdentities(p), Inconsistent(EventLifecycleIdentity))
  }

  lemma BelongsMeansSameIdentity(e: EventFact, l: LifecycleFact)
    ensures Belongs(e, l) <==> EventIdentity(e) == RowIdentity(l)
  {
  }

  lemma BoundMeansEqualSets(p: Projection)
    ensures Bound(p) <==> EventIdentities(p) == RowIdentities(p)
  {
    forall e, l
      ensures Belongs(e, l) <==> EventIdentity(e) == RowIdentity(l)
    {
      BelongsMeansSameIdentity(e, l);
    }
    hide Belongs, EventIdentity, RowIdentity;
    if EventIdentities(p) == RowIdentities(p) {
      forall e | e in p.orderedEvents
        ensures exists l :: l in p.lifecycle && Belongs(e, l)
      {
        assert EventIdentity(e) in RowIdentities(p);
        var l :| l in p.lifecycle && RowIdentity(l) == EventIdentity(e);
        assert Belongs(e, l);
      }
      forall l | l in p.lifecycle
        ensures exists e :: e in p.orderedEvents && Belongs(e, l)
      {
        assert RowIdentity(l) in EventIdentities(p);
        var e :| e in p.orderedEvents && EventIdentity(e) == RowIdentity(l);
        assert Belongs(e, l);
      }
    } else if Bound(p) {
      forall e | e in p.orderedEvents
        ensures EventIdentity(e) in RowIdentities(p)
      {
        var l :| l in p.lifecycle && Belongs(e, l);
      }
      forall l | l in p.lifecycle
        ensures RowIdentity(l) in EventIdentities(p)
      {
        var e :| e in p.orderedEvents && Belongs(e, l);
      }
    }
  }

  method ValidateProjection(env: Env, p: Projection) returns (verdict: Verdict<ValidationError>)
    ensures verdict.Pass? <==> ValidProjection(env, p)
  {
    hide EventsOk, StatesOk, RowsOk, Bound, FactsOk;
    verdict := ValidateEvents(env, p.orderedEvents);
    if verdict.Fail? {
      return;
    }
    verdict := ValidateDurableState(env, p.durableState);
    if verdict.Fail? {
      return;
    }
    verdict := ValidateLifecycle(env, p.lifecycle);
    if verdict.Fail? {
      return;
    }
    verdict := ValidateEventLifecycleBinding(p);
    if verdict.Fail? {
      return;
    }
    verdict := ValidateOwnership(p.ownership);
    if verdict.Fail? {
      return;
    }
    verdict := ValidateOutputFacts(env, p.outputFacts);
    if verdict.Fail? {
      return;
    }
    if p.failClosedFacts == [] {
      return Fail(Empty(FailClosedFacts));
    }
    verdict := ValidateUniqueText(env, FailClosedFacts, p.failClosedFacts);
  }

  method ValidateUniqueText(env: Env, field: Field, texts: seq<string>) returns (verdict: Verdict<ValidationError>)
    ensures verdict.Pass? <==> TextsOk(env, texts)
  {
    var same := (t: string) => t;
    verdict := ValidateUniqueById(texts, same, env.text, Invalid(Syntax), Duplicate(field));
    assert Map(texts, same) == texts;
  }

  // ---------- what acceptance guarantees ----------

  lemma RowOf(p: Projection, e: EventFact) returns (l: LifecycleFact)
    requires EveryEventHasARow(p) && e in p.orderedEvents
    ensures l in p.lifecycle && Belongs(e, l)
  {
    l :| l in p.lifecycle && Belongs(e, l);
  }

  lemma EventOf(p: Projection, l: LifecycleFact) returns (i: nat)
    requires EveryRowHasAnEvent(p) && l in p.lifecycle
    ensures i < |p.orderedEvents| && Belongs(p.orderedEvents[i], l)
  {
    var e :| e in p.orderedEvents && Belongs(e, l);
    i :| i < |p.orderedEvents| && p.orderedEvents[i] == e;
  }

  /** One attempt of an operation has one correlation, across all events and lifecycle rows. */
  lemma CorrelationIsAFunction(env: Env, p: Projection, one: EventFact, two: EventFact)
    requires ValidProjection(env, p) && one in p.orderedEvents && two in p.orderedEvents
    requires one.operationId == two.operationId && one.attemptId == two.attemptId
    ensures one.correlationId == two.correlationId
  {
    hide EventsOk, StatesOk, FactsOk, RowOk, TextsOk, EveryEventHasARow, EveryRowHasAnEvent;
    var l := RowOf(p, one);
    var m := RowOf(p, two);
    RowIsDetermined(p.lifecycle, l, m);
  }

  lemma RowIsDetermined(rows: seq<LifecycleFact>, l: LifecycleFact, m: LifecycleFact)
    requires NoDuplicates(RowAttempts(rows)) && l in rows && m in rows && RowAttempt(l) == RowAttempt(m)
    ensures l == m
  {
    var i :| 0 <= i < |rows| && rows[i] == l;
    var j :| 0 <= j < |rows| && rows[j] == m;
    assert RowAttempts(rows)[i] == RowAttempts(rows)[j];
  }

  /** Every event belongs to exactly one lifecycle row. */
  lemma EveryEventHasOneRow(env: Env, p: Projection, e: EventFact) returns (row: LifecycleFact)
    requires ValidProjection(env, p) && e in p.orderedEvents
    ensures row in p.lifecycle && Belongs(e, row)
    ensures forall l ::
      l in p.lifecycle && l.operationId == e.operationId && l.attemptId == e.attemptId ==> l == row
  {
    hide EventsOk, StatesOk, FactsOk, RowOk, TextsOk, EveryEventHasARow, EveryRowHasAnEvent, RowAttempts;
    row := RowOf(p, e);
    forall l | l in p.lifecycle && l.operationId == e.operationId && l.attemptId == e.attemptId
      ensures l == row
    {
      RowIsDetermined(p.lifecycle, l, row);
    }
  }

  /** There are as many distinct event identities as lifecycle rows. */
  lemma IdentitiesMatchRows(env: Env, p: Projection)
    requires ValidProjection(env, p)
    ensures |EventIdentities(p)| == |p.lifecycle|
    ensures EventIdentities(p) == RowIdentities(p)
  {
    hide EventsOk, StatesOk, FactsOk, RowOk;
    BoundMeansEqualSets(p);
    var ids := Map(p.lifecycle, RowIdentity);
    forall i, j | 0 <= i < j < |p.lifecycle|
      ensures ids[i] != ids[j]
    {
      assert RowAttempts(p.lifecycle)[i] != RowAttempts(p.lifecycle)[j];
    }
    ElementsCount(ids);
    RowIdentitiesAreElements(p);
  }

  lemma RowIdentitiesAreElements(p: Projection)
    ensures Elements(Map(p.lifecycle, RowIdentity)) == RowIdentities(p)
  {
    var ids := Map(p.lifecycle, RowIdentity);
    forall x | x in RowIdentities(p)
      ensures x in Elements(ids)
    {
      var l :| l in p.lifecycle && RowIdentity(l) == x;
      var i :| 0 <= i < |p.lifecycle| && p.lifecycle[i] == l;
      assert ids[i] == x;
    }
    forall x | x in Elements(ids)
      ensures x in RowIdentities(p)
    {
      var i :| 0 <= i < |ids| && ids[i] == x;
      assert p.lifecycle[i] in p.lifecycle;
    }
  }

  // ---------- positions and the retry check ----------

  function PositionFrom(events: seq<EventFact>, id: Identity, i: nat): (position: Option<nat>)
    requires i <= |events|
    ensures position.None? <==> forall j :: i <= j < |events| ==> EventIdentity(events[j]) != id
    ensures position.Some? ==>
      && i <= position.value < |events| && EventIdentity(events[position.value]) == id
      && forall j :: i <= j < position.value ==> EventIdentity(events[j]) != id
    decreases |events| - i
  {
    if i == |events| then None
    else if EventIdentity(events[i]) == id then Some(i)
    else PositionFrom(events, id, i + 1)
  }

  /** Where the first event of a lifecycle row stands. */
  function EventPosition(p: Projection, row: LifecycleFact): Option<nat> {
    PositionFrom(p.orderedEvents, RowIdentity(row), 0)
  }

  /** In an accepted projection every lifecycle row has a position. */
  lemma EveryRowHasAPosition(env: Env, p: Projection, row: LifecycleFact)
    requires ValidProjection(env, p) && row in p.lifecycle
    ensures EventPosition(p, row).Some?
  {
    hide EventsOk, StatesOk, FactsOk, RowsOk, TextsOk, EveryEventHasARow, EveryRowHasAnEvent;
    var i := EventOf(p, row);
    BelongsMeansSameIdentity(p.orderedEvents[i], row);
  }

  predicate RetryPair(p: Projection, cancelled: LifecycleFact, completed: LifecycleFact) {
    && cancelled.terminal == Cancelled && cancelled.attemptId.Some? && cancelled.correlationId.Some?
    && completed.terminal == Completed && completed.attemptId.Some?
    && completed.operationId != cancelled.operationId
    && completed.attemptId != cancelled.attemptId
    && completed.correlationId == cancelled.correlationId
  }

  predicate Precedes(p: Projection, cancelled: LifecycleFact, completed: LifecycleFact) {
    var one := EventPosition(p, cancelled);
    var two := EventPosition(p, completed);
    one.Some? && two.Some? && one.value < two.value
  }

  function ValidateMomChatRetry(p: Projection): Verdict<ValidationError> {
    if exists cancelled, completed :: cancelled in p.lifecycle && completed in p.lifecycle
         && RetryPair(p, cancelled, completed) && Precedes(p, cancelled, completed)
    then Pass else Fail(Invalid(CancelRetry))
  }

  /** Some event of the first row comes before every event of the second. */
  ghost predicate StartsBefore(p: Projection, first: LifecycleFact, second: LifecycleFact) {
    exists i :: 0 <= i < |p.orderedEvents| && Belongs(p.orderedEvents[i], first)
      && forall j :: 0 <= j < |p.orderedEvents| && Belongs(p.orderedEvents[j], second) ==> i < j
  }

  /**
   An attempt was cancelled, and a later one of another operation, with another attempt id and the same
   correlation id, completed.
   */
  ghost predicate ShowsRetry(p: Projection) {
    exists cancelled, completed :: cancelled in p.lifecycle && completed in p.lifecycle
      && Retries(p, cancelled, completed)
  }

  ghost predicate Retries(p: Projection, cancelled: LifecycleFact, completed: LifecycleFact) {
    && cancelled.terminal == Cancelled && completed.terminal == Completed
    && cancelled.operationId != completed.operationId
    && cancelled.attemptId != None && completed.attemptId != None && cancelled.attemptId != completed.attemptId
    && cancelled.correlationId != None && cancelled.correlationId == completed.correlationId
    && StartsBefore(p, cancelled, completed)
  }

  lemma FirstPositionDecides(p: Projection, one: LifecycleFact, two: LifecycleFact)
    requires EventPosition(p, one).Some? && EventPosition(p, two).Some?
    ensures Precedes(p, one, two) <==> StartsBefore(p, one, two)
  {
    var events := p.orderedEvents;
    forall k | 0 <= k < |events|
      ensures Belongs(events[k], one) <==> EventIdentity(events[k]) == RowIdentity(one)
      ensures Belongs(events[k], two) <==> EventIdentity(events[k]) == RowIdentity(two)
    {
      BelongsMeansSameIdentity(events[k], one);
      BelongsMeansSameIdentity(events[k], two);
    }
    hide RowIdentity, EventIdentity, Belongs;
    var i := EventPosition(p, one).value;
    assert Belongs(events[i], one);
  }

  lemma PairRetries(env: Env, p: Projection, one: LifecycleFact, two: LifecycleFact)
    requires ValidProjection(env, p) && one in p.lifecycle && two in p.lifecycle
    ensures RetryPair(p, one, two) && Precedes(p, one, two) <==> Retries(p, one, two)
  {
    hide ValidProjection, Precedes, StartsBefore, EventPosition;
    EveryRowHasAPosition(env, p, one);
    EveryRowHasAPosition(env, p, two);
    FirstPositionDecides(p, one, two);
  }

  /**
   The cancel-and-retry check accepts exactly when a cancelled attempt started before a completed one of another
   operation and another attempt with the same correlation.
   */
  lemma RetryAcceptsIffRetried(env: Env, p: Projection)
    requires ValidProjection(env, p)
    ensures ValidateMomChatRetry(p).Pass? <==> ShowsRetry(p)
  {
    hide ValidProjection, RetryPair, Precedes, Retries;
    forall one, two | one in p.lifecycle && two in p.lifecycle
      ensures RetryPair(p, one, two) && Precedes(p, one, two) <==> Retries(p, one, two)
    {
      PairRetries(env, p, one, two);
    }
  }
}

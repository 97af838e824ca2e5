/** What publication runs promise: one run at any store, then any history of runs. */
module PublicationTheorems {
  import opened Wrappers
  import opened Faults
  import opened PublicationContracts
  import opened Publication
  import opened PublicationEndings

  // ---------- one run ----------

  /** The artifact's bytes are what is visible, under whatever artifact id. */
  predicate Holds(st: Store, artifact: ArtifactIdentity) {
    && st.visible.Some?
    && st.visible.value.digest == artifact.digest && st.visible.value.length == artifact.length
  }

  /** Something else occupies the destination. */
  predicate Occupied(st: Store, artifact: ArtifactIdentity) {
    && st.visible.Some?
    && (st.visible.value.digest != artifact.digest || st.visible.value.length != artifact.length)
  }

  /** The request is well formed, its length is a 64-bit number and the store's stages are its own. */
  ghost predicate Ready(st: Store, request: PublicationRequest) {
    Fits(request.artifact) && StagesNumbered(st) && !Refused(st, request)
  }

  function EndingAt(st: Store, request: PublicationRequest): Ending {
    EndingOf(st.faults, st.visible, request.artifact)
  }

  function OutcomeAt(st: Store, request: PublicationRequest): (outcome: PublicationOutcome) {
    OutcomeFor(EndingAt(st, request), request)
  }

  lemma RunReturns(st: Store, request: PublicationRequest)
    requires Ready(st, request)
    ensures Run(st, request) == Ended(st, request)
    ensures Run(st, request).result == Returned(OutcomeAt(st, request))
    ensures Run(st, request).store.log == Joined(st.log, LogOf(st.faults, EndingAt(st, request)))
    ensures OutcomeAt(st, request).Validate().Pass?
  {
    hide Run, Ended, StagesNumbered, OutcomeFor, EndingOf, PublicationOutcome.Validate, LogOf, Joined;
    RunIsItsEnding(st, request);
    EndedReturns(st, request);
    EndedLogs(st, request);
    EveryOutcomeIsValid(EndingAt(st, request), request);
  }

  lemma EndedLogs(st: Store, request: PublicationRequest)
    ensures Ended(st, request).store.log == Joined(st.log, LogOf(st.faults, EndingAt(st, request)))
  {
    hide OutcomeFor, EndingOf, LogOf, Joined, FaultsAfter;
  }

  predicate LeavesNothing(ending: Ending) {
    ending.Conflict? || ending.Mismatch? || ending.StageUnsynced? || ending.NeverVisible?
  }

  lemma NotPublishedEndings(ending: Ending, request: PublicationRequest)
    ensures OutcomeFor(ending, request).NotPublished? <==> LeavesNothing(ending)
  {
    hide ServiceErrorFor, ConflictError, Receipt;
  }

  lemma EndedHolds(st: Store, request: PublicationRequest)
    ensures Holds(Ended(st, request).store, request.artifact) <==> !LeavesNothing(EndingAt(st, request))
  {
    hide OutcomeFor, FaultsAfter, LogOf, Joined, ParentFault, CorruptionIsNoOp;
  }

  /** A run says "not published" exactly when the requested content is not what is visible afterwards. */
  lemma NotPublishedIffNotVisible(st: Store, request: PublicationRequest)
    requires Ready(st, request)
    ensures Run(st, request).result.Returned?
    ensures Run(st, request).result.outcome.NotPublished? <==> !Holds(Run(st, request).store, request.artifact)
  {
    hide Run, Ready, Ended, OutcomeFor, EndingOf, LeavesNothing, LogOf, Joined;
    RunReturns(st, request);
    NotPublishedEndings(EndingAt(st, request), request);
    EndedHolds(st, request);
  }

  /** A visible entry is never replaced, and only the requested artifact itself ever becomes visible. */
  lemma RunNeverClobbers(st: Store, request: PublicationRequest)
    requires Ready(st, request)
    ensures var after := Run(st, request).store;
      && (st.visible.Some? ==> after.visible == st.visible)
      && (after.visible != st.visible ==> after.visible == Some(request.artifact))
      && after.stages == st.stages
      && st.nextStage <= after.nextStage <= st.nextStage + 1
      && StagesNumbered(after)
  {
    hide Run, OutcomeFor, FaultsAfter, LogOf;
    RunReturns(st, request);
  }

  /** A well-formed request names an artifact and a destination within their bounds. */
  lemma RefusedIffMalformedOrExhausted(st: Store, request: PublicationRequest)
    requires Fits(request.artifact) && StagesNumbered(st)
    ensures Run(st, request).result.Aborted? <==>
      || !ArtifactAccepted(request.artifact) || !DestinationAccepted(request.destination)
      || (st.visible.None? && st.nextStage >= 0xFFFF_FFFF_FFFF_FFFF)
  {
    hide Run, ArtifactAccepted, DestinationAccepted, StagesNumbered;
    ArtifactValidIff(request.artifact);
    DestinationValidIff(request.destination);
    RunIsItsEnding(st, request);
  }

  function ReceiptOf(outcome: PublicationOutcome): Option<PublicationReceipt> {
    if outcome.NotPublished? then None else Some(outcome.receipt)
  }

  /** A receipt names the request, and calls itself a recovery exactly when the content was there before. */
  lemma ReceiptsAreHonest(st: Store, request: PublicationRequest)
    requires Ready(st, request)
    ensures Run(st, request).result.Returned?
    ensures var receipt := ReceiptOf(Run(st, request).result.outcome);
      receipt.Some? ==>
        && receipt.value.artifact == request.artifact && receipt.value.destination == request.destination
        && receipt.value.schema == "delysis.publication_receipt.v0" && receipt.value.visible
        && (receipt.value.idempotentRecovery <==> st.visible.Some?)
        && (!receipt.value.idempotentRecovery ==> Run(st, request).store.visible == Some(request.artifact))
  {
    hide Run, Ready, ServiceErrorFor, ConflictError, FaultsAfter, LogOf;
    RunReturns(st, request);
  }

  lemma ConflictIsItsOwnError(error: PublicationError)
    ensures NotVisible(error) != NotPublished(ConflictError())
  {
  }

  lemma ConflictTouchesNothing(st: Store, request: PublicationRequest)
    requires Occupied(st, request.artifact)
    ensures Ended(st, request).store == st.(log := Plus(st.log, InspectDestination, [], true))
  {
    RecoveryLogAddsUp(st.log, st.faults, Conflict);
    hide LogOf, Joined;
  }

  /** A conflict is reported only for what was there before the run: the arm after a failed publication is dead. */
  lemma ConflictIffOccupiedBefore(st: Store, request: PublicationRequest)
    requires Ready(st, request)
    ensures Run(st, request).result == Returned(NotPublished(ConflictError())) <==>
      && st.visible.Some?
      && (st.visible.value.digest != request.artifact.digest || st.visible.value.length != request.artifact.length)
    ensures Occupied(st, request.artifact) ==>
      Run(st, request).store == st.(log := Plus(st.log, InspectDestination, [], true))
  {
    hide Run, Ready, Ended, NotVisible, ConflictError;
    RunReturns(st, request);
    ConflictIsItsOwnError(VerificationMismatch);
    ConflictIsItsOwnError(Injected(BeforeFileSync));
    ConflictIsItsOwnError(Injected(BeforeVisibility));
    if Occupied(st, request.artifact) {
      ConflictTouchesNothing(st, request);
    }
  }

  /** Artifact ids play no part: equal contents before and requested reach the same ending and log alike. */
  lemma IdsDoNotMatter(st: Store, st': Store, request: PublicationRequest, request': PublicationRequest)
    requires Ready(st, request) && Ready(st', request')
    requires st'.faults == st.faults && (st'.visible.Some? <==> st.visible.Some?)
    requires st.visible.Some? ==>
      && st'.visible.value.digest == st.visible.value.digest && st'.visible.value.length == st.visible.value.length
    requires request'.artifact.digest == request.artifact.digest && request'.artifact.length == request.artifact.length
    ensures EndingAt(st', request') == EndingAt(st, request)
    ensures IsPublished(Run(st', request').result) == IsPublished(Run(st, request).result)
    ensures Run(st', request').store.faults == Run(st, request).store.faults
    ensures var added := LogOf(st.faults, EndingAt(st, request));
      && Run(st, request).store.log == Joined(st.log, added)
      && Run(st', request').store.log == Joined(st'.log, added)
  {
    SameEnding(st.faults, st.visible, st'.visible, request.artifact, request'.artifact);
    hide Run, Ready, Ended, EndingOf, LogOf, Joined, FaultsAfter, OutcomeFor, PublicationOutcome.Validate;
    RunReturns(st, request);
    RunReturns(st', request');
    PublishedEndings(EndingAt(st, request), request);
    PublishedEndings(EndingAt(st, request), request');
    EndedFaults(st, request);
    EndedFaults(st', request');
  }

  lemma PublishedEndings(ending: Ending, request: PublicationRequest)
    ensures OutcomeFor(ending, request).Published? <==> ending.Recovered? || ending.PublishedFresh?
  {
    hide ServiceErrorFor, ConflictError, Receipt;
  }

  lemma EndedFaults(st: Store, request: PublicationRequest)
    ensures Ended(st, request).store.faults == FaultsAfter(st.faults, EndingAt(st, request))
  {
    hide OutcomeFor, EndingOf, LogOf, Joined, FaultsAfter;
  }

  lemma SameEnding(
      faults: seq<FaultPoint>, visible: Option<ArtifactIdentity>, visible': Option<ArtifactIdentity>,
      artifact: ArtifactIdentity, artifact': ArtifactIdentity)
    requires visible.Some? <==> visible'.Some?
    requires visible.Some? ==>
      visible'.value.digest == visible.value.digest && visible'.value.length == visible.value.length
    requires artifact'.digest == artifact.digest && artifact'.length == artifact.length
    ensures EndingOf(faults, visible, artifact) == EndingOf(faults, visible', artifact')
  {
    hide ParentFault;
  }

  // ---------- what an outcome's error says ----------

  /** The error of the runner's adapter, field by field. */
  predicate Says(error: ServiceError, code: string, errorClass: ErrorClass, retry: RetryAdvice, detail: string) {
    && error.schema == "delysis.service_error.v0" && error.operationId == None && error.service == "publication-testkit"
    && error.code == code && error.errorClass == errorClass && error.retry == retry && error.safeDetail == detail
  }

  predicate SaysConflict(error: ServiceError) {
    Says(error, "publication.destination_conflict", ErrorClass.Publication, Never,
         "a different artifact already occupies the destination")
  }

  predicate SaysMismatch(error: ServiceError) {
    Says(error, "publication.verification_mismatch", Integrity, Never,
         "staged digest or length did not match the requested artifact")
  }

  predicate SaysNotVisible(error: ServiceError) {
    Says(error, "publication.not_visible", Storage, Immediate, "the requested artifact did not become visible")
  }

  predicate SaysUnknown(error: ServiceError) {
    Says(error, "publication.durability_unknown", ErrorClass.Publication, AfterRestart,
         "the exact artifact is visible but file or parent durability is unknown")
  }

  lemma ErrorsInFields(ending: Ending, request: PublicationRequest)
    ensures match OutcomeFor(ending, request)
      case NotPublished(error) =>
        if ending.Conflict? then SaysConflict(error)
        else if ending.Mismatch? then SaysMismatch(error) else SaysNotVisible(error)
      case Published(_) => true
      case PublishedDurabilityUnknown(_, error) => SaysUnknown(error)
  {
    hide SaysConflict, SaysMismatch, SaysNotVisible, SaysUnknown, ServiceErrorFor, ConflictError, Receipt;
    ConflictInFields();
    MismatchInFields();
    NotVisibleInFields(Injected(BeforeFileSync));
    NotVisibleInFields(Injected(BeforeVisibility));
    UnknownInFields(Injected(BeforeVisibleFileSync));
    UnknownInFields(Injected(BeforeParentSync));
    UnknownInFields(Injected(AfterNoClobberVisibility));
  }

  lemma ConflictInFields()
    ensures SaysConflict(ConflictError())
  {
  }

  lemma MismatchInFields()
    ensures SaysMismatch(ServiceErrorFor(VerificationMismatch, NotPublishedContext))
  {
  }

  lemma NotVisibleInFields(error: PublicationError)
    requires !error.VerificationMismatch?
    ensures SaysNotVisible(ServiceErrorFor(error, NotPublishedContext))
  {
  }

  lemma UnknownInFields(error: PublicationError)
    ensures SaysUnknown(ServiceErrorFor(error, VisibleDurabilityUnknownContext))
  {
  }

  /** A failed run says why: another content was there, its copy did not verify, or it never became visible. */
  lemma ErrorsSayWhy(st: Store, request: PublicationRequest)
    requires Ready(st, request)
    ensures Run(st, request).result.Returned?
    ensures match Run(st, request).result.outcome
      case NotPublished(error) =>
        if st.visible.Some? then SaysConflict(error)
        else if Deed(VerifyExactDigestAndLength, false) in DeedsAt(st, request) then SaysMismatch(error)
        else SaysNotVisible(error)
      case Published(_) => true
      case PublishedDurabilityUnknown(_, error) => SaysUnknown(error)
  {
    hide Run, Ready, OutcomeFor, EndingOf, DeedsOf, SaysConflict, SaysMismatch, SaysNotVisible, SaysUnknown, LogOf;
    RunReturns(st, request);
    ErrorsInFields(EndingAt(st, request), request);
    VerificationInEnding(EndingAt(st, request));
    NotPublishedEndings(EndingAt(st, request), request);
    OccupiedEndings(st, request);
  }

  lemma OccupiedEndings(st: Store, request: PublicationRequest)
    ensures st.visible.Some? <==> !IsFresh(EndingAt(st, request))
  {
    hide ParentFault, CorruptionIsNoOp;
  }

  /** Faults that fire only corrupt a copy into itself. */
  predicate OnlyNoOpFired(st: Store, after: Store, artifact: ArtifactIdentity) {
    || after.faults == st.faults
    || (&& CorruptionIsNoOp(artifact) && st.visible.None?
        && Fires(st.faults, CorruptStagedBeforeVerification) && after.faults == st.faults[1..])
  }

  /** Publication succeeds exactly when nothing is in the way and no effective fault fires. */
  lemma PublishedIffNothingFired(st: Store, request: PublicationRequest)
    requires Ready(st, request)
    ensures Run(st, request).result.Returned?
    ensures Run(st, request).result.outcome.Published? <==>
      !Occupied(st, request.artifact) && OnlyNoOpFired(st, Run(st, request).store, request.artifact)
  {
    hide Run, Ready, ServiceErrorFor, ConflictError, Receipt, LogOf;
    RunReturns(st, request);
  }

  // ---------- faults ----------

  function Consumed(before: Store, after: Store): int {
    |before.faults| - |after.faults|
  }

  predicate IsPublished(result: RunResult) {
    result.Returned? && result.outcome.Published?
  }

  /** A corruption of the staged copy fires and changes nothing. */
  predicate NoOpFires(st: Store, artifact: ArtifactIdentity) {
    st.visible.None? && CorruptionIsNoOp(artifact) && Fires(st.faults, CorruptStagedBeforeVerification)
  }

  /** Every failure that is not a conflict uses up exactly one fault, besides a corruption that changes nothing. */
  lemma FailuresConsumeFaults(st: Store, request: PublicationRequest)
    requires Ready(st, request) && !Occupied(st, request.artifact)
    ensures var run := Run(st, request);
      Consumed(st, run.store)
      == (if NoOpFires(st, request.artifact) then 1 else 0) + (if IsPublished(run.result) then 0 else 1)
  {
    hide Run, Ready, ServiceErrorFor, ConflictError, Receipt, LogOf, CorruptionIsNoOp;
    RunReturns(st, request);
  }

  function SelfCorruptingRequest(): PublicationRequest {
    PublicationRequest(
      ArtifactIdentity("a", ContentDigest(Sha256, CORRUPT_HEX), U64_MAX), DestinationIdentity("fs", "entry"))
  }

  lemma DeedsHold(steps: seq<PublicationStep>, failed: Option<PublicationStep>, step: PublicationStep)
    ensures Deed(step, true) in DeedsFrom(steps, failed) <==> step in steps && failed != Some(step)
    ensures Deed(step, false) in DeedsFrom(steps, failed) <==> step in steps && failed == Some(step)
  {
  }

  /** What the runner called during one run, and how it was answered. */
  function DeedsAt(st: Store, request: PublicationRequest): seq<Deed> {
    DeedsOf(EndingAt(st, request))
  }

  lemma VerificationInEnding(ending: Ending)
    ensures Deed(VerifyExactDigestAndLength, false) in DeedsOf(ending) <==> ending.Mismatch?
    ensures Deed(VerifyExactDigestAndLength, true) in DeedsOf(ending) <==> IsFresh(ending) && !ending.Mismatch?
  {
    hide DeedsFrom;
    DeedsHold(TraceOf(ending), FailedStep(ending), VerifyExactDigestAndLength);
  }

  /** Verification fails in a run exactly if a corruption fires that changes something. */
  lemma VerificationFailsIffCorrupted(st: Store, request: PublicationRequest)
    requires Ready(st, request)
    ensures Run(st, request).store.log.deeds == st.log.deeds + DeedsAt(st, request)
    ensures Deed(VerifyExactDigestAndLength, false) in DeedsAt(st, request) <==>
      && st.visible.None? && Fires(st.faults, CorruptStagedBeforeVerification) && !CorruptionIsNoOp(request.artifact)
  {
    hide Run, Ready, DeedsOf, CorruptionIsNoOp, ParentFault, QueriesOf, TraceOf, OutcomeFor;
    RunReturns(st, request);
    VerificationInEnding(EndingAt(st, request));
  }

  /**
   Whenever corrupting the requested artifact is a no-op, the fault is used up and verification passes all the
   same; whether the run publishes depends on the rest of the script alone.
   */
  lemma NoOpCorruptionGoesUnnoticed(st: Store, request: PublicationRequest)
    requires Ready(st, request) && NoOpFires(st, request.artifact)
    ensures Deed(VerifyExactDigestAndLength, true) in DeedsAt(st, request)
    ensures IsPublished(Run(st, request).result) <==> Run(st, request).store.faults == st.faults[1..]
    ensures st.faults == [CorruptStagedBeforeVerification] ==> IsPublished(Run(st, request).result)
  {
    hide Run, Ready, DeedsOf, EndingOf, CorruptionIsNoOp, IsFresh;
    NoOpIsNoMismatch(st, request);
    VerificationInEnding(EndingAt(st, request));
    EmptyMeansFree(st, request.artifact);
    FailuresConsumeFaults(st, request);
    RunTakesAPrefix(st, request);
  }

  lemma EmptyMeansFree(st: Store, artifact: ArtifactIdentity)
    ensures st.visible.None? ==> !Occupied(st, artifact)
  {
  }

  lemma NoOpIsNoMismatch(st: Store, request: PublicationRequest)
    requires NoOpFires(st, request.artifact)
    ensures IsFresh(EndingAt(st, request)) && !EndingAt(st, request).Mismatch?
  {
    hide CorruptionIsNoOp, ParentFault;
  }

  /** A run takes faults off the front of the script only. */
  lemma RunTakesAPrefix(st: Store, request: PublicationRequest)
    requires Ready(st, request)
    ensures var k := Consumed(st, Run(st, request).store); 0 <= k && Run(st, request).store.faults == st.faults[k..]
  {
    hide Run, Ready, EndingOf, OutcomeFor, LogOf;
    RunReturns(st, request);
  }

  lemma SelfCorruptingRequestIsReady(faults: seq<FaultPoint>)
    ensures Ready(EmptyStore(faults), SelfCorruptingRequest())
    ensures CorruptionIsNoOp(SelfCorruptingRequest().artifact)
  {
    hide Repeated;
  }

  /** Such a request exists: an injected corruption can fire and the run still publish. */
  lemma CorruptionCanGoUnnoticed()
    ensures var st := EmptyStore([CorruptStagedBeforeVerification]);
      IsPublished(Run(st, SelfCorruptingRequest()).result) && Run(st, SelfCorruptingRequest()).store.faults == []
  {
    hide Run, Ready, SelfCorruptingRequest, CorruptionIsNoOp;
    SelfCorruptingRequestIsReady([CorruptStagedBeforeVerification]);
    NoOpCorruptionGoesUnnoticed(EmptyStore([CorruptStagedBeforeVerification]), SelfCorruptingRequest());
  }

  /** With it, one failed run can use up two faults. */
  lemma OneFailureCanUseTwoFaults()
    ensures var st := EmptyStore([CorruptStagedBeforeVerification, BeforeFileSync]);
      && Ready(st, SelfCorruptingRequest())
      && !IsPublished(Run(st, SelfCorruptingRequest()).result)
      && Consumed(st, Run(st, SelfCorruptingRequest()).store) == 2
  {
    hide Run, Ready, SelfCorruptingRequest, CorruptionIsNoOp;
    var st := EmptyStore([CorruptStagedBeforeVerification, BeforeFileSync]);
    SelfCorruptingRequestIsReady(st.faults);
    UnsyncedAfterNoOp(st, SelfCorruptingRequest());
    FailuresConsumeFaults(st, SelfCorruptingRequest());
  }

  lemma UnsyncedAfterNoOp(st: Store, request: PublicationRequest)
    requires Ready(st, request) && NoOpFires(st, request.artifact) && Fires(st.faults[1..], BeforeFileSync)
    ensures !IsPublished(Run(st, request).result)
  {
    hide Run, Ready, CorruptionIsNoOp, LogOf, ServiceErrorFor;
    RunReturns(st, request);
  }

  // ---------- what the script is asked ----------

  lemma {:induction false} DrainInTwo(points: seq<FaultPoint>, one: seq<FaultPoint>, two: seq<FaultPoint>)
    ensures Drain(points, one + two) == Drain(Drain(points, one), two)
    decreases |one|
  {
    if one == [] {
      assert one + two == two;
    } else {
      assert (one + two)[1..] == one[1..] + two;
      DrainInTwo(AfterHit(points, one[0]), one[1..], two);
    }
  }

  lemma DrainOne(points: seq<FaultPoint>, query: FaultPoint)
    ensures Drain(points, [query]) == AfterHit(points, query)
  {
    assert Drain(AfterHit(points, query), [query][1..]) == AfterHit(points, query);
  }

  lemma DrainParent(points: seq<FaultPoint>)
    ensures Drain(points, ParentQueries(points)) == if ParentFault(points) then points[1..] else points
  {
    DrainOne(points, BeforeParentSync);
    if !Fires(points, BeforeParentSync) {
      DrainInTwo(points, [BeforeParentSync], [AfterVisibilityBeforeParentSync]);
      DrainOne(points, AfterVisibilityBeforeParentSync);
      assert ParentQueries(points) == [BeforeParentSync] + [AfterVisibilityBeforeParentSync];
    }
  }

  lemma DrainStaged(points: seq<FaultPoint>, n: nat)
    requires 1 <= n <= 4
    ensures Drain(points, STAGED[..n]) ==
      if n == 1 then AfterHit(points, STAGED[0]) else AfterHit(Drain(points, STAGED[..n - 1]), STAGED[n - 1])
  {
    hide Drain;
    if n == 1 {
      DrainOne(points, STAGED[0]);
      assert STAGED[..1] == [STAGED[0]];
    } else {
      DrainInTwo(points, STAGED[..n - 1], [STAGED[n - 1]]);
      DrainOne(Drain(points, STAGED[..n - 1]), STAGED[n - 1]);
      assert STAGED[..n] == STAGED[..n - 1] + [STAGED[n - 1]];
    }
  }

  lemma EndingDrains(st: Store, artifact: ArtifactIdentity)
    ensures var ending := EndingOf(st.faults, st.visible, artifact);
      FaultsAfter(st.faults, ending) == Drain(st.faults, QueriesOf(st.faults, ending))
  {
    hide Drain, ParentFault, ParentQueries, CorruptionIsNoOp;
    if st.visible.Some? {
      RecoveryDrains(st, artifact);
    } else {
      FreshDrains(st, artifact);
    }
  }

  /** The points asked about between two stores of one history. */
  function Asked(before: Store, after: Store): seq<FaultPoint>
    requires |before.log.queried| <= |after.log.queried|
  {
    after.log.queried[|before.log.queried|..]
  }

  /** A run takes from the script exactly what the points it asked about take, and forgets none it asked before. */
  lemma RunDrainsWhatItAsked(st: Store, request: PublicationRequest)
    requires Fits(request.artifact) && StagesNumbered(st)
    ensures var after := Run(st, request).store;
      && st.log.queried <= after.log.queried
      && after.faults == Drain(st.faults, Asked(st, after))
  {
    if Refused(st, request) {
      RefusedAsksNothing(st, request);
    } else {
      hide Run, Refused, StagesNumbered, QueriesOf, EndingOf, FaultsAfter, OutcomeFor, Fits, TraceOf, DeedsOf, Drain;
      RunReturns(st, request);
      EndingDrains(st, request.artifact);
      var after := Run(st, request).store;
      assert Asked(st, after) == QueriesOf(st.faults, EndingAt(st, request));
    }
  }

  lemma RefusedAsksNothing(st: Store, request: PublicationRequest)
    requires Refused(st, request)
    ensures Run(st, request).store.log.queried == st.log.queried
    ensures Run(st, request).store.faults == st.faults
  {
    hide PublicationRequest.Valid, PublishStage, Recover;
  }

  lemma RecoveryDrains(st: Store, artifact: ArtifactIdentity)
    requires st.visible.Some?
    ensures var ending := EndingOf(st.faults, st.visible, artifact);
      FaultsAfter(st.faults, ending) == Drain(st.faults, QueriesOf(st.faults, ending))
  {
    hide ParentQueries, Drain;
    DrainOne(st.faults, BeforeVisibleFileSync);
    DrainParent(st.faults);
    DrainInTwo(st.faults, [BeforeVisibleFileSync], ParentQueries(st.faults));
    DrainNone(st.faults);
  }

  lemma DrainNone(points: seq<FaultPoint>)
    ensures Drain(points, []) == points
  {
  }

  lemma FreshDrains(st: Store, artifact: ArtifactIdentity)
    requires st.visible.None?
    ensures var ending := EndingOf(st.faults, st.visible, artifact);
      FaultsAfter(st.faults, ending) == Drain(st.faults, QueriesOf(st.faults, ending))
  {
    hide ParentQueries, Drain, CorruptionIsNoOp;
    var left := AfterHit(st.faults, CorruptStagedBeforeVerification);
    DrainStaged(st.faults, 1);
    DrainStaged(st.faults, 2);
    DrainStaged(st.faults, 3);
    DrainStaged(st.faults, 4);
    DrainParent(left);
    DrainInTwo(st.faults, STAGED, ParentQueries(left));
    assert STAGED[..4] == STAGED;
  }
}

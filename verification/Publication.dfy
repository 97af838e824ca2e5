/**
 Publishing an artifact without clobbering, under a script of injected faults: the reference
 adapter's operations and the runner that drives them, as functions of the adapter's state.
 */
module Publication {
  import opened Wrappers
  import opened Faults
  import opened PublicationContracts

  datatype PublicationRequest = PublicationRequest(artifact: ArtifactIdentity, destination: DestinationIdentity)
  {
    predicate Valid() {
      artifact.Validate().Pass? && destination.Validate().Pass?
    }
  }

  datatype StagingFacts = StagingFacts(filesystemId: string, isPrivate: bool, isOwned: bool)

  datatype PublicationStep =
    | InspectDestination
    | CreatePrivateSiblingStage
    | VerifyExactDigestAndLength
    | SyncStagedFile
    | PublishNoClobber
    | SyncVisibleFile
    | SyncParentDirectory
    | CleanupOwnedStage

  datatype PublicationError =
    | Injected(point: FaultPoint)
    | VerificationMismatch
    | DestinationConflict
    | FileNotSynced
    | UnknownStage

  datatype ErrorContext = NotPublishedContext | VisibleDurabilityUnknownContext

  datatype StagedArtifact = StagedArtifact(artifact: ArtifactIdentity, facts: StagingFacts, fileSynced: bool)

  /** One boundary the runner called, and whether it answered without an error. */
  datatype Deed = Deed(step: PublicationStep, passed: bool)

  /**
   What has happened so far: the adapter's trace; the fault points asked about, whether they fired or
   not; and the runner's calls with their answers. Only the trace is the adapter's own.
   */
  datatype Log = Log(trace: seq<PublicationStep>, queried: seq<FaultPoint>, deeds: seq<Deed>)

  datatype Store = Store(
    faults: seq<FaultPoint>,
    nextStage: nat,
    stages: map<nat, StagedArtifact>,
    visible: Option<ArtifactIdentity>,
    log: Log)

  function EmptyStore(faults: seq<FaultPoint>): Store {
    Store(faults, 0, map[], None, Log([], [], []))
  }

  predicate SameContent(a: ArtifactIdentity, b: ArtifactIdentity) {
    a.digest == b.digest && a.length == b.length
  }

  // ---------- adapter operations ----------

  /** Every operation records itself first. */
  function Traced(st: Store, step: PublicationStep): Store {
    st.(log := st.log.(trace := st.log.trace + [step]))
  }

  function AfterFault(st: Store, point: FaultPoint): Store {
    st.(faults := AfterHit(st.faults, point), log := st.log.(queried := st.log.queried + [point]))
  }

  datatype Attempted = Attempted(store: Store, verdict: Verdict<PublicationError>)

  /** One query of the script: the operation fails there if the point fires. */
  function Hit(st: Store, point: FaultPoint): Attempted {
    Attempted(AfterFault(st, point), if Fires(st.faults, point) then Fail(Injected(point)) else Pass)
  }

  /** The stage a request opens: private, owned and on the destination's filesystem. */
  function FreshStage(request: PublicationRequest): StagedArtifact {
    StagedArtifact(request.artifact, StagingFacts(request.destination.filesystemId, true, true), false)
  }

  function CreateStage(st: Store, request: PublicationRequest): Store {
    st.(nextStage := st.nextStage + 1, stages := st.stages[st.nextStage + 1 := FreshStage(request)])
  }

  function Repeated(c: char, n: nat): (s: string)
    ensures |s| == n && forall i :: 0 <= i < n ==> s[i] == c
  {
    if n == 0 then "" else Repeated(c, n - 1) + [c]
  }

  const CORRUPT_HEX: string := Repeated('e', 64)

  function Corrupted(artifact: ArtifactIdentity): ArtifactIdentity {
    artifact.(digest := ContentDigest(Sha256, CORRUPT_HEX),
              length := if artifact.length >= U64_MAX then U64_MAX else artifact.length + 1)
  }

  function VerifyExact(st: Store, stage: nat, expected: ArtifactIdentity): Attempted {
    var hit := AfterFault(Traced(st, VerifyExactDigestAndLength), CorruptStagedBeforeVerification);
    if stage !in hit.stages then Attempted(hit, Fail(UnknownStage))
    else
      var staged := hit.stages[stage];
      var checked := if Fires(st.faults, CorruptStagedBeforeVerification)
                     then staged.(artifact := Corrupted(staged.artifact)) else staged;
      Attempted(hit.(stages := hit.stages[stage := checked]),
                if SameContent(checked.artifact, expected) then Pass else Fail(VerificationMismatch))
  }

  function SyncStaged(st: Store, stage: nat): Attempted {
    var hit := Hit(Traced(st, SyncStagedFile), BeforeFileSync);
    if hit.verdict.Fail? then hit
    else if stage !in hit.store.stages then Attempted(hit.store, Fail(UnknownStage))
    else
      Attempted(hit.store.(stages := hit.store.stages[stage := hit.store.stages[stage].(fileSynced := true)]), Pass)
  }

  function Publish(st: Store, stage: nat): Attempted {
    var traced := Traced(st, PublishNoClobber);
    if stage !in traced.stages then Attempted(traced, Fail(UnknownStage))
    else if !traced.stages[stage].fileSynced then Attempted(traced, Fail(FileNotSynced))
    else if traced.visible.Some? then Attempted(traced, Fail(DestinationConflict))
    else
      var hit := Hit(traced, BeforeVisibility);
      if hit.verdict.Fail? then hit
      else Hit(hit.store.(visible := Some(traced.stages[stage].artifact)), AfterNoClobberVisibility)
  }

  function SyncVisible(st: Store): Attempted {
    Hit(Traced(st, SyncVisibleFile), BeforeVisibleFileSync)
  }

  function SyncParent(st: Store): Attempted {
    var hit := Hit(Traced(st, SyncParentDirectory), BeforeParentSync);
    if hit.verdict.Fail? then hit else Hit(hit.store, AfterVisibilityBeforeParentSync)
  }

  function Cleanup(st: Store, stage: nat): Attempted {
    var traced := Traced(st, CleanupOwnedStage);
    if stage !in traced.stages then Attempted(traced, Fail(UnknownStage))
    else Attempted(traced.(stages := traced.stages - {stage}), Pass)
  }

  // ---------- outcomes ----------

  function ServiceErrorFor(error: PublicationError, context: ErrorContext): ServiceError {
    match context
    case VisibleDurabilityUnknownContext =>
      ServiceError(SERVICE_ERROR_SCHEMA_V0, "publication.durability_unknown", ErrorClass.Publication, AfterRestart,
        None, "publication-testkit", "the exact artifact is visible but file or parent durability is unknown")
    case NotPublishedContext =>
      if error.VerificationMismatch? then
        ServiceError(SERVICE_ERROR_SCHEMA_V0, "publication.verification_mismatch", Integrity, Never, None,
          "publication-testkit", "staged digest or length did not match the requested artifact")
      else
        ServiceError(SERVICE_ERROR_SCHEMA_V0, "publication.not_visible", Storage, Immediate, None,
          "publication-testkit", "the requested artifact did not become visible")
  }

  function ConflictError(): ServiceError {
    ServiceError(SERVICE_ERROR_SCHEMA_V0, "publication.destination_conflict", ErrorClass.Publication, Never, None,
      "publication-testkit", "a different artifact already occupies the destination")
  }

  function Receipt(request: PublicationRequest, recovery: bool, fileSynced: bool, directorySynced: bool)
    : PublicationReceipt
  {
    PublicationReceipt(PUBLICATION_RECEIPT_SCHEMA_V0, request.artifact, request.destination, true,
                       fileSynced, directorySynced, recovery)
  }

  function NotVisible(error: PublicationError): PublicationOutcome {
    NotPublished(ServiceErrorFor(error, NotPublishedContext))
  }

  function DurabilityUnknown(
      request: PublicationRequest, error: PublicationError, recovery: bool, fileSynced: bool): PublicationOutcome {
    PublishedDurabilityUnknown(Receipt(request, recovery, fileSynced, false),
                               ServiceErrorFor(error, VisibleDurabilityUnknownContext))
  }

  /** `Aborted` stands for an `expect` or an assertion of the runner that fails. */
  datatype RunResult = Returned(outcome: PublicationOutcome) | Aborted

  datatype RunStep = RunStep(store: Store, result: RunResult)

  /** Only canonical outcomes leave the runner. */
  function Validated(outcome: PublicationOutcome): RunResult {
    if outcome.Validate().Pass? then Returned(outcome) else Aborted
  }

  // ---------- the runner ----------

  /** The runner's call of a boundary, with the answer it got. */
  function Noted(called: Attempted, step: PublicationStep): Attempted {
    called.(store := WithDeed(called.store, step, called.verdict.Pass?))
  }

  function WithDeed(st: Store, step: PublicationStep, passed: bool): Store {
    st.(log := st.log.(deeds := st.log.deeds + [Deed(step, passed)]))
  }

  function Inspected(st: Store): Store {
    WithDeed(Traced(st, InspectDestination), InspectDestination, true)
  }

  /** The destination is occupied: adopt it if it is the requested content, and make it durable. */
  function Recover(st: Store, request: PublicationRequest, existing: ArtifactIdentity): RunStep {
    if !SameContent(existing, request.artifact) then RunStep(st, Validated(NotPublished(ConflictError())))
    else
      var file := Noted(SyncVisible(st), SyncVisibleFile);
      if file.verdict.Fail? then
        RunStep(file.store, Validated(DurabilityUnknown(request, file.verdict.error, true, false)))
      else
        var parent := Noted(SyncParent(file.store), SyncParentDirectory);
        RunStep(parent.store,
          if parent.verdict.Pass? then Validated(Published(Receipt(request, true, true, true)))
          else Validated(DurabilityUnknown(request, parent.verdict.error, true, true)))
  }

  /** Cleaning up must succeed; only then does the run return. */
  function CleanedUp(st: Store, stage: nat, result: RunResult): RunStep {
    var cleaned := Noted(Cleanup(st, stage), CleanupOwnedStage);
    RunStep(cleaned.store, if cleaned.verdict.Pass? then result else Aborted)
  }

  /** The arms after a failed publication, which look at what is visible now. */
  function AfterFailedPublish(
      st: Store, request: PublicationRequest, stage: nat, error: PublicationError): RunStep {
    CleanedUp(Inspected(st), stage,
      match st.visible
      case None => Validated(NotVisible(error))
      case Some(artifact) =>
        if SameContent(artifact, request.artifact) then Validated(DurabilityUnknown(request, error, false, true))
        else Validated(NotPublished(ConflictError())))
  }

  function AfterPublish(st: Store, request: PublicationRequest, stage: nat): RunStep {
    var seen := Inspected(st);
    if seen.visible.None? || !SameContent(seen.visible.value, request.artifact) then RunStep(seen, Aborted)
    else
      var parent := Noted(SyncParent(seen), SyncParentDirectory);
      CleanedUp(parent.store, stage,
        if parent.verdict.Pass? then Validated(Published(Receipt(request, false, true, true)))
        else Validated(DurabilityUnknown(request, parent.verdict.error, false, true)))
  }

  function PublishStage(st: Store, request: PublicationRequest, stage: nat): RunStep {
    var verified := Noted(VerifyExact(st, stage, request.artifact), VerifyExactDigestAndLength);
    if verified.verdict.Fail? then
      CleanedUp(verified.store, stage, Validated(NotVisible(verified.verdict.error)))
    else
      var synced := Noted(SyncStaged(verified.store, stage), SyncStagedFile);
      if synced.verdict.Fail? then CleanedUp(synced.store, stage, Validated(NotVisible(synced.verdict.error)))
      else
        var published := Noted(Publish(synced.store, stage), PublishNoClobber);
        if published.verdict.Fail? then AfterFailedPublish(published.store, request, stage, published.verdict.error)
        else AfterPublish(published.store, request, stage)
  }

  function PublishFresh(st: Store, request: PublicationRequest): RunStep {
    var traced := Traced(st, CreatePrivateSiblingStage);
    if st.nextStage >= U64_MAX then RunStep(WithDeed(traced, CreatePrivateSiblingStage, false), Aborted)
    else
      var created := CreateStage(traced, request);
      var stage := created.nextStage;
      if stage in st.stages || created.stages[stage].facts != StagingFacts(request.destination.filesystemId, true, true)
      then RunStep(WithDeed(created, CreatePrivateSiblingStage, false), Aborted)
      else PublishStage(WithDeed(created, CreatePrivateSiblingStage, true), request, stage)
  }

  function Run(st: Store, request: PublicationRequest): RunStep {
    if !request.Valid() then RunStep(st, Aborted)
    else
      var seen := Inspected(st);
      match st.visible
      case Some(existing) => Recover(seen, request, existing)
      case None => PublishFresh(seen, request)
  }
}

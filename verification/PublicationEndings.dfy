/** The ways a publication run can end, read off the script and the destination alone. */
module PublicationEndings {
  import opened Wrappers
  import opened Faults
  import opened PublicationContracts
  import opened Publication

  datatype Ending =
    | Conflict
    | RecoveryFileUnsynced
    | RecoveryParentUnsynced
    | Recovered
    | Mismatch
    | StageUnsynced
    | NeverVisible
    | VisibleUnsure
    | FreshParentUnsynced
    | PublishedFresh

  /** Corrupting the staged copy changes nothing: its digest is all 'e' and its length saturated. */
  predicate CorruptionIsNoOp(artifact: ArtifactIdentity) {
    artifact.digest.hex == CORRUPT_HEX && artifact.length == U64_MAX
  }

  predicate ParentFault(faults: seq<FaultPoint>) {
    Fires(faults, BeforeParentSync) || Fires(faults, AfterVisibilityBeforeParentSync)
  }

  function EndingOf(faults: seq<FaultPoint>, visible: Option<ArtifactIdentity>, artifact: ArtifactIdentity): Ending {
    match visible
    case Some(existing) =>
      if existing.digest != artifact.digest || existing.length != artifact.length then Conflict
      else if Fires(faults, BeforeVisibleFileSync) then RecoveryFileUnsynced
      else if ParentFault(faults) then RecoveryParentUnsynced
      else Recovered
    case None =>
      var left := AfterHit(faults, CorruptStagedBeforeVerification);
      if left != faults && !CorruptionIsNoOp(artifact) then Mismatch
      else if Fires(left, BeforeFileSync) then StageUnsynced
      else if Fires(left, BeforeVisibility) then NeverVisible
      else if Fires(left, AfterNoClobberVisibility) then VisibleUnsure
      else if ParentFault(left) then FreshParentUnsynced
      else PublishedFresh
  }

  // ---------- what a run appends to the log ----------

  const FRESH_PREFIX: seq<PublicationStep> :=
    [InspectDestination, CreatePrivateSiblingStage, VerifyExactDigestAndLength, SyncStagedFile, PublishNoClobber]

  /** The word a run appends to the trace. */
  function TraceOf(ending: Ending): seq<PublicationStep> {
    match ending
    case Conflict => [InspectDestination]
    case RecoveryFileUnsynced => [InspectDestination, SyncVisibleFile]
    case RecoveryParentUnsynced => [InspectDestination, SyncVisibleFile, SyncParentDirectory]
    case Recovered => [InspectDestination, SyncVisibleFile, SyncParentDirectory]
    case Mismatch => [InspectDestination, CreatePrivateSiblingStage, VerifyExactDigestAndLength, CleanupOwnedStage]
    case StageUnsynced =>
      [InspectDestination, CreatePrivateSiblingStage, VerifyExactDigestAndLength, SyncStagedFile, CleanupOwnedStage]
    case NeverVisible => FRESH_PREFIX + [InspectDestination, CleanupOwnedStage]
    case VisibleUnsure => FRESH_PREFIX + [InspectDestination, CleanupOwnedStage]
    case FreshParentUnsynced => FRESH_PREFIX + [InspectDestination, SyncParentDirectory, CleanupOwnedStage]
    case PublishedFresh => FRESH_PREFIX + [InspectDestination, SyncParentDirectory, CleanupOwnedStage]
  }

  /** The one boundary of a run that answered with an error, if any. */
  function FailedStep(ending: Ending): Option<PublicationStep> {
    match ending
    case RecoveryFileUnsynced => Some(SyncVisibleFile)
    case RecoveryParentUnsynced => Some(SyncParentDirectory)
    case Mismatch => Some(VerifyExactDigestAndLength)
    case StageUnsynced => Some(SyncStagedFile)
    case NeverVisible => Some(PublishNoClobber)
    case VisibleUnsure => Some(PublishNoClobber)
    case FreshParentUnsynced => Some(SyncParentDirectory)
    case _ => None
  }

  /** The calls of a run: the steps of its word, all answered but the failed one. */
  function DeedsFrom(steps: seq<PublicationStep>, failed: Option<PublicationStep>): seq<Deed> {
    if steps == [] then []
    else [Deed(steps[0], failed != Some(steps[0]))] + DeedsFrom(steps[1..], failed)
  }

  function DeedsOf(ending: Ending): seq<Deed> {
    DeedsFrom(TraceOf(ending), FailedStep(ending))
  }

  const STAGED: seq<FaultPoint> :=
    [CorruptStagedBeforeVerification, BeforeFileSync, BeforeVisibility, AfterNoClobberVisibility]

  function ParentQueries(faults: seq<FaultPoint>): seq<FaultPoint> {
    if Fires(faults, BeforeParentSync) then [BeforeParentSync] else [BeforeParentSync, AfterVisibilityBeforeParentSync]
  }

  /** The fault points a run asks about, in order: each boundary once, up to the one that stops the run. */
  function QueriesOf(faults: seq<FaultPoint>, ending: Ending): seq<FaultPoint> {
    match ending
    case Conflict => []
    case RecoveryFileUnsynced => [BeforeVisibleFileSync]
    case RecoveryParentUnsynced => [BeforeVisibleFileSync] + ParentQueries(faults)
    case Recovered => [BeforeVisibleFileSync] + ParentQueries(faults)
    case Mismatch => STAGED[..1]
    case StageUnsynced => STAGED[..2]
    case NeverVisible => STAGED[..3]
    case VisibleUnsure => STAGED
    case FreshParentUnsynced => STAGED + ParentQueries(AfterHit(faults, CorruptStagedBeforeVerification))
    case PublishedFresh => STAGED + ParentQueries(AfterHit(faults, CorruptStagedBeforeVerification))
  }

  function Joined(log: Log, more: Log): Log {
    Log(log.trace + more.trace, log.queried + more.queried, log.deeds + more.deeds)
  }

  function LogOf(faults: seq<FaultPoint>, ending: Ending): Log {
    Log(TraceOf(ending), QueriesOf(faults, ending), DeedsOf(ending))
  }

  /** One boundary more: its name, what it asked the script, and its answer. */
  function Plus(log: Log, step: PublicationStep, queries: seq<FaultPoint>, passed: bool): Log {
    Log(log.trace + [step], log.queried + queries, log.deeds + [Deed(step, passed)])
  }

  /** The error of a context does not depend on which fault was injected. */
  function OutcomeFor(ending: Ending, request: PublicationRequest): PublicationOutcome {
    match ending
    case Conflict => NotPublished(ConflictError())
    case RecoveryFileUnsynced => DurabilityUnknown(request, Injected(BeforeVisibleFileSync), true, false)
    case RecoveryParentUnsynced => DurabilityUnknown(request, Injected(BeforeParentSync), true, true)
    case Recovered => Published(Receipt(request, true, true, true))
    case Mismatch => NotVisible(VerificationMismatch)
    case StageUnsynced => NotVisible(Injected(BeforeFileSync))
    case NeverVisible => NotVisible(Injected(BeforeVisibility))
    case VisibleUnsure => DurabilityUnknown(request, Injected(AfterNoClobberVisibility), false, true)
    case FreshParentUnsynced => DurabilityUnknown(request, Injected(BeforeParentSync), false, true)
    case PublishedFresh => Published(Receipt(request, false, true, true))
  }

  predicate IsFresh(ending: Ending) {
    !ending.Conflict? && !ending.RecoveryFileUnsynced? && !ending.RecoveryParentUnsynced? && !ending.Recovered?
  }

  /** The run ends with the requested artifact newly visible. */
  predicate MadeVisible(ending: Ending) {
    ending.VisibleUnsure? || ending.FreshParentUnsynced? || ending.PublishedFresh?
  }

  /** The last fault the ending consumed stopped the run. */
  predicate StoppedByFault(ending: Ending) {
    !ending.Conflict? && !ending.Recovered? && !ending.Mismatch? && !ending.PublishedFresh?
  }

  function FaultsAfter(faults: seq<FaultPoint>, ending: Ending): seq<FaultPoint> {
    var left := if IsFresh(ending) then AfterHit(faults, CorruptStagedBeforeVerification) else faults;
    if StoppedByFault(ending) && left != [] then left[1..] else left
  }

  /** What a run does to a store, in one formula. */
  function Ended(st: Store, request: PublicationRequest): RunStep {
    var ending := EndingOf(st.faults, st.visible, request.artifact);
    RunStep(
      Store(FaultsAfter(st.faults, ending),
            if IsFresh(ending) then st.nextStage + 1 else st.nextStage,
            st.stages,
            if MadeVisible(ending) then Some(request.artifact) else st.visible,
            Joined(st.log, LogOf(st.faults, ending))),
      Returned(OutcomeFor(ending, request)))
  }

  /** Every stage in hand has an id already given out. */
  ghost predicate StagesNumbered(st: Store) {
    forall id :: id in st.stages ==> id <= st.nextStage
  }

  // ---------- every outcome is canonical ----------

  lemma ErrorsAreValid(error: PublicationError, context: ErrorContext)
    ensures ServiceErrorFor(error, context).Validate().Pass?
  {
    hide ValidCode;
    CodesAreValid();
  }

  lemma CodesAreValid()
    ensures ValidCode("publication.durability_unknown") && ValidCode("publication.verification_mismatch")
    ensures ValidCode("publication.not_visible") && ValidCode("publication.destination_conflict")
  {
    hide IsCodePart, ValidCode;
    PartIsCode();
    UnknownAndMismatchAreCodes();
    NotVisibleAndConflictAreCodes();
    TwoPartsMakeACode("publication", "durability_unknown");
    TwoPartsMakeACode("publication", "verification_mismatch");
    TwoPartsMakeACode("publication", "not_visible");
    TwoPartsMakeACode("publication", "destination_conflict");
    assert "publication" + "." + "durability_unknown" == "publication.durability_unknown";
    assert "publication" + "." + "verification_mismatch" == "publication.verification_mismatch";
    assert "publication" + "." + "not_visible" == "publication.not_visible";
    assert "publication" + "." + "destination_conflict" == "publication.destination_conflict";
  }

  lemma PartIsCode()
    ensures IsCodePart("publication")
  {
  }

  lemma UnknownAndMismatchAreCodes()
    ensures IsCodePart("durability_unknown") && IsCodePart("verification_mismatch")
  {
  }

  lemma NotVisibleAndConflictAreCodes()
    ensures IsCodePart("not_visible") && IsCodePart("destination_conflict")
  {
  }

  lemma ConflictErrorIsValid()
    ensures ConflictError().Validate().Pass?
  {
    hide ValidCode;
    CodesAreValid();
  }

  lemma ReceiptIsValid(request: PublicationRequest, recovery: bool, fileSynced: bool, directorySynced: bool)
    requires request.Valid() && (directorySynced ==> fileSynced)
    ensures Receipt(request, recovery, fileSynced, directorySynced).Validate().Pass?
  {
  }

  lemma UnknownIsValid(request: PublicationRequest, error: PublicationError, recovery: bool, fileSynced: bool)
    requires request.Valid()
    ensures DurabilityUnknown(request, error, recovery, fileSynced).Validate().Pass?
  {
    ErrorsAreValid(error, VisibleDurabilityUnknownContext);
    ReceiptIsValid(request, recovery, fileSynced, false);
    assert ServiceErrorFor(error, VisibleDurabilityUnknownContext).errorClass == ErrorClass.Publication;
    hide ServiceErrorFor;
  }

  /** The canonical-outcome check never fires on a valid request. */
  lemma EveryOutcomeIsValid(ending: Ending, request: PublicationRequest)
    requires request.Valid()
    ensures OutcomeFor(ending, request).Validate().Pass?
  {
    hide ServiceErrorFor, ConflictError, DurabilityUnknown;
    ConflictErrorIsValid();
    ReceiptIsValid(request, true, true, true);
    ReceiptIsValid(request, false, true, true);
    ErrorsAreValid(VerificationMismatch, NotPublishedContext);
    ErrorsAreValid(Injected(BeforeFileSync), NotPublishedContext);
    ErrorsAreValid(Injected(BeforeVisibility), NotPublishedContext);
    UnknownIsValid(request, Injected(BeforeVisibleFileSync), true, false);
    UnknownIsValid(request, Injected(BeforeParentSync), true, true);
    UnknownIsValid(request, Injected(AfterNoClobberVisibility), false, true);
    UnknownIsValid(request, Injected(BeforeParentSync), false, true);
  }

  // ---------- a run is its ending ----------

  /** Uncertain durability is reported the same way whatever fault caused it. */
  lemma UnknownIgnoresTheFault(
      request: PublicationRequest, one: PublicationError, other: PublicationError, recovery: bool, fileSynced: bool)
    ensures DurabilityUnknown(request, one, recovery, fileSynced)
         == DurabilityUnknown(request, other, recovery, fileSynced)
  {
    hide Receipt;
  }

  lemma ValidReturns(ending: Ending, request: PublicationRequest)
    requires request.Valid()
    ensures Validated(OutcomeFor(ending, request)) == Returned(OutcomeFor(ending, request))
  {
    hide OutcomeFor, PublicationOutcome.Validate, PublicationRequest.Valid;
    EveryOutcomeIsValid(ending, request);
  }

  lemma InspectedPlus(st: Store)
    ensures Inspected(st) == st.(log := Plus(st.log, InspectDestination, [], true))
  {
  }

  // ---------- recovery ----------

  lemma SyncVisibleNoted(st: Store)
    ensures var failed := Fires(st.faults, BeforeVisibleFileSync);
      Noted(SyncVisible(st), SyncVisibleFile) == Attempted(
        st.(faults := AfterHit(st.faults, BeforeVisibleFileSync),
            log := Plus(st.log, SyncVisibleFile, [BeforeVisibleFileSync], !failed)),
        if failed then Fail(Injected(BeforeVisibleFileSync)) else Pass)
  {
  }

  lemma SyncParentNoted(st: Store)
    ensures var synced := Noted(SyncParent(st), SyncParentDirectory);
      && synced.store == st.(
           faults := if ParentFault(st.faults) then st.faults[1..] else st.faults,
           log := Plus(st.log, SyncParentDirectory, ParentQueries(st.faults), !ParentFault(st.faults)))
      && (synced.verdict.Fail? <==> ParentFault(st.faults))
      && (synced.verdict.Fail? ==> synced.verdict.error.Injected?)
  {
    assert st.log.queried + [BeforeParentSync] + [AfterVisibilityBeforeParentSync]
        == st.log.queried + [BeforeParentSync, AfterVisibilityBeforeParentSync];
  }

  function RecoveryLog(log: Log, faults: seq<FaultPoint>, ending: Ending): Log {
    var seen := Plus(log, InspectDestination, [], true);
    if ending.Conflict? then seen
    else
      var file := Plus(seen, SyncVisibleFile, [BeforeVisibleFileSync], !ending.RecoveryFileUnsynced?);
      if ending.RecoveryFileUnsynced? then file
      else Plus(file, SyncParentDirectory, ParentQueries(faults), !ending.RecoveryParentUnsynced?)
  }

  lemma {:induction false} DeedsOfTwo(one: PublicationStep, two: PublicationStep, failed: Option<PublicationStep>)
    ensures DeedsFrom([one], failed) == [Deed(one, failed != Some(one))]
    ensures DeedsFrom([one, two], failed) == [Deed(one, failed != Some(one)), Deed(two, failed != Some(two))]
  {
    assert [one, two][1..] == [two];
    assert DeedsFrom([two][1..], failed) == [];
  }

  lemma {:induction false} DeedsInTwo(
      one: seq<PublicationStep>, two: seq<PublicationStep>, failed: Option<PublicationStep>)
    ensures DeedsFrom(one + two, failed) == DeedsFrom(one, failed) + DeedsFrom(two, failed)
    decreases |one|
  {
    if one == [] {
      assert one + two == two;
    } else {
      assert (one + two)[1..] == one[1..] + two;
      DeedsInTwo(one[1..], two, failed);
    }
  }

  lemma ConflictLogAddsUp(log: Log, faults: seq<FaultPoint>)
    ensures RecoveryLog(log, faults, Conflict) == Joined(log, LogOf(faults, Conflict))
  {
    hide ParentQueries, DeedsFrom;
    DeedsOfTwo(InspectDestination, InspectDestination, None);
  }

  lemma FileUnsyncedLogAddsUp(log: Log, faults: seq<FaultPoint>)
    ensures RecoveryLog(log, faults, RecoveryFileUnsynced) == Joined(log, LogOf(faults, RecoveryFileUnsynced))
  {
    hide ParentQueries, DeedsFrom;
    DeedsOfTwo(InspectDestination, SyncVisibleFile, FailedStep(RecoveryFileUnsynced));
  }

  lemma ParentLogAddsUp(log: Log, faults: seq<FaultPoint>, ending: Ending)
    requires ending.RecoveryParentUnsynced? || ending.Recovered?
    ensures RecoveryLog(log, faults, ending) == Joined(log, LogOf(faults, ending))
  {
    hide ParentQueries, DeedsFrom;
    var failed := FailedStep(ending);
    DeedsOfTwo(InspectDestination, SyncVisibleFile, failed);
    DeedsOfTwo(SyncParentDirectory, SyncParentDirectory, failed);
    DeedsInTwo([InspectDestination, SyncVisibleFile], [SyncParentDirectory], failed);
    assert TraceOf(ending) == [InspectDestination, SyncVisibleFile] + [SyncParentDirectory];
  }

  lemma RecoveryLogAddsUp(log: Log, faults: seq<FaultPoint>, ending: Ending)
    requires !IsFresh(ending)
    ensures RecoveryLog(log, faults, ending) == Joined(log, LogOf(faults, ending))
  {
    hide RecoveryLog, Joined, LogOf;
    if ending.Conflict? {
      ConflictLogAddsUp(log, faults);
    } else if ending.RecoveryFileUnsynced? {
      FileUnsyncedLogAddsUp(log, faults);
    } else {
      ParentLogAddsUp(log, faults, ending);
    }
  }

  lemma ConflictIsItsEnding(st: Store, request: PublicationRequest)
    requires request.Valid() && EndingOf(st.faults, st.visible, request.artifact) == Conflict
    ensures st.visible.Some?
    ensures Recover(Inspected(st), request, st.visible.value) == Ended(st, request)
  {
    hide PublicationRequest.Valid, Validated, ConflictError, ServiceErrorFor, Inspected, LogOf, Joined;
    ValidReturns(Conflict, request);
    InspectedPlus(st);
    RecoveryLogAddsUp(st.log, st.faults, Conflict);
  }

  lemma RecoveryIsItsEnding(st: Store, request: PublicationRequest)
    requires request.Valid() && st.visible.Some?
    ensures Recover(Inspected(st), request, st.visible.value) == Ended(st, request)
  {
    hide PublicationRequest.Valid, Validated, ConflictError, DurabilityUnknown, NotVisible, Receipt;
    hide Inspected, Noted, LogOf, Joined, Plus, ParentQueries;
    var ending := EndingOf(st.faults, st.visible, request.artifact);
    ValidReturns(ending, request);
    if ending.Conflict? {
      ConflictIsItsEnding(st, request);
    } else {
      InspectedPlus(st);
      var seen := Inspected(st);
      SyncVisibleNoted(seen);
      var file := Noted(SyncVisible(seen), SyncVisibleFile);
      if file.verdict.Pass? {
        SyncParentNoted(file.store);
        var parent := Noted(SyncParent(file.store), SyncParentDirectory);
        if parent.verdict.Fail? {
          UnknownIgnoresTheFault(request, Injected(BeforeParentSync), parent.verdict.error, true, true);
        }
      }
      hide SyncVisible, SyncParent;
      RecoveryLogAddsUp(st.log, st.faults, ending);
    }
  }

  // ---------- a fresh run, boundary by boundary ----------

  /** `st` part-way through a fresh run: one more stage, some faults gone, a longer log. */
  function InStage(
      st: Store, faults: seq<FaultPoint>, staged: StagedArtifact, visible: Option<ArtifactIdentity>, log: Log): Store {
    Store(faults, st.nextStage + 1, st.stages[st.nextStage + 1 := staged], visible, log)
  }

  function PreparedLog(log: Log): Log {
    Plus(Plus(log, InspectDestination, [], true), CreatePrivateSiblingStage, [], true)
  }

  function VerifiedLog(log: Log, passed: bool): Log {
    Plus(PreparedLog(log), VerifyExactDigestAndLength, STAGED[..1], passed)
  }

  function SyncedLog(log: Log, passed: bool): Log {
    Plus(VerifiedLog(log, true), SyncStagedFile, [BeforeFileSync], passed)
  }

  function PublishedLog(log: Log, asked: seq<FaultPoint>, passed: bool): Log {
    Plus(Plus(SyncedLog(log, true), PublishNoClobber, asked, passed), InspectDestination, [], true)
  }

  lemma CreatedIsInStage(st: Store, request: PublicationRequest)
    requires st.nextStage < U64_MAX && st.nextStage + 1 !in st.stages && st.visible.None?
    ensures PublishFresh(Inspected(st), request)
         == PublishStage(InStage(st, st.faults, FreshStage(request), None, PreparedLog(st.log)), request,
                         st.nextStage + 1)
  {
    hide PublishStage;
    assert st.log.queried + [] + [] == st.log.queried;
  }

  /** What verification leaves in the stage. */
  function Examined(faults: seq<FaultPoint>, request: PublicationRequest): StagedArtifact {
    if Fires(faults, CorruptStagedBeforeVerification) && !CorruptionIsNoOp(request.artifact)
    then FreshStage(request).(artifact := Corrupted(request.artifact)) else FreshStage(request)
  }

  /** The artifact's length fits its 64-bit field. */
  predicate Fits(artifact: ArtifactIdentity) {
    artifact.length <= U64_MAX
  }

  /** The corrupted copy passes verification exactly when it is the original. */
  lemma CorruptionIsUndetectedIffNoOp(artifact: ArtifactIdentity)
    requires Fits(artifact)
    ensures SameContent(Corrupted(artifact), artifact) <==> CorruptionIsNoOp(artifact)
    ensures CorruptionIsNoOp(artifact) ==> Corrupted(artifact) == artifact
  {
    if CorruptionIsNoOp(artifact) {
      assert artifact.digest == ContentDigest(Sha256, CORRUPT_HEX);
    }
  }

  /** What the corruption writes: a digest of sixty-four 'e', and a length one larger unless that would overflow. */
  lemma CorruptionInFields(artifact: ArtifactIdentity)
    requires Fits(artifact)
    ensures var spoiled := Corrupted(artifact);
      && spoiled.id == artifact.id && |spoiled.digest.hex| == 64
      && (forall i :: 0 <= i < 64 ==> spoiled.digest.hex[i] == 'e')
      && spoiled.length == if artifact.length == 0xFFFF_FFFF_FFFF_FFFF then artifact.length else artifact.length + 1
    ensures CorruptionIsNoOp(artifact) <==>
      && |artifact.digest.hex| == 64 && (forall i :: 0 <= i < 64 ==> artifact.digest.hex[i] == 'e')
      && artifact.length == 0xFFFF_FFFF_FFFF_FFFF
  {
    hide Repeated;
    if |artifact.digest.hex| == 64 && forall i :: 0 <= i < 64 ==> artifact.digest.hex[i] == 'e' {
      assert artifact.digest.hex == CORRUPT_HEX;
    }
  }

  lemma VerifyInStage(st: Store, request: PublicationRequest, faults: seq<FaultPoint>, log: Log)
    requires Fits(request.artifact)
    ensures var left := AfterHit(faults, CorruptStagedBeforeVerification);
      var passed := left == faults || CorruptionIsNoOp(request.artifact);
      Noted(VerifyExact(InStage(st, faults, FreshStage(request), None, log), st.nextStage + 1, request.artifact),
            VerifyExactDigestAndLength)
      == Attempted(InStage(st, left, Examined(faults, request), None,
                           Plus(log, VerifyExactDigestAndLength, STAGED[..1], passed)),
                   if passed then Pass else Fail(VerificationMismatch))
  {
    hide CorruptionIsNoOp, Corrupted;
    CorruptionIsUndetectedIffNoOp(request.artifact);
    assert STAGED[..1] == [CorruptStagedBeforeVerification];
  }

  lemma SyncInStage(st: Store, faults: seq<FaultPoint>, staged: StagedArtifact, log: Log)
    ensures var failed := Fires(faults, BeforeFileSync);
      Noted(SyncStaged(InStage(st, faults, staged, None, log), st.nextStage + 1), SyncStagedFile)
      == Attempted(InStage(st, AfterHit(faults, BeforeFileSync), if failed then staged else staged.(fileSynced := true),
                           None, Plus(log, SyncStagedFile, [BeforeFileSync], !failed)),
                   if failed then Fail(Injected(BeforeFileSync)) else Pass)
  {
  }

  lemma PublishInStage(st: Store, faults: seq<FaultPoint>, staged: StagedArtifact, log: Log)
    requires staged.fileSynced
    ensures Noted(Publish(InStage(st, faults, staged, None, log), st.nextStage + 1), PublishNoClobber)
      == if Fires(faults, BeforeVisibility)
         then Attempted(InStage(st, faults[1..], staged, None, Plus(log, PublishNoClobber, [BeforeVisibility], false)),
                        Fail(Injected(BeforeVisibility)))
         else Attempted(
           InStage(st, AfterHit(faults, AfterNoClobberVisibility), staged, Some(staged.artifact),
                   Plus(log, PublishNoClobber, [BeforeVisibility, AfterNoClobberVisibility],
                        !Fires(faults, AfterNoClobberVisibility))),
           if Fires(faults, AfterNoClobberVisibility) then Fail(Injected(AfterNoClobberVisibility)) else Pass)
  {
    assert log.queried + [BeforeVisibility] + [AfterNoClobberVisibility]
        == log.queried + [BeforeVisibility, AfterNoClobberVisibility];
  }

  lemma CleanupInStage(
      st: Store, faults: seq<FaultPoint>, staged: StagedArtifact, visible: Option<ArtifactIdentity>,
      log: Log, result: RunResult)
    requires st.nextStage + 1 !in st.stages
    ensures CleanedUp(InStage(st, faults, staged, visible, log), st.nextStage + 1, result)
      == RunStep(Store(faults, st.nextStage + 1, st.stages, visible, Plus(log, CleanupOwnedStage, [], true)), result)
  {
    assert st.stages[st.nextStage + 1 := staged] - {st.nextStage + 1} == st.stages;
    assert log.queried + [] == log.queried;
  }

  /** The tail of a run whose publication succeeded. */
  lemma AfterPublishInStage(
      st: Store, request: PublicationRequest, faults: seq<FaultPoint>, staged: StagedArtifact, log: Log)
    requires request.Valid() && st.nextStage + 1 !in st.stages
    ensures var log' := Plus(Plus(Plus(log, InspectDestination, [], true), SyncParentDirectory, ParentQueries(faults),
                                  !ParentFault(faults)), CleanupOwnedStage, [], true);
      AfterPublish(InStage(st, faults, staged, Some(request.artifact), log), request, st.nextStage + 1)
      == RunStep(
           Store(if ParentFault(faults) then faults[1..] else faults, st.nextStage + 1, st.stages,
                 Some(request.artifact), log'),
           Returned(OutcomeFor(if ParentFault(faults) then FreshParentUnsynced else PublishedFresh, request)))
  {
    hide CleanedUp, Validated, PublicationRequest.Valid, DurabilityUnknown, Receipt, SyncParent, ParentFault;
    hide Inspected, Noted, Plus, ParentQueries;
    var ending := if ParentFault(faults) then FreshParentUnsynced else PublishedFresh;
    ValidReturns(ending, request);
    InspectedPlus(InStage(st, faults, staged, Some(request.artifact), log));
    var seen := Inspected(InStage(st, faults, staged, Some(request.artifact), log));
    SyncParentNoted(seen);
    var synced := Noted(SyncParent(seen), SyncParentDirectory);
    if synced.verdict.Fail? {
      UnknownIgnoresTheFault(request, Injected(BeforeParentSync), synced.verdict.error, false, true);
    }
    CleanupInStage(st, synced.store.faults, staged, Some(request.artifact), synced.store.log,
                   Returned(OutcomeFor(ending, request)));
  }

  /** The tail of a run whose publication failed before or after the artifact became visible. */
  lemma AfterFailedPublishInStage(
      st: Store, request: PublicationRequest, faults: seq<FaultPoint>, staged: StagedArtifact, log: Log, seen: bool)
    requires request.Valid() && st.nextStage + 1 !in st.stages
    ensures var visible := if seen then Some(request.artifact) else None;
      var error := Injected(if seen then AfterNoClobberVisibility else BeforeVisibility);
      AfterFailedPublish(InStage(st, faults, staged, visible, log), request, st.nextStage + 1, error)
      == RunStep(
           Store(faults, st.nextStage + 1, st.stages, visible,
                 Plus(Plus(log, InspectDestination, [], true), CleanupOwnedStage, [], true)),
           Returned(OutcomeFor(if seen then VisibleUnsure else NeverVisible, request)))
  {
    hide CleanedUp, Validated, PublicationRequest.Valid, DurabilityUnknown, NotVisible, Inspected, Plus;
    var ending := if seen then VisibleUnsure else NeverVisible;
    var visible := if seen then Some(request.artifact) else None;
    ValidReturns(ending, request);
    InspectedPlus(InStage(st, faults, staged, visible, log));
    CleanupInStage(st, faults, staged, visible, Plus(log, InspectDestination, [], true),
                   Returned(OutcomeFor(ending, request)));
  }

  // ---------- the logs of a fresh run add up ----------

  lemma DeedsOfPrefix(failed: Option<PublicationStep>)
    ensures DeedsFrom([InspectDestination, CreatePrivateSiblingStage, VerifyExactDigestAndLength], failed)
         == [Deed(InspectDestination, failed != Some(InspectDestination)),
             Deed(CreatePrivateSiblingStage, failed != Some(CreatePrivateSiblingStage)),
             Deed(VerifyExactDigestAndLength, failed != Some(VerifyExactDigestAndLength))]
  {
    hide DeedsFrom;
    DeedsInTwo([InspectDestination], [CreatePrivateSiblingStage, VerifyExactDigestAndLength], failed);
    DeedsOfTwo(CreatePrivateSiblingStage, VerifyExactDigestAndLength, failed);
    DeedsOfTwo(InspectDestination, InspectDestination, failed);
    assert [InspectDestination] + [CreatePrivateSiblingStage, VerifyExactDigestAndLength]
        == [InspectDestination, CreatePrivateSiblingStage, VerifyExactDigestAndLength];
  }

  lemma MismatchLogAddsUp(log: Log, faults: seq<FaultPoint>)
    ensures Plus(VerifiedLog(log, false), CleanupOwnedStage, [], true) == Joined(log, LogOf(faults, Mismatch))
  {
    var failed := FailedStep(Mismatch);
    hide DeedsFrom;
    var prefix := [InspectDestination, CreatePrivateSiblingStage, VerifyExactDigestAndLength];
    DeedsOfPrefix(failed);
    DeedsOfTwo(CleanupOwnedStage, CleanupOwnedStage, failed);
    DeedsInTwo(prefix, [CleanupOwnedStage], failed);
    assert prefix + [CleanupOwnedStage] == TraceOf(Mismatch);
  }

  lemma UnsyncedLogAddsUp(log: Log, faults: seq<FaultPoint>)
    ensures Plus(SyncedLog(log, false), CleanupOwnedStage, [], true) == Joined(log, LogOf(faults, StageUnsynced))
  {
    var failed := FailedStep(StageUnsynced);
    hide DeedsFrom;
    var prefix := [InspectDestination, CreatePrivateSiblingStage, VerifyExactDigestAndLength];
    DeedsOfPrefix(failed);
    DeedsOfTwo(SyncStagedFile, CleanupOwnedStage, failed);
    DeedsInTwo(prefix, [SyncStagedFile, CleanupOwnedStage], failed);
    assert prefix + [SyncStagedFile, CleanupOwnedStage] == TraceOf(StageUnsynced);
    assert STAGED[..2] == [CorruptStagedBeforeVerification, BeforeFileSync];
  }

  lemma FreshPrefixDeeds(failed: Option<PublicationStep>)
    ensures DeedsFrom(FRESH_PREFIX, failed)
         == DeedsFrom([InspectDestination, CreatePrivateSiblingStage, VerifyExactDigestAndLength], failed)
            + [Deed(SyncStagedFile, failed != Some(SyncStagedFile)),
               Deed(PublishNoClobber, failed != Some(PublishNoClobber))]
  {
    hide DeedsFrom;
    var prefix := [InspectDestination, CreatePrivateSiblingStage, VerifyExactDigestAndLength];
    DeedsOfTwo(SyncStagedFile, PublishNoClobber, failed);
    DeedsInTwo(prefix, [SyncStagedFile, PublishNoClobber], failed);
    assert prefix + [SyncStagedFile, PublishNoClobber] == FRESH_PREFIX;
  }

  /** The log up to the second look at the destination. */
  lemma PublishedLogInFull(log: Log, asked: seq<FaultPoint>, passed: bool)
    ensures PublishedLog(log, asked, passed) == Joined(log, Log(
      FRESH_PREFIX + [InspectDestination],
      [CorruptStagedBeforeVerification, BeforeFileSync] + asked,
      DeedsFrom(FRESH_PREFIX, if passed then None else Some(PublishNoClobber)) + [Deed(InspectDestination, true)]))
  {
    var failed := if passed then None else Some(PublishNoClobber);
    hide DeedsFrom;
    FreshPrefixDeeds(failed);
    DeedsOfPrefix(failed);
    assert STAGED[..1] == [CorruptStagedBeforeVerification];
  }

  lemma FailedPublishLogAddsUp(log: Log, faults: seq<FaultPoint>, ending: Ending)
    requires ending.NeverVisible? || ending.VisibleUnsure?
    ensures var asked := if ending.NeverVisible? then STAGED[2..3] else STAGED[2..];
      Plus(PublishedLog(log, asked, false), CleanupOwnedStage, [], true) == Joined(log, LogOf(faults, ending))
  {
    var failed := FailedStep(ending);
    hide DeedsFrom, PublishedLog;
    PublishedLogInFull(log, if ending.NeverVisible? then STAGED[2..3] else STAGED[2..], false);
    DeedsInTwo(FRESH_PREFIX, [InspectDestination, CleanupOwnedStage], failed);
    DeedsOfTwo(InspectDestination, CleanupOwnedStage, failed);
  }

  lemma VisibleLogAddsUp(log: Log, faults: seq<FaultPoint>, ending: Ending)
    requires ending.FreshParentUnsynced? || ending.PublishedFresh?
    ensures var parent := ParentQueries(AfterHit(faults, CorruptStagedBeforeVerification));
      Plus(Plus(PublishedLog(log, STAGED[2..], true), SyncParentDirectory, parent, ending.PublishedFresh?),
           CleanupOwnedStage, [], true) == Joined(log, LogOf(faults, ending))
  {
    var failed := FailedStep(ending);
    var tail := [InspectDestination, SyncParentDirectory, CleanupOwnedStage];
    hide DeedsFrom, PublishedLog, ParentQueries, AfterHit;
    PublishedLogInFull(log, STAGED[2..], true);
    PrefixWithoutParent(failed);
    DeedsInTwo(FRESH_PREFIX, tail, failed);
    DeedsInTwo([InspectDestination, SyncParentDirectory], [CleanupOwnedStage], failed);
    DeedsOfTwo(InspectDestination, SyncParentDirectory, failed);
    DeedsOfTwo(CleanupOwnedStage, CleanupOwnedStage, failed);
    assert [InspectDestination, SyncParentDirectory] + [CleanupOwnedStage] == tail;
    assert STAGED == [CorruptStagedBeforeVerification, BeforeFileSync] + STAGED[2..];
  }

  /** No boundary of the prefix is the parent sync. */
  lemma PrefixWithoutParent(failed: Option<PublicationStep>)
    requires failed == None || failed == Some(SyncParentDirectory)
    ensures DeedsFrom(FRESH_PREFIX, failed) == DeedsFrom(FRESH_PREFIX, None)
  {
    hide DeedsFrom;
    FreshPrefixDeeds(failed);
    FreshPrefixDeeds(None);
    DeedsOfPrefix(failed);
    DeedsOfPrefix(None);
  }

  // ---------- a fresh run is its ending ----------

  lemma FailedVerificationCleansUp(st: Store, request: PublicationRequest, stage: nat)
    requires VerifyExact(st, stage, request.artifact).verdict.Fail?
    ensures var verified := Noted(VerifyExact(st, stage, request.artifact), VerifyExactDigestAndLength);
      PublishStage(st, request, stage)
      == CleanedUp(verified.store, stage, Validated(NotVisible(verified.verdict.error)))
  {
    hide VerifyExact, Validated, NotVisible, CleanedUp;
  }

  lemma FailedSyncCleansUp(st: Store, request: PublicationRequest, stage: nat)
    requires VerifyExact(st, stage, request.artifact).verdict.Pass?
    requires var verified := Noted(VerifyExact(st, stage, request.artifact), VerifyExactDigestAndLength);
      SyncStaged(verified.store, stage).verdict.Fail?
    ensures var verified := Noted(VerifyExact(st, stage, request.artifact), VerifyExactDigestAndLength);
      var synced := Noted(SyncStaged(verified.store, stage), SyncStagedFile);
      PublishStage(st, request, stage) == CleanedUp(synced.store, stage, Validated(NotVisible(synced.verdict.error)))
  {
    hide VerifyExact, SyncStaged, Validated, NotVisible, CleanedUp;
  }

  lemma SyncedStagePublishes(st: Store, request: PublicationRequest, stage: nat)
    requires VerifyExact(st, stage, request.artifact).verdict.Pass?
    requires var verified := Noted(VerifyExact(st, stage, request.artifact), VerifyExactDigestAndLength);
      SyncStaged(verified.store, stage).verdict.Pass?
    ensures var verified := Noted(VerifyExact(st, stage, request.artifact), VerifyExactDigestAndLength);
      var synced := Noted(SyncStaged(verified.store, stage), SyncStagedFile);
      var published := Noted(Publish(synced.store, stage), PublishNoClobber);
      PublishStage(st, request, stage) ==
        if published.verdict.Fail? then AfterFailedPublish(published.store, request, stage, published.verdict.error)
        else AfterPublish(published.store, request, stage)
  {
    hide VerifyExact, SyncStaged, Publish, AfterFailedPublish, AfterPublish;
  }

  lemma NotedKeepsVerdict(called: Attempted, step: PublicationStep)
    ensures Noted(called, step).verdict == called.verdict
  {
  }

  lemma MismatchInFull(st: Store, request: PublicationRequest)
    requires st.visible.None? && EndingOf(st.faults, st.visible, request.artifact).Mismatch?
    ensures var left := AfterHit(st.faults, CorruptStagedBeforeVerification);
      && left != st.faults && !CorruptionIsNoOp(request.artifact)
      && Ended(st, request) == RunStep(
           Store(left, st.nextStage + 1, st.stages, None, Joined(st.log, LogOf(st.faults, Mismatch))),
           Returned(NotVisible(VerificationMismatch)))
  {
    hide LogOf, Joined, CorruptionIsNoOp, NotVisible, DurabilityUnknown, Receipt, ConflictError;
  }

  lemma UnsyncedInFull(st: Store, request: PublicationRequest)
    requires st.visible.None? && EndingOf(st.faults, st.visible, request.artifact).StageUnsynced?
    ensures var left := AfterHit(st.faults, CorruptStagedBeforeVerification);
      && (left == st.faults || CorruptionIsNoOp(request.artifact)) && Fires(left, BeforeFileSync)
      && Ended(st, request) == RunStep(
           Store(left[1..], st.nextStage + 1, st.stages, None, Joined(st.log, LogOf(st.faults, StageUnsynced))),
           Returned(NotVisible(Injected(BeforeFileSync))))
  {
    hide LogOf, Joined, CorruptionIsNoOp, NotVisible, DurabilityUnknown, Receipt, ConflictError;
  }

  lemma NotVisibleReturns(request: PublicationRequest)
    requires request.Valid()
    ensures Validated(NotVisible(VerificationMismatch)) == Returned(NotVisible(VerificationMismatch))
    ensures Validated(NotVisible(Injected(BeforeFileSync))) == Returned(NotVisible(Injected(BeforeFileSync)))
  {
    hide NotVisible, Validated, PublicationRequest.Valid;
    ValidReturns(Mismatch, request);
    ValidReturns(StageUnsynced, request);
  }

  /** The stage as creation leaves it. */
  function Opened(st: Store, request: PublicationRequest): Store {
    InStage(st, st.faults, FreshStage(request), None, PreparedLog(st.log))
  }

  ghost predicate CanOpen(st: Store, request: PublicationRequest) {
    request.Valid() && Fits(request.artifact) && st.nextStage + 1 !in st.stages && st.visible.None?
  }

  lemma MismatchIsItsEnding(st: Store, request: PublicationRequest)
    requires CanOpen(st, request) && EndingOf(st.faults, st.visible, request.artifact).Mismatch?
    ensures PublishStage(Opened(st, request), request, st.nextStage + 1) == Ended(st, request)
  {
    hide PublicationRequest.Valid, Validated, NotVisible, VerifyExact, PublishStage, CleanedUp, InStage, Examined;
    hide CorruptionIsNoOp, LogOf, Joined, Plus, PreparedLog, Ended, EndingOf, FreshStage, AfterHit, Noted;
    MismatchInFull(st, request);
    NotVisibleReturns(request);
    MismatchLogAddsUp(st.log, st.faults);
    var start, id := Opened(st, request), st.nextStage + 1;
    VerifyInStage(st, request, st.faults, PreparedLog(st.log));
    NotedKeepsVerdict(VerifyExact(start, id, request.artifact), VerifyExactDigestAndLength);
    FailedVerificationCleansUp(start, request, id);
    CleanupInStage(st, AfterHit(st.faults, CorruptStagedBeforeVerification), Examined(st.faults, request), None,
                   VerifiedLog(st.log, false), Returned(NotVisible(VerificationMismatch)));
  }

  lemma ExaminedIntact(faults: seq<FaultPoint>, request: PublicationRequest)
    requires AfterHit(faults, CorruptStagedBeforeVerification) == faults || CorruptionIsNoOp(request.artifact)
    ensures Examined(faults, request) == FreshStage(request)
  {
  }

  lemma UnsyncedIsItsEnding(st: Store, request: PublicationRequest)
    requires CanOpen(st, request) && EndingOf(st.faults, st.visible, request.artifact).StageUnsynced?
    ensures PublishStage(Opened(st, request), request, st.nextStage + 1) == Ended(st, request)
  {
    hide PublicationRequest.Valid, Validated, NotVisible, VerifyExact, SyncStaged, PublishStage, CleanedUp, InStage;
    hide CorruptionIsNoOp, LogOf, Joined, Plus, PreparedLog, Ended, EndingOf, FreshStage, Examined, Noted;
    UnsyncedInFull(st, request);
    NotVisibleReturns(request);
    UnsyncedLogAddsUp(st.log, st.faults);
    var start, id := Opened(st, request), st.nextStage + 1;
    var left := AfterHit(st.faults, CorruptStagedBeforeVerification);
    ExaminedIntact(st.faults, request);
    VerifyInStage(st, request, st.faults, PreparedLog(st.log));
    NotedKeepsVerdict(VerifyExact(start, id, request.artifact), VerifyExactDigestAndLength);
    var verified := InStage(st, left, FreshStage(request), None, VerifiedLog(st.log, true));
    SyncInStage(st, left, FreshStage(request), VerifiedLog(st.log, true));
    NotedKeepsVerdict(SyncStaged(verified, id), SyncStagedFile);
    FailedSyncCleansUp(start, request, id);
    CleanupInStage(st, left[1..], FreshStage(request), None, SyncedLog(st.log, false),
                   Returned(NotVisible(Injected(BeforeFileSync))));
  }

  predicate GetsToPublish(ending: Ending) {
    ending.NeverVisible? || ending.VisibleUnsure? || ending.FreshParentUnsynced? || ending.PublishedFresh?
  }

  /** The stage as a passed verification and sync leave it. */
  function Synced(st: Store, request: PublicationRequest): Store {
    InStage(st, AfterHit(st.faults, CorruptStagedBeforeVerification), FreshStage(request).(fileSynced := true), None,
            SyncedLog(st.log, true))
  }

  lemma OpenedGetsSynced(st: Store, request: PublicationRequest)
    requires CanOpen(st, request) && GetsToPublish(EndingOf(st.faults, st.visible, request.artifact))
    ensures var published := Noted(Publish(Synced(st, request), st.nextStage + 1), PublishNoClobber);
      PublishStage(Opened(st, request), request, st.nextStage + 1)
      == if published.verdict.Fail?
         then AfterFailedPublish(published.store, request, st.nextStage + 1, published.verdict.error)
         else AfterPublish(published.store, request, st.nextStage + 1)
  {
    hide PublicationRequest.Valid, VerifyExact, SyncStaged, Publish;
    hide PublishStage, InStage, AfterFailedPublish, AfterPublish;
    hide CorruptionIsNoOp, Plus, PreparedLog, FreshStage, Examined, Noted, ParentFault;
    var start, id := Opened(st, request), st.nextStage + 1;
    var left := AfterHit(st.faults, CorruptStagedBeforeVerification);
    ExaminedIntact(st.faults, request);
    VerifyInStage(st, request, st.faults, PreparedLog(st.log));
    NotedKeepsVerdict(VerifyExact(start, id, request.artifact), VerifyExactDigestAndLength);
    var verified := InStage(st, left, FreshStage(request), None, VerifiedLog(st.log, true));
    SyncInStage(st, left, FreshStage(request), VerifiedLog(st.log, true));
    NotedKeepsVerdict(SyncStaged(verified, id), SyncStagedFile);
    SyncedStagePublishes(start, request, id);
  }

  /** The publication failed: before the artifact became visible, or after. */
  lemma FailedPublishIsItsEnding(st: Store, request: PublicationRequest)
    requires CanOpen(st, request)
    requires var ending := EndingOf(st.faults, st.visible, request.artifact);
      ending.NeverVisible? || ending.VisibleUnsure?
    ensures var published := Noted(Publish(Synced(st, request), st.nextStage + 1), PublishNoClobber);
      && published.verdict.Fail?
      && AfterFailedPublish(published.store, request, st.nextStage + 1, published.verdict.error) == Ended(st, request)
  {
    hide PublicationRequest.Valid, Publish, AfterFailedPublish, CorruptionIsNoOp;
    hide Plus, SyncedLog, LogOf, Joined, OutcomeFor;
    hide Noted, ParentFault;
    var ending := EndingOf(st.faults, st.visible, request.artifact);
    var left := AfterHit(st.faults, CorruptStagedBeforeVerification);
    var staged := FreshStage(request).(fileSynced := true);
    PublishInStage(st, left, staged, SyncedLog(st.log, true));
    FailedPublishLogAddsUp(st.log, st.faults, ending);
    var asked := if ending.NeverVisible? then [BeforeVisibility] else [BeforeVisibility, AfterNoClobberVisibility];
    assert STAGED[2..3] == [BeforeVisibility] && STAGED[2..] == [BeforeVisibility, AfterNoClobberVisibility];
    AfterFailedPublishInStage(st, request, left[1..], staged,
                              Plus(SyncedLog(st.log, true), PublishNoClobber, asked, false), ending.VisibleUnsure?);
  }

  /** The publication succeeded; the parent sync decides how sure it is. */
  lemma PublishIsItsEnding(st: Store, request: PublicationRequest)
    requires CanOpen(st, request)
    requires var ending := EndingOf(st.faults, st.visible, request.artifact);
      ending.FreshParentUnsynced? || ending.PublishedFresh?
    ensures var published := Noted(Publish(Synced(st, request), st.nextStage + 1), PublishNoClobber);
      && published.verdict.Pass?
      && AfterPublish(published.store, request, st.nextStage + 1) == Ended(st, request)
  {
    hide PublicationRequest.Valid, Publish, AfterPublish, CorruptionIsNoOp, Plus, SyncedLog, LogOf, Joined, OutcomeFor;
    hide Noted, ParentFault, ParentQueries;
    var ending := EndingOf(st.faults, st.visible, request.artifact);
    var left := AfterHit(st.faults, CorruptStagedBeforeVerification);
    var staged := FreshStage(request).(fileSynced := true);
    PublishInStage(st, left, staged, SyncedLog(st.log, true));
    VisibleLogAddsUp(st.log, st.faults, ending);
    assert STAGED[2..] == [BeforeVisibility, AfterNoClobberVisibility];
    ParentFaultMeansFaults(left);
    AfterPublishInStage(st, request, left, staged, Plus(SyncedLog(st.log, true), PublishNoClobber, STAGED[2..], true));
  }

  lemma ParentFaultMeansFaults(faults: seq<FaultPoint>)
    ensures ParentFault(faults) ==> faults != []
  {
  }

  lemma StagingIsItsEnding(st: Store, request: PublicationRequest)
    requires CanOpen(st, request)
    ensures PublishStage(Opened(st, request), request, st.nextStage + 1) == Ended(st, request)
  {
    hide CanOpen, Opened, Ended, PublishStage, Synced;
    hide Publish, AfterFailedPublish, AfterPublish, ParentFault, CorruptionIsNoOp;
    var ending := EndingOf(st.faults, st.visible, request.artifact);
    assert st.visible.None? by {
      OpensEmpty(st, request);
    }
    if ending.Mismatch? {
      MismatchIsItsEnding(st, request);
    } else if ending.StageUnsynced? {
      UnsyncedIsItsEnding(st, request);
    } else {
      OpenedGetsSynced(st, request);
      if ending.NeverVisible? || ending.VisibleUnsure? {
        FailedPublishIsItsEnding(st, request);
      } else {
        PublishIsItsEnding(st, request);
      }
    }
  }

  lemma OpensEmpty(st: Store, request: PublicationRequest)
    requires CanOpen(st, request)
    ensures st.visible.None?
  {
  }

  lemma FreshIsItsEnding(st: Store, request: PublicationRequest)
    requires request.Valid() && Fits(request.artifact) && st.visible.None?
    requires st.nextStage < U64_MAX && StagesNumbered(st)
    ensures PublishFresh(Inspected(st), request) == Ended(st, request)
  {
    hide PublishFresh, PublishStage, Ended, PublicationRequest.Valid, FreshStage, Inspected, PreparedLog;
    assert st.nextStage + 1 !in st.stages;
    CreatedIsInStage(st, request);
    StagingIsItsEnding(st, request);
  }

  /** The runner refuses a malformed request, and a fresh stage once the stage numbers have run out. */
  predicate Refused(st: Store, request: PublicationRequest) {
    !request.Valid() || (st.visible.None? && st.nextStage >= U64_MAX)
  }

  /** Otherwise none of its `expect`s and assertions fails, and the run is exactly its ending. */
  lemma RunIsItsEnding(st: Store, request: PublicationRequest)
    requires Fits(request.artifact) && StagesNumbered(st)
    ensures !Refused(st, request) ==> Run(st, request) == Ended(st, request)
    ensures Run(st, request).result.Aborted? <==> Refused(st, request)
  {
    hide Recover, PublishFresh, Ended, PublicationRequest.Valid, StagesNumbered, Inspected;
    if !Refused(st, request) {
      if st.visible.Some? {
        RecoveryIsItsEnding(st, request);
      } else {
        FreshIsItsEnding(st, request);
      }
      EndedReturns(st, request);
    } else if request.Valid() {
      RunsOutOfStages(st, request);
    }
  }

  lemma EndedReturns(st: Store, request: PublicationRequest)
    ensures Ended(st, request).result
         == Returned(OutcomeFor(EndingOf(st.faults, st.visible, request.artifact), request))
  {
    hide EndingOf, OutcomeFor, FaultsAfter, LogOf;
  }

  lemma RunsOutOfStages(st: Store, request: PublicationRequest)
    requires st.nextStage >= U64_MAX
    ensures PublishFresh(Inspected(st), request).result.Aborted?
  {
    hide PublishStage;
  }
}

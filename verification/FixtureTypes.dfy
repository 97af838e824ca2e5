/** The envelopes of the vertical fixture protocol, and the checks it borrows from elsewhere. */
module FixtureTypes {
  import opened Wrappers
  import opened Collections
  import PC = PublicationContracts

  type Bytes = seq<bv8>

  type ArtifactIdentity = PC.ArtifactIdentity

  datatype FixtureClass = ModelFree | Real | State

  datatype VerticalId =
    | MomChatCancelRetry
    | MomAttachment
    | FteHostedFixtureLoopback
    | SpeechPeerCancellation
    | InformationInstallQuery
    | LoomSuggestionPromotion
    | LoomResearchDiagnosticAdmittedDistinction
    | QuitRelaunchFakeOwners
    | CurrentExactQwen
    | CurrentExactGemma
    | CurrentParakeetModelAudio
    | AppleInstalledVoice
    | MomPriorReleaseStore
    | LoomPriorProjectStore
    | FteLegacyDatabase
    | InformationResourceStore
    | CorruptedDisposableCaches
    | PartialPublicationStates
  {
    function Class(): FixtureClass {
      if MomChatCancelRetry? || MomAttachment? || FteHostedFixtureLoopback? || SpeechPeerCancellation?
         || InformationInstallQuery? || LoomSuggestionPromotion? || LoomResearchDiagnosticAdmittedDistinction?
         || QuitRelaunchFakeOwners? then ModelFree
      else if CurrentExactQwen? || CurrentExactGemma? || CurrentParakeetModelAudio? || AppleInstalledVoice? then Real
      else State
    }
  }

  const ALL_VERTICAL_IDS: seq<VerticalId> := [
    MomChatCancelRetry, MomAttachment, FteHostedFixtureLoopback, SpeechPeerCancellation, InformationInstallQuery,
    LoomSuggestionPromotion, LoomResearchDiagnosticAdmittedDistinction, QuitRelaunchFakeOwners,
    CurrentExactQwen, CurrentExactGemma, CurrentParakeetModelAudio, AppleInstalledVoice,
    MomPriorReleaseStore, LoomPriorProjectStore, FteLegacyDatabase, InformationResourceStore,
    CorruptedDisposableCaches, PartialPublicationStates]

  const W1_CONTRACT_REVISION := "cbab33555ab9355a6ac453d659c55ec9e0666821"
  const MANIFEST_SCHEMA_V0 := "delysis.vertical_fixture_manifest.v0"
  const OBSERVATION_SCHEMA_V0 := "delysis.vertical_observation.v0"
  const LOCK_SCHEMA_V0 := "delysis.vertical_fixture_lock.v0"

  datatype GitSource = GitSource(repositoryId: string, commit: string, productionTree: ArtifactIdentity)

  datatype ArtifactAvailability = CheckedIn | ExternalExact | RuntimeInventory | GeneratedFixture

  datatype FixtureArtifact = FixtureArtifact(
    identity: ArtifactIdentity, availability: ArtifactAvailability, relativePath: Option<string>)

  datatype StateIdentity = StateIdentity(stateId: string, schemaId: string, baseline: FixtureArtifact)

  datatype PrerequisiteKind = ExactExternalArtifact | PlatformInventory | LocalRuntime

  datatype Prerequisite = Prerequisite(prerequisiteId: string, kind: PrerequisiteKind, identity: ArtifactIdentity)

  datatype ReplayProgram = Cargo | Npm | RepositoryScript(relativePath: string)

  datatype NetworkBoundary = Denied | LoopbackOnly

  datatype ReplayRecipe = ReplayRecipe(
    program: ReplayProgram, argv: seq<string>, requiredEnvironment: seq<string>, network: NetworkBoundary)

  datatype EvidenceDisposition = Rejected | Unavailable | Superseded

  datatype NegativeEvidence = NegativeEvidence(
    evidenceId: string, disposition: EvidenceDisposition, artifact: ArtifactIdentity, reason: string)

  datatype FixtureCase = FixtureCase(
    caseId: string,
    source: GitSource,
    inputs: seq<FixtureArtifact>,
    stateIdentities: seq<StateIdentity>,
    prerequisites: seq<Prerequisite>,
    replay: seq<ReplayRecipe>,
    expectedProjection: ArtifactIdentity)

  datatype Manifest = Manifest(
    schema: string,
    verticalId: VerticalId,
    fixtureClass: FixtureClass,
    contractRevision: string,
    cases: seq<FixtureCase>,
    omittedClaims: seq<string>,
    negativeEvidence: seq<NegativeEvidence>)

  datatype EventFact = EventFact(
    sequence: nat,
    operationId: string,
    attemptId: Option<string>,
    correlationId: Option<string>,
    kind: string,
    payload: Option<ArtifactIdentity>)

  datatype StateDisposition = Unchanged | Created | Updated | Removed | Quarantined | Recovered

  datatype DurableStateFact = DurableStateFact(
    stateId: string,
    schemaId: string,
    before: Option<ArtifactIdentity>,
    after: Option<ArtifactIdentity>,
    disposition: StateDisposition)

  datatype TerminalClass = Completed | Cancelled | Failed

  datatype LifecycleFact = LifecycleFact(
    operationId: string,
    attemptId: Option<string>,
    correlationId: Option<string>,
    terminal: TerminalClass,
    released: bool)

  datatype OwnershipFacts = OwnershipFacts(
    activeOperations: nat, retainedTasks: nat, expectedWorkers: nat, joinedWorkers: nat)

  datatype FactValue =
    | Boolean(flag: bool)
    | Integer(number: int)
    | Text(text: string)
    | Digest(digest: PC.ContentDigest)

  datatype Projection = Projection(
    orderedEvents: seq<EventFact>,
    durableState: seq<DurableStateFact>,
    lifecycle: seq<LifecycleFact>,
    ownership: OwnershipFacts,
    outputFacts: map<string, FactValue>,
    failClosedFacts: seq<string>)

  datatype EvidenceTier = Operational | Reproducible | ResearchEligible | ExternallyAttested

  datatype ExecutionKind = Fixture | LocalExecution | HostedNetwork

  datatype EvidenceClaim = EvidenceClaim(
    schema: string,
    tier: EvidenceTier,
    threatModel: string,
    exactSource: PC.ContentDigest,
    exactRuntimeOrArtifact: PC.ContentDigest,
    executionKind: ExecutionKind,
    omittedClaims: seq<string>,
    negativeEvidence: seq<string>)

  datatype Observation = Observation(
    schema: string,
    verticalId: VerticalId,
    caseId: string,
    implementationRevision: string,
    observedPrerequisites: seq<Prerequisite>,
    evidence: EvidenceClaim,
    projection: Projection)

  datatype LockEntry = LockEntry(verticalId: VerticalId, fixtureClass: FixtureClass, manifest: ArtifactIdentity)

  datatype Lock = Lock(schema: string, protocolCommit: string, contractRevision: string, entries: seq<LockEntry>)

  /**
   Character-level checks, the decoder and the hash: any functions at all.
   Nothing proved here depends on which they are.
   */
  datatype Env = Env(
    safeId: string -> bool,
    gitCommit: string -> bool,
    text: string -> bool,
    allowedName: string -> bool,
    repositoryId: string -> bool,
    relativePath: string -> bool,
    replay: ReplayRecipe -> bool,
    claim: EvidenceClaim -> bool,
    loomFacts: map<string, FactValue> -> bool,
    parseManifest: Bytes -> Option<Manifest>,
    parseProjection: Bytes -> Option<Projection>,
    sha256: Bytes -> string)

  /** Which field a complaint is about; `Syntax` stands for all the character-level ones. */
  datatype Field =
    | Syntax
    | Schema
    | ClassField
    | ContractRevision
    | Cases
    | CaseId
    | Inputs
    | Replay
    | Evidence
    | EvidenceTierField
    | ExecutionKindField
    | OmittedClaims
    | Prerequisites
    | StateIdentities
    | NegativeEvidenceId
    | OrderedEvents
    | DurableState
    | DurableStateId
    | DurableStateSchema
    | DurableStateBefore
    | Disposition
    | LifecycleRows
    | LifecycleIdentity
    | Released
    | EventLifecycleIdentity
    | Ownership
    | OutputFacts
    | FailClosedFacts
    | LoomFacts
    | CancelRetry
    | ImplementationRevision
    | ExactSource
    | CandidateRepository
    | CandidateTree
    | EntriesManifest
    | ExpectedProjection
    | ObservedPrerequisites
    | VerifiedPrerequisites
    | VerifiedPrerequisiteId
    | PrerequisiteChunks
    | VerticalIdField

  datatype ValidationError =
    | Empty(field: Field)
    | Invalid(field: Field)
    | Duplicate(field: Field)
    | Inconsistent(field: Field)
    | DigestMismatch(field: Field)
    | LengthMismatch(field: Field)
    | InvalidProjectionJson
    | ProjectionMismatch
    | MissingCase(caseId: string)

  function Require(ok: bool, error: ValidationError): Verdict<ValidationError> {
    if ok then Pass else Fail(error)
  }

  /** An artifact's id is safe and of at most 256 bytes, its digest sixty-four lower-case hexadecimal digits. */
  predicate ArtifactOk(env: Env, artifact: ArtifactIdentity) {
    env.safeId(artifact.id) && PC.ArtifactAccepted(artifact)
  }

  function ValidateArtifact(env: Env, artifact: ArtifactIdentity): (verdict: Verdict<ValidationError>)
    ensures verdict.Pass? <==> ArtifactOk(env, artifact)
  {
    PC.ArtifactValidIff(artifact);
    if !env.safeId(artifact.id) then Fail(Invalid(Syntax))
    else Require(artifact.Validate().Pass?, Invalid(Syntax))
  }

  function VerifyArtifactBytes(env: Env, field: Field, identity: ArtifactIdentity, bytes: Bytes)
    : (verdict: Verdict<ValidationError>)
    ensures verdict.Pass? <==> ArtifactOk(env, identity) && Authenticates(env, identity, bytes)
  {
    if ValidateArtifact(env, identity).Fail? then ValidateArtifact(env, identity)
    else if identity.length != |bytes| then Fail(LengthMismatch(field))
    else if identity.digest.hex != env.sha256(bytes) then Fail(DigestMismatch(field))
    else Pass
  }

  predicate Authenticates(env: Env, identity: ArtifactIdentity, bytes: Bytes) {
    identity.length == |bytes| && identity.digest.hex == env.sha256(bytes)
  }

  lemma EveryVerticalIsListed(v: VerticalId)
    ensures v in ALL_VERTICAL_IDS
  {
    assert ALL_VERTICAL_IDS[0] == MomChatCancelRetry && ALL_VERTICAL_IDS[1] == MomAttachment;
    assert ALL_VERTICAL_IDS[2] == FteHostedFixtureLoopback && ALL_VERTICAL_IDS[3] == SpeechPeerCancellation;
    assert ALL_VERTICAL_IDS[4] == InformationInstallQuery && ALL_VERTICAL_IDS[5] == LoomSuggestionPromotion;
    assert ALL_VERTICAL_IDS[6] == LoomResearchDiagnosticAdmittedDistinction;
    assert ALL_VERTICAL_IDS[7] == QuitRelaunchFakeOwners && ALL_VERTICAL_IDS[8] == CurrentExactQwen;
    assert ALL_VERTICAL_IDS[9] == CurrentExactGemma && ALL_VERTICAL_IDS[10] == CurrentParakeetModelAudio;
    assert ALL_VERTICAL_IDS[11] == AppleInstalledVoice && ALL_VERTICAL_IDS[12] == MomPriorReleaseStore;
    assert ALL_VERTICAL_IDS[13] == LoomPriorProjectStore && ALL_VERTICAL_IDS[14] == FteLegacyDatabase;
    assert ALL_VERTICAL_IDS[15] == InformationResourceStore && ALL_VERTICAL_IDS[16] == CorruptedDisposableCaches;
    assert ALL_VERTICAL_IDS[17] == PartialPublicationStates;
  }

  /** The first eight rows need no model, the next four a real one, and the last six are about stored state. */
  lemma ClassesFollowTheList(i: nat)
    requires i < |ALL_VERTICAL_IDS|
    ensures ALL_VERTICAL_IDS[i].Class() == if i < 8 then ModelFree else if i < 12 then Real else State
  {
  }

  lemma VerticalsAreListedOnce()
    ensures |ALL_VERTICAL_IDS| == 18 && NoDuplicates(ALL_VERTICAL_IDS)
  {
  }

  // ---------- lists without repetitions ----------

  /** The uniqueness loop every list of identified things goes through. */
  method ValidateUniqueById<T>(
      values: seq<T>, id: T -> string, valid: T -> bool, invalid: ValidationError, repeated: ValidationError)
    returns (verdict: Verdict<ValidationError>)
    ensures verdict.Pass? <==> (forall v :: v in values ==> valid(v)) && NoDuplicates(Map(values, id))
    ensures verdict.Fail? ==> verdict.error == invalid || verdict.error == repeated
  {
    var seen: set<string> := {};
    for i := 0 to |values|
      invariant forall j :: 0 <= j < i ==> valid(values[j])
      invariant forall x :: x in seen <==> exists j :: 0 <= j < i && Map(values, id)[j] == x
      invariant forall j, k :: 0 <= j < k < i ==> Map(values, id)[j] != Map(values, id)[k]
    {
      if !valid(values[i]) {
        return Fail(invalid);
      }
      assert Map(values, id)[i] == id(values[i]);
      if id(values[i]) in seen {
        return Fail(repeated);
      }
      seen := seen + {id(values[i])};
    }
    return Pass;
  }
}

/** Row manifests: one case after another, each naming its inputs, states and prerequisites once. */
module FixtureManifest {
  import opened Wrappers
  import opened Collections
  import opened FixtureTypes
  import opened FixtureProjection

  const LIVE_HOSTED_PROVIDER_OMISSION := "live hosted-provider behavior"
  const QWEN_MODEL := "model.qwen.gguf"
  const GEMMA_MODEL := "model.gemma.gguf"
  const PARAKEET_MODEL := "model.parakeet"
  const PARAKEET_AUDIO := "audio.input"
  const APPLE_VOICE := "voice.apple.installed"

  // ---------- what is accepted ----------

  predicate SourceOk(env: Env, s: GitSource) {
    env.safeId(s.repositoryId) && env.repositoryId(s.repositoryId) && env.gitCommit(s.commit)
    && ArtifactOk(env, s.productionTree)
  }

  /** A path accompanies an artifact exactly when it is checked in. */
  predicate FixtureArtifactOk(env: Env, a: FixtureArtifact) {
    && ArtifactOk(env, a.identity)
    && (a.availability.CheckedIn? <==> a.relativePath.Some?)
    && (a.relativePath.Some? ==> env.relativePath(a.relativePath.value))
  }

  predicate StateIdentityOk(env: Env, s: StateIdentity) {
    env.safeId(s.stateId) && env.safeId(s.schemaId) && FixtureArtifactOk(env, s.baseline)
  }

  predicate PrerequisiteOk(env: Env, p: Prerequisite) {
    env.safeId(p.prerequisiteId) && ArtifactOk(env, p.identity) && env.allowedName(p.prerequisiteId)
  }

  ghost function InputIds(inputs: seq<FixtureArtifact>): seq<string> {
    Map(inputs, (a: FixtureArtifact) => a.identity.id)
  }

  ghost function DeclaredStateIds(states: seq<StateIdentity>): seq<string> {
    Map(states, (s: StateIdentity) => s.stateId)
  }

  ghost function PrerequisiteIds(prerequisites: seq<Prerequisite>): seq<string> {
    Map(prerequisites, (p: Prerequisite) => p.prerequisiteId)
  }

  /** The case declares the prerequisite, of the given kind and not empty. */
  ghost predicate Requires(c: FixtureCase, id: string, kind: PrerequisiteKind) {
    exists p :: p in c.prerequisites && p.prerequisiteId == id && p.kind == kind && p.identity.length != 0
  }

  ghost predicate RowPrerequisitesOk(v: VerticalId, c: FixtureCase) {
    match v
    case CurrentExactQwen => Requires(c, "model.qwen.gguf", ExactExternalArtifact)
    case CurrentExactGemma => Requires(c, "model.gemma.gguf", ExactExternalArtifact)
    case CurrentParakeetModelAudio =>
      Requires(c, "model.parakeet", ExactExternalArtifact) && Requires(c, "audio.input", ExactExternalArtifact)
    case AppleInstalledVoice => Requires(c, "voice.apple.installed", PlatformInventory)
    case _ => v.Class() == FixtureClass.State ==> c.stateIdentities != []
  }

  ghost predicate CaseOk(env: Env, v: VerticalId, c: FixtureCase) {
    && env.safeId(c.caseId) && SourceOk(env, c.source)
    && c.inputs != [] && (forall a :: a in c.inputs ==> FixtureArtifactOk(env, a)) && NoDuplicates(InputIds(c.inputs))
    && RowPrerequisitesOk(v, c)
    && (forall s :: s in c.stateIdentities ==> StateIdentityOk(env, s))
    && NoDuplicates(DeclaredStateIds(c.stateIdentities))
    && (forall p :: p in c.prerequisites ==> PrerequisiteOk(env, p)) && NoDuplicates(PrerequisiteIds(c.prerequisites))
    && c.replay != [] && (forall r :: r in c.replay ==> env.replay(r))
    && ArtifactOk(env, c.expectedProjection)
  }

  ghost function CaseIds(cases: seq<FixtureCase>): seq<string> {
    Map(cases, (c: FixtureCase) => c.caseId)
  }

  predicate NegativeOk(env: Env, e: NegativeEvidence) {
    env.safeId(e.evidenceId) && ArtifactOk(env, e.artifact) && env.text(e.reason)
  }

  ghost function NegativeIds(evidence: seq<NegativeEvidence>): seq<string> {
    Map(evidence, (e: NegativeEvidence) => e.evidenceId)
  }

  predicate HeaderOk(env: Env, m: Manifest) {
    && m.schema == "delysis.vertical_fixture_manifest.v0" && m.fixtureClass == m.verticalId.Class()
    && env.gitCommit(m.contractRevision) && m.contractRevision == "cbab33555ab9355a6ac453d659c55ec9e0666821"
    && m.cases != []
  }

  predicate HostedOk(m: Manifest) {
    m.verticalId.FteHostedFixtureLoopback? ==>
      "live hosted-provider behavior" in m.omittedClaims && forall c :: c in m.cases ==> c.prerequisites == []
  }

  ghost predicate ValidManifest(env: Env, m: Manifest) {
    && HeaderOk(env, m)
    && (forall c :: c in m.cases ==> CaseOk(env, m.verticalId, c)) && NoDuplicates(CaseIds(m.cases))
    && TextsOk(env, m.omittedClaims)
    && (forall e :: e in m.negativeEvidence ==> NegativeOk(env, e)) && NoDuplicates(NegativeIds(m.negativeEvidence))
    && HostedOk(m)
  }

  // ---------- the checks ----------

  function ValidateSource(env: Env, s: GitSource): (verdict: Verdict<ValidationError>)
    ensures verdict.Pass? <==> SourceOk(env, s)
  {
    if !env.safeId(s.repositoryId) || !env.repositoryId(s.repositoryId) then Fail(Invalid(Syntax))
    else if !env.gitCommit(s.commit) then Fail(Invalid(Syntax))
    else ValidateArtifact(env, s.productionTree)
  }

  function ValidateFixtureArtifact(env: Env, a: FixtureArtifact): (verdict: Verdict<ValidationError>)
    ensures verdict.Pass? <==> FixtureArtifactOk(env, a)
  {
    if ValidateArtifact(env, a.identity).Fail? then ValidateArtifact(env, a.identity)
    else
      match (a.availability, a.relativePath)
      case (CheckedIn, Some(path)) => Require(env.relativePath(path), Invalid(Syntax))
      case (CheckedIn, None) => Fail(Empty(Inputs))
      case (_, None) => Pass
      case (_, Some(_)) => Fail(Inconsistent(Inputs))
  }

  function ValidateStateIdentity(env: Env, s: StateIdentity): (verdict: Verdict<ValidationError>)
    ensures verdict.Pass? <==> StateIdentityOk(env, s)
  {
    if !env.safeId(s.stateId) then Fail(Invalid(Syntax))
    else if !env.safeId(s.schemaId) then Fail(Invalid(Syntax))
    else ValidateFixtureArtifact(env, s.baseline)
  }

  function ValidatePrerequisite(env: Env, p: Prerequisite): (verdict: Verdict<ValidationError>)
    ensures verdict.Pass? <==> PrerequisiteOk(env, p)
  {
    if !env.safeId(p.prerequisiteId) then Fail(Invalid(Syntax))
    else if ValidateArtifact(env, p.identity).Fail? then ValidateArtifact(env, p.identity)
    else Require(env.allowedName(p.prerequisiteId), Invalid(Syntax))
  }

  function ValidateNegativeEvidence(env: Env, e: NegativeEvidence): (verdict: Verdict<ValidationError>)
    ensures verdict.Pass? <==> NegativeOk(env, e)
  {
    if !env.safeId(e.evidenceId) then Fail(Invalid(Syntax))
    else if ValidateArtifact(env, e.artifact).Fail? then ValidateArtifact(env, e.artifact)
    else Require(env.text(e.reason), Invalid(Syntax))
  }

  function FindPrerequisite(prerequisites: seq<Prerequisite>, id: string): (found: Option<Prerequisite>)
    ensures found.Some? ==> found.value in prerequisites && found.value.prerequisiteId == id
    ensures found.None? ==> forall p :: p in prerequisites ==> p.prerequisiteId != id
  {
    if prerequisites == [] then None
    else if prerequisites[0].prerequisiteId == id then Some(prerequisites[0])
    else FindPrerequisite(prerequisites[1..], id)
  }

  function RequirePrerequisite(c: FixtureCase, id: string, kind: PrerequisiteKind): Verdict<ValidationError> {
    match FindPrerequisite(c.prerequisites, id)
    case None => Fail(Invalid(Prerequisites))
    case Some(found) => Require(found.kind == kind && found.identity.length != 0, Inconsistent(Prerequisites))
  }

  /** With unique identifiers the first prerequisite of that name is the only one. */
  lemma RequireFindsIt(c: FixtureCase, id: string, kind: PrerequisiteKind)
    ensures RequirePrerequisite(c, id, kind).Pass? ==> Requires(c, id, kind)
    ensures NoDuplicates(PrerequisiteIds(c.prerequisites)) && Requires(c, id, kind) ==>
      RequirePrerequisite(c, id, kind).Pass?
  {
    if NoDuplicates(PrerequisiteIds(c.prerequisites)) && Requires(c, id, kind) {
      var p :| p in c.prerequisites && p.prerequisiteId == id && p.kind == kind && p.identity.length != 0;
      var q := FindPrerequisite(c.prerequisites, id).value;
      PrerequisiteIsDetermined(c.prerequisites, p, q);
    }
  }

  lemma PrerequisiteIsDetermined(prerequisites: seq<Prerequisite>, p: Prerequisite, q: Prerequisite)
    requires NoDuplicates(PrerequisiteIds(prerequisites)) && p in prerequisites && q in prerequisites
    requires p.prerequisiteId == q.prerequisiteId
    ensures p == q
  {
    var i :| 0 <= i < |prerequisites| && prerequisites[i] == p;
    var j :| 0 <= j < |prerequisites| && prerequisites[j] == q;
    assert PrerequisiteIds(prerequisites)[i] == PrerequisiteIds(prerequisites)[j];
  }

  function ValidateRowPrerequisites(v: VerticalId, c: FixtureCase): Verdict<ValidationError> {
    match v
    case CurrentExactQwen => RequirePrerequisite(c, QWEN_MODEL, ExactExternalArtifact)
    case CurrentExactGemma => RequirePrerequisite(c, GEMMA_MODEL, ExactExternalArtifact)
    case CurrentParakeetModelAudio =>
      var model := RequirePrerequisite(c, PARAKEET_MODEL, ExactExternalArtifact);
      if model.Fail? then model else RequirePrerequisite(c, PARAKEET_AUDIO, ExactExternalArtifact)
    case AppleInstalledVoice => RequirePrerequisite(c, APPLE_VOICE, PlatformInventory)
    case _ => Require(v.Class() == FixtureClass.State ==> c.stateIdentities != [], Empty(StateIdentities))
  }

  lemma RowPrerequisitesDecided(v: VerticalId, c: FixtureCase)
    ensures ValidateRowPrerequisites(v, c).Pass? ==> RowPrerequisitesOk(v, c)
    ensures NoDuplicates(PrerequisiteIds(c.prerequisites)) && RowPrerequisitesOk(v, c) ==>
      ValidateRowPrerequisites(v, c).Pass?
  {
    hide RequirePrerequisite, Requires, NoDuplicates, PrerequisiteIds;
    RequireFindsIt(c, QWEN_MODEL, ExactExternalArtifact);
    RequireFindsIt(c, GEMMA_MODEL, ExactExternalArtifact);
    RequireFindsIt(c, PARAKEET_MODEL, ExactExternalArtifact);
    RequireFindsIt(c, PARAKEET_AUDIO, ExactExternalArtifact);
    RequireFindsIt(c, APPLE_VOICE, PlatformInventory);
  }

  method ValidateCase(env: Env, v: VerticalId, c: FixtureCase) returns (verdict: Verdict<ValidationError>)
    ensures verdict.Pass? <==> CaseOk(env, v, c)
  {
    hide SourceOk, FixtureArtifactOk, StateIdentityOk, PrerequisiteOk, RowPrerequisitesOk, ArtifactOk, NoDuplicates;
    hide ValidateRowPrerequisites;
    if !env.safeId(c.caseId) {
      return Fail(Invalid(Syntax));
    }
    verdict := ValidateSource(env, c.source);
    if verdict.Fail? {
      return;
    }
    if c.inputs == [] {
      return Fail(Empty(Inputs));
    }
    verdict := ValidateUniqueById(c.inputs, (a: FixtureArtifact) => a.identity.id,
                                  (a: FixtureArtifact) => ValidateFixtureArtifact(env, a).Pass?,
                                  Invalid(Syntax), Duplicate(Inputs));
    if verdict.Fail? {
      return;
    }
    RowPrerequisitesDecided(v, c);
    verdict := ValidateRowPrerequisites(v, c);
    if verdict.Fail? {
      return;
    }
    verdict := ValidateUniqueById(c.stateIdentities, (s: StateIdentity) => s.stateId,
                                  (s: StateIdentity) => ValidateStateIdentity(env, s).Pass?,
                                  Invalid(Syntax), Duplicate(StateIdentities));
    if verdict.Fail? {
      return;
    }
    verdict := ValidateUniqueById(c.prerequisites, (p: Prerequisite) => p.prerequisiteId,
                                  (p: Prerequisite) => ValidatePrerequisite(env, p).Pass?,
                                  Invalid(Syntax), Duplicate(Prerequisites));
    if verdict.Fail? {
      return;
    }
    if c.replay == [] {
      return Fail(Empty(Replay));
    }
    for i := 0 to |c.replay|
      invariant forall j :: 0 <= j < i ==> env.replay(c.replay[j])
    {
      if !env.replay(c.replay[i]) {
        return Fail(Invalid(Syntax));
      }
    }
    verdict := ValidateArtifact(env, c.expectedProjection);
  }

  method ValidateCases(env: Env, m: Manifest) returns (verdict: Verdict<ValidationError>)
    ensures verdict.Pass? <==>
      (forall c :: c in m.cases ==> CaseOk(env, m.verticalId, c)) && NoDuplicates(CaseIds(m.cases))
  {
    hide CaseOk;
    var seen: set<string> := {};
    for i := 0 to |m.cases|
      invariant forall j :: 0 <= j < i ==> CaseOk(env, m.verticalId, m.cases[j])
      invariant forall x :: x in seen <==> exists j :: 0 <= j < i && CaseIds(m.cases)[j] == x
      invariant forall j, k :: 0 <= j < k < i ==> CaseIds(m.cases)[j] != CaseIds(m.cases)[k]
    {
      assert m.cases[i] in m.cases;
      verdict := ValidateCase(env, m.verticalId, m.cases[i]);
      if verdict.Fail? {
        return;
      }
      assert CaseIds(m.cases)[i] == m.cases[i].caseId;
      if m.cases[i].caseId in seen {
        return Fail(Duplicate(CaseId));
      }
      seen := seen + {m.cases[i].caseId};
    }
    return Pass;
  }

  method ValidateManifest(env: Env, m: Manifest) returns (verdict: Verdict<ValidationError>)
    ensures verdict.Pass? <==> ValidManifest(env, m)
  {
    hide CaseOk, NoDuplicates, TextsOk, NegativeOk;
    if m.schema != MANIFEST_SCHEMA_V0 {
      return Fail(Invalid(Schema));
    }
    if m.fixtureClass != m.verticalId.Class() {
      return Fail(Inconsistent(ClassField));
    }
    if !env.gitCommit(m.contractRevision) || m.contractRevision != W1_CONTRACT_REVISION {
      return Fail(Invalid(ContractRevision));
    }
    if m.cases == [] {
      return Fail(Empty(Cases));
    }
    hide HeaderOk;
    assert HeaderOk(env, m) by {
      assert m.cases != [];
    }
    verdict := ValidateCases(env, m);
    if verdict.Fail? {
      return;
    }
    verdict := ValidateUniqueText(env, OmittedClaims, m.omittedClaims);
    if verdict.Fail? {
      return;
    }
    verdict := ValidateUniqueById(m.negativeEvidence, (e: NegativeEvidence) => e.evidenceId,
                                  (e: NegativeEvidence) => ValidateNegativeEvidence(env, e).Pass?,
                                  Invalid(Syntax), Duplicate(NegativeEvidenceId));
    if verdict.Fail? {
      return;
    }
    if m.verticalId.FteHostedFixtureLoopback? && LIVE_HOSTED_PROVIDER_OMISSION !in m.omittedClaims {
      return Fail(Invalid(OmittedClaims));
    }
    if m.verticalId.FteHostedFixtureLoopback? && exists c :: c in m.cases && c.prerequisites != [] {
      return Fail(Invalid(Prerequisites));
    }
    return Pass;
  }
}

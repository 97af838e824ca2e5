/** Binding observations to cases: baselines, later candidates and whole rows. */
module FixtureBaseline {
  import opened Wrappers
  import opened Collections
  import opened FixtureTypes
  import opened FixtureProjection
  import opened FixtureManifest
  import opened FixtureEvidence

  // ---------- durable states of a State row ----------

  /** What a case declares, and an observation reports, about one durable state before the run. */
  datatype StateClaim = StateClaim(stateId: string, schemaId: string, before: Option<ArtifactIdentity>)

  function Declared(s: StateIdentity): StateClaim {
    StateClaim(s.stateId, s.schemaId, Some(s.baseline.identity))
  }

  function Observed(d: DurableStateFact): StateClaim {
    StateClaim(d.stateId, d.schemaId, d.before)
  }

  /** The reported states are the declared ones, each with its baseline, in some order. */
  ghost predicate StatesMatch(c: FixtureCase, p: Projection) {
    Permuted(Map(c.stateIdentities, Declared), Map(p.durableState, Observed))
  }

  function ByStateId(states: seq<StateIdentity>): map<string, StateIdentity> {
    if states == [] then map[]
    else
      var last := states[|states| - 1];
      ByStateId(states[..|states| - 1])[last.stateId := last]
  }

  ghost predicate IndexesStates(index: map<string, StateIdentity>, states: seq<StateIdentity>) {
    && |index| == |states|
    && (forall s :: s in states ==> s.stateId in index && index[s.stateId] == s)
    && (forall id :: id in index ==> index[id] in states && index[id].stateId == id)
  }

  lemma {:induction false} StatesIndexed(states: seq<StateIdentity>)
    requires NoDuplicates(DeclaredStateIds(states))
    ensures IndexesStates(ByStateId(states), states)
  {
    if states != [] {
      var n := |states| - 1;
      var front := states[..n];
      assert states == front + [states[n]];
      assert forall i :: 0 <= i < n ==> DeclaredStateIds(front)[i] == DeclaredStateIds(states)[i];
      StatesIndexed(front);
      forall i | 0 <= i < n
        ensures front[i].stateId != states[n].stateId
      {
        assert DeclaredStateIds(states)[i] != DeclaredStateIds(states)[n];
      }
    }
  }

  lemma StatesMatchDecided(c: FixtureCase, p: Projection)
    requires NoDuplicates(DeclaredStateIds(c.stateIdentities)) && NoDuplicates(StateIds(p.durableState))
    ensures StatesMatch(c, p) <==>
      && |c.stateIdentities| == |p.durableState|
      && forall i :: 0 <= i < |p.durableState| ==> Observed(p.durableState[i]) in Map(c.stateIdentities, Declared)
  {
    var declared := Map(c.stateIdentities, Declared);
    var observed := Map(p.durableState, Observed);
    forall i, j | 0 <= i < j < |declared|
      ensures declared[i] != declared[j]
    {
      assert DeclaredStateIds(c.stateIdentities)[i] != DeclaredStateIds(c.stateIdentities)[j];
    }
    forall i, j | 0 <= i < j < |observed|
      ensures observed[i] != observed[j]
    {
      assert StateIds(p.durableState)[i] != StateIds(p.durableState)[j];
    }
    SubsetOfSameSize(observed, declared);
    assert forall i :: 0 <= i < |observed| ==> observed[i] == Observed(p.durableState[i]);
  }

  lemma DeclaredAt(states: seq<StateIdentity>, index: map<string, StateIdentity>, d: DurableStateFact)
    requires IndexesStates(index, states)
    ensures Observed(d) in Map(states, Declared) <==> d.stateId in index && Declared(index[d.stateId]) == Observed(d)
  {
    if d.stateId in index {
      var i :| 0 <= i < |states| && states[i] == index[d.stateId];
      assert Map(states, Declared)[i] == Declared(index[d.stateId]);
    }
    forall i | 0 <= i < |states| && Map(states, Declared)[i] == Observed(d)
      ensures d.stateId in index && Declared(index[d.stateId]) == Observed(d)
    {
      assert states[i] in states;
    }
  }

  method BindStates(c: FixtureCase, p: Projection) returns (verdict: Verdict<ValidationError>)
    requires NoDuplicates(DeclaredStateIds(c.stateIdentities)) && NoDuplicates(StateIds(p.durableState))
    ensures verdict.Pass? <==> StatesMatch(c, p)
  {
    hide NoDuplicates, DeclaredStateIds, StateIds, StatesMatch;
    var declared := ByStateId(c.stateIdentities);
    StatesIndexed(c.stateIdentities);
    StatesMatchDecided(c, p);
    if |declared| != |p.durableState| {
      return Fail(Inconsistent(DurableState));
    }
    for i := 0 to |p.durableState|
      invariant forall j :: 0 <= j < i ==> Observed(p.durableState[j]) in Map(c.stateIdentities, Declared)
    {
      var state := p.durableState[i];
      DeclaredAt(c.stateIdentities, declared, state);
      if state.stateId !in declared {
        return Fail(Inconsistent(DurableStateId));
      }
      if state.schemaId != declared[state.stateId].schemaId {
        return Fail(Inconsistent(DurableStateSchema));
      }
      if state.before != Some(declared[state.stateId].baseline.identity) {
        return Fail(Inconsistent(DurableStateBefore));
      }
    }
    return Pass;
  }

  // ---------- binding to a case ----------

  ghost predicate BoundToCase(m: Manifest, c: FixtureCase, o: Observation) {
    && o.verticalId == m.verticalId && o.caseId == c.caseId && o.evidence.omittedClaims == m.omittedClaims
    && Permuted(c.prerequisites, o.observedPrerequisites)
    && (m.fixtureClass == FixtureClass.State ==> StatesMatch(c, o.projection))
  }

  /** What the earlier checks of a manifest and an observation leave for the binding. */
  ghost predicate UniquelyNamed(c: FixtureCase, o: Observation) {
    && NoDuplicates(PrerequisiteIds(c.prerequisites)) && NoDuplicates(PrerequisiteIds(o.observedPrerequisites))
    && NoDuplicates(DeclaredStateIds(c.stateIdentities)) && NoDuplicates(StateIds(o.projection.durableState))
  }

  method ValidateCaseBinding(m: Manifest, c: FixtureCase, o: Observation) returns (verdict: Verdict<ValidationError>)
    requires UniquelyNamed(c, o)
    ensures verdict.Pass? <==> BoundToCase(m, c, o)
  {
    hide StatesMatch, BindObservedPrerequisites, Permuted, NoDuplicates, PrerequisiteIds, DeclaredStateIds, StateIds;
    if o.verticalId != m.verticalId {
      return Fail(Inconsistent(VerticalIdField));
    }
    if o.caseId != c.caseId {
      return Fail(Inconsistent(CaseId));
    }
    if o.evidence.omittedClaims != m.omittedClaims {
      return Fail(Inconsistent(OmittedClaims));
    }
    BoundIffPermuted(c, o);
    verdict := BindObservedPrerequisites(c, o);
    if verdict.Fail? {
      return;
    }
    if m.fixtureClass == FixtureClass.State {
      verdict := BindStates(c, o.projection);
    }
  }

  lemma CaseAndObservationAreUniquelyNamed(env: Env, m: Manifest, c: FixtureCase, o: Observation)
    requires ValidManifest(env, m) && ValidObservation(env, o) && c in m.cases
    ensures UniquelyNamed(c, o)
  {
    hide HeaderOk, NoDuplicates, TextsOk, NegativeOk, HostedOk, SourceOk, RowPrerequisitesOk, ArtifactOk;
    hide EventsOk, RowsOk, Bound, OwnershipOk, FactsOk, StateOk, ShowsRetry, FixtureArtifactOk;
    assert CaseOk(env, m.verticalId, c);
  }

  // ---------- the frozen projection ----------

  /** The supplied bytes are the frozen projection, and the observation shows exactly that. */
  predicate ShowsFrozen(env: Env, c: FixtureCase, bytes: Bytes, o: Observation) {
    && Authenticates(env, c.expectedProjection, bytes)
    && env.parseProjection(bytes) == Some(o.projection)
  }

  method CompareProjection(env: Env, c: FixtureCase, bytes: Bytes, o: Observation)
    returns (verdict: Verdict<ValidationError>)
    requires ArtifactOk(env, c.expectedProjection) && ValidProjection(env, o.projection)
    ensures verdict.Pass? <==> ShowsFrozen(env, c, bytes, o)
  {
    hide ValidProjection;
    verdict := VerifyArtifactBytes(env, ExpectedProjection, c.expectedProjection, bytes);
    if verdict.Fail? {
      return;
    }
    var expected := env.parseProjection(bytes);
    if expected.None? {
      return Fail(InvalidProjectionJson);
    }
    verdict := ValidateProjection(env, expected.value);
    if verdict.Fail? {
      return;
    }
    if expected.value != o.projection {
      return Fail(ProjectionMismatch);
    }
  }

  function FindCase(cases: seq<FixtureCase>, caseId: string): (found: Option<FixtureCase>)
    ensures found.Some? ==> found.value in cases && found.value.caseId == caseId
    ensures found.None? ==> forall c :: c in cases ==> c.caseId != caseId
  {
    if cases == [] then None
    else if cases[0].caseId == caseId then Some(cases[0])
    else FindCase(cases[1..], caseId)
  }

  // ---------- baselines and candidates ----------

  ghost predicate BaselineOf(
      env: Env, m: Manifest, c: FixtureCase, bytes: Bytes, tokens: seq<VerifiedPrerequisite>, o: Observation) {
    && BoundToCase(m, c, o)
    && TokensMatch(env, c, tokens)
    && o.implementationRevision == c.source.commit
    && o.evidence.exactSource == c.source.productionTree.digest
    && ShowsFrozen(env, c, bytes, o)
  }

  ghost predicate BaselineAccepted(
      env: Env, m: Manifest, caseId: string, bytes: Bytes, tokens: seq<VerifiedPrerequisite>, o: Observation) {
    && ValidManifest(env, m) && ValidObservation(env, o)
    && exists c :: c in m.cases && c.caseId == caseId && BaselineOf(env, m, c, bytes, tokens, o)
  }

  /** The parts of a candidate's own source that are checked. */
  predicate CandidateSourceOk(env: Env, c: FixtureCase, source: GitSource, tree: Bytes, o: Observation) {
    && SourceOk(env, source) && Authenticates(env, source.productionTree, tree)
    && o.implementationRevision == source.commit && source.repositoryId == c.source.repositoryId
    && o.evidence.exactSource == source.productionTree.digest
  }

  ghost predicate CandidateOf(
      env: Env, m: Manifest, c: FixtureCase, bytes: Bytes, source: GitSource, tree: Bytes,
      tokens: seq<VerifiedPrerequisite>, o: Observation) {
    && BoundToCase(m, c, o)
    && TokensMatch(env, c, tokens)
    && CandidateSourceOk(env, c, source, tree, o)
    && ShowsFrozen(env, c, bytes, o)
  }

  ghost predicate CandidateAccepted(
      env: Env, m: Manifest, caseId: string, bytes: Bytes, source: GitSource, tree: Bytes,
      tokens: seq<VerifiedPrerequisite>, o: Observation) {
    && ValidManifest(env, m) && ValidObservation(env, o)
    && exists c :: c in m.cases && c.caseId == caseId && CandidateOf(env, m, c, bytes, source, tree, tokens, o)
  }

  lemma CaseIsDetermined(env: Env, m: Manifest, c: FixtureCase, d: FixtureCase)
    requires ValidManifest(env, m) && c in m.cases && d in m.cases && c.caseId == d.caseId
    ensures c == d
  {
    hide HeaderOk, CaseOk, TextsOk, NegativeOk, HostedOk;
    var i :| 0 <= i < |m.cases| && m.cases[i] == c;
    var j :| 0 <= j < |m.cases| && m.cases[j] == d;
    assert CaseIds(m.cases)[i] == CaseIds(m.cases)[j];
  }

  lemma CaseArtifactsAreOk(env: Env, m: Manifest, c: FixtureCase, o: Observation)
    requires ValidManifest(env, m) && c in m.cases && ValidObservation(env, o)
    ensures ArtifactOk(env, c.expectedProjection) && ValidProjection(env, o.projection)
  {
    hide HeaderOk, NoDuplicates, TextsOk, NegativeOk, HostedOk, SourceOk, RowPrerequisitesOk, ArtifactOk;
    hide ValidProjection, FixtureArtifactOk, StateIdentityOk, PrerequisiteOk;
    assert CaseOk(env, m.verticalId, c);
  }

  /** The checks common to a baseline and a candidate, up to the evidence tokens. */
  method Admit(env: Env, m: Manifest, caseId: string, tokens: seq<VerifiedPrerequisite>, o: Observation)
    returns (verdict: Verdict<ValidationError>, c: Option<FixtureCase>)
    ensures verdict.Pass? ==>
      && ValidManifest(env, m) && ValidObservation(env, o)
      && c.Some? && c.value in m.cases && c.value.caseId == caseId
      && BoundToCase(m, c.value, o) && TokensMatch(env, c.value, tokens)
    ensures verdict.Fail? ==>
      !(&& ValidManifest(env, m) && ValidObservation(env, o)
        && exists c :: c in m.cases && c.caseId == caseId && BoundToCase(m, c, o) && TokensMatch(env, c, tokens))
  {
    hide ValidManifest, ValidObservation, BoundToCase, TokensMatch, UniquelyNamed;
    c := None;
    verdict := ValidateManifest(env, m);
    if verdict.Fail? {
      return;
    }
    verdict := ValidateObservation(env, o);
    if verdict.Fail? {
      return;
    }
    c := FindCase(m.cases, caseId);
    if c.None? {
      verdict := Fail(MissingCase(caseId));
      return;
    }
    forall d | d in m.cases && d.caseId == caseId
      ensures d == c.value
    {
      CaseIsDetermined(env, m, c.value, d);
    }
    CaseAndObservationAreUniquelyNamed(env, m, c.value, o);
    verdict := ValidateCaseBinding(m, c.value, o);
    if verdict.Fail? {
      return;
    }
    PrerequisitesUnique(c.value, o);
    verdict := AuthenticateExactPrerequisites(env, c.value, tokens);
  }

  lemma PrerequisitesUnique(c: FixtureCase, o: Observation)
    requires UniquelyNamed(c, o)
    ensures NoDuplicates(PrerequisiteIds(c.prerequisites))
  {
  }

  method ValidateBaseline(
      env: Env, m: Manifest, caseId: string, bytes: Bytes, tokens: seq<VerifiedPrerequisite>, o: Observation)
    returns (verdict: Verdict<ValidationError>)
    ensures verdict.Pass? <==> BaselineAccepted(env, m, caseId, bytes, tokens, o)
  {
    hide ValidManifest, ValidObservation, BoundToCase, TokensMatch, ShowsFrozen, ArtifactOk, ValidProjection;
    var c;
    verdict, c := Admit(env, m, caseId, tokens, o);
    if verdict.Fail? {
      return;
    }
    forall d | d in m.cases && d.caseId == caseId
      ensures d == c.value
    {
      CaseIsDetermined(env, m, c.value, d);
    }
    if o.implementationRevision != c.value.source.commit {
      return Fail(Inconsistent(ImplementationRevision));
    }
    if o.evidence.exactSource != c.value.source.productionTree.digest {
      return Fail(Inconsistent(ExactSource));
    }
    CaseArtifactsAreOk(env, m, c.value, o);
    verdict := CompareProjection(env, c.value, bytes, o);
  }

  method CompareCandidate(
      env: Env, m: Manifest, caseId: string, bytes: Bytes, source: GitSource, tree: Bytes,
      tokens: seq<VerifiedPrerequisite>, o: Observation)
    returns (verdict: Verdict<ValidationError>)
    ensures verdict.Pass? <==> CandidateAccepted(env, m, caseId, bytes, source, tree, tokens, o)
  {
    hide ValidManifest, ValidObservation, BoundToCase, TokensMatch;
    hide ShowsFrozen, ArtifactOk, ValidProjection, CandidateSourceOk;
    var c;
    verdict, c := Admit(env, m, caseId, tokens, o);
    if verdict.Fail? {
      return;
    }
    forall d | d in m.cases && d.caseId == caseId
      ensures d == c.value
    {
      CaseIsDetermined(env, m, c.value, d);
    }
    verdict := ValidateCandidateSource(env, c.value, source, tree, o);
    if verdict.Fail? {
      return;
    }
    CaseArtifactsAreOk(env, m, c.value, o);
    verdict := CompareProjection(env, c.value, bytes, o);
  }

  method ValidateCandidateSource(env: Env, c: FixtureCase, source: GitSource, tree: Bytes, o: Observation)
    returns (verdict: Verdict<ValidationError>)
    ensures verdict.Pass? <==> CandidateSourceOk(env, c, source, tree, o)
  {
    verdict := ValidateSource(env, source);
    if verdict.Fail? {
      return;
    }
    verdict := VerifyArtifactBytes(env, CandidateTree, source.productionTree, tree);
    if verdict.Fail? {
      return;
    }
    if o.implementationRevision != source.commit {
      return Fail(Inconsistent(ImplementationRevision));
    }
    if source.repositoryId != c.source.repositoryId {
      return Fail(Inconsistent(CandidateRepository));
    }
    return Require(o.evidence.exactSource == source.productionTree.digest, Inconsistent(ExactSource));
  }

  // ---------- what acceptance guarantees ----------

  lemma StateRowsMatch(m: Manifest, c: FixtureCase, o: Observation)
    requires m.fixtureClass == FixtureClass.State && BoundToCase(m, c, o)
    ensures StatesMatch(c, o.projection)
  {
    hide StatesMatch;
  }

  lemma ReportedIsDeclared(c: FixtureCase, p: Projection, d: DurableStateFact) returns (s: StateIdentity)
    requires StatesMatch(c, p) && d in p.durableState
    ensures s in c.stateIdentities && Observed(d) == Declared(s)
  {
    var declared := Map(c.stateIdentities, Declared);
    var observed := Map(p.durableState, Observed);
    PermutedKeepsBasics(declared, observed);
    hide Declared, Observed, Permuted;
    var i :| 0 <= i < |p.durableState| && p.durableState[i] == d;
    assert observed[i] in Elements(observed);
    var k :| 0 <= k < |declared| && declared[k] == observed[i];
    s := c.stateIdentities[k];
  }

  /** In a State row nothing is created: every reported state existed before, as the declared baseline. */
  lemma StateRowsCreateNothing(env: Env, m: Manifest, c: FixtureCase, o: Observation, d: DurableStateFact)
    requires m.fixtureClass == FixtureClass.State && BoundToCase(m, c, o) && ValidObservation(env, o)
    requires d in o.projection.durableState
    ensures d.disposition != Created
    ensures exists s ::
      && s in c.stateIdentities && s.stateId == d.stateId && s.schemaId == d.schemaId
      && d.before == Some(s.baseline.identity)
  {
    hide ValidObservation, BoundToCase, StatesMatch;
    ReportedTransition(env, o, d);
    StateRowsMatch(m, c, o);
    var s := ReportedIsDeclared(c, o.projection, d);
  }

  lemma ReportedTransition(env: Env, o: Observation, d: DurableStateFact)
    requires ValidObservation(env, o) && d in o.projection.durableState
    ensures TransitionOk(d)
  {
    hide EventsOk, RowsOk, Bound, OwnershipOk;
    hide FactsOk, TransitionOk, PrerequisiteOk, ShowsRetry, NoDuplicates;
    assert StateOk(env, d);
  }

  /** Every declared state is reported, too. */
  lemma EveryDeclaredStateIsReported(m: Manifest, c: FixtureCase, o: Observation, s: StateIdentity)
    requires m.fixtureClass == FixtureClass.State && BoundToCase(m, c, o) && s in c.stateIdentities
    ensures exists d ::
      && d in o.projection.durableState
      && d.stateId == s.stateId && d.schemaId == s.schemaId && d.before == Some(s.baseline.identity)
    ensures |c.stateIdentities| == |o.projection.durableState|
  {
    var declared := Map(c.stateIdentities, Declared);
    var observed := Map(o.projection.durableState, Observed);
    assert Permuted(declared, observed);
    hide BoundToCase;
    PermutedKeepsBasics(declared, observed);
    var i :| 0 <= i < |c.stateIdentities| && c.stateIdentities[i] == s;
    assert declared[i] in Elements(declared);
    var k :| 0 <= k < |observed| && observed[k] == declared[i];
    assert o.projection.durableState[k] in o.projection.durableState;
  }

  /** No two byte strings among these hash alike. */
  predicate Separates(env: Env, one: Bytes, two: Bytes) {
    env.sha256(one) == env.sha256(two) ==> one == two
  }

  /** A case has one projection: whatever is accepted for it, from whichever bytes and revision, shows the same. */
  lemma AcceptedProjectionsAgree(
      env: Env, m: Manifest, caseId: string, bytes: Bytes, tokens: seq<VerifiedPrerequisite>, baseline: Observation,
      laterBytes: Bytes, source: GitSource, tree: Bytes, laterTokens: seq<VerifiedPrerequisite>, candidate: Observation)
    requires BaselineAccepted(env, m, caseId, bytes, tokens, baseline)
    requires CandidateAccepted(env, m, caseId, laterBytes, source, tree, laterTokens, candidate)
    requires Separates(env, bytes, laterBytes)
    ensures baseline.projection == candidate.projection
    ensures Permuted(baseline.observedPrerequisites, candidate.observedPrerequisites)
    ensures Permuted(tokens, laterTokens)
  {
    hide ValidManifest, ValidObservation, StatesMatch, CandidateSourceOk;
    var c :| c in m.cases && c.caseId == caseId && BaselineOf(env, m, c, bytes, tokens, baseline);
    var d :| d in m.cases && d.caseId == caseId
      && CandidateOf(env, m, d, laterBytes, source, tree, laterTokens, candidate);
    CaseIsDetermined(env, m, c, d);
  }

  // ---------- a whole row ----------

  datatype CaseBaseline = CaseBaseline(bytes: Bytes, tokens: seq<VerifiedPrerequisite>, observation: Observation)

  /** The row's complaints; the source gives the first and the last the same field. */
  datatype RowError =
    | ManifestInvalid(error: ValidationError)
    | CountDiffers
    | CaseRepeated
    | CaseUnknown(caseId: string)
    | BaselineInvalid(error: ValidationError)
    | CasesDiffer

  ghost function ObservedCaseIds(cases: seq<CaseBaseline>): seq<string> {
    Map(cases, (c: CaseBaseline) => c.observation.caseId)
  }

  ghost predicate Accepted(env: Env, m: Manifest, c: CaseBaseline) {
    BaselineAccepted(env, m, c.observation.caseId, c.bytes, c.tokens, c.observation)
  }

  ghost predicate RowAccepted(env: Env, m: Manifest, cases: seq<CaseBaseline>) {
    && ValidManifest(env, m)
    && (forall i :: 0 <= i < |cases| ==> Accepted(env, m, cases[i]))
    && Permuted(ObservedCaseIds(cases), CaseIds(m.cases))
  }

  function CaseIdSet(cases: seq<FixtureCase>): set<string> {
    set c | c in cases :: c.caseId
  }

  lemma CaseIdSetIsElements(cases: seq<FixtureCase>)
    ensures CaseIdSet(cases) == Elements(CaseIds(cases))
  {
    forall id | id in Elements(CaseIds(cases))
      ensures id in CaseIdSet(cases)
    {
      var i :| 0 <= i < |cases| && CaseIds(cases)[i] == id;
      assert cases[i] in cases;
    }
    forall id | id in CaseIdSet(cases)
      ensures id in Elements(CaseIds(cases))
    {
      var c :| c in cases && c.caseId == id;
      var i :| 0 <= i < |cases| && cases[i] == c;
      assert CaseIds(cases)[i] == id;
    }
  }

  lemma ManifestCasesDistinct(env: Env, m: Manifest)
    requires ValidManifest(env, m)
    ensures NoDuplicates(CaseIds(m.cases))
  {
    hide HeaderOk, CaseOk, TextsOk, NegativeOk, HostedOk;
  }

  lemma AcceptedRowsAreDistinct(env: Env, m: Manifest, cases: seq<CaseBaseline>)
    requires RowAccepted(env, m, cases)
    ensures NoDuplicates(ObservedCaseIds(cases))
  {
    hide ValidManifest, Accepted;
    ManifestCasesDistinct(env, m);
    PermutedKeepsBasics(ObservedCaseIds(cases), CaseIds(m.cases));
  }

  lemma RepeatedCase(env: Env, m: Manifest, cases: seq<CaseBaseline>)
    requires !NoDuplicates(ObservedCaseIds(cases))
    ensures !RowAccepted(env, m, cases)
  {
    hide RowAccepted, NoDuplicates;
    if RowAccepted(env, m, cases) {
      AcceptedRowsAreDistinct(env, m, cases);
    }
  }

  /** As many distinct known cases as the manifest has are all of them: the last comparison cannot fail. */
  lemma KnownCasesAreAllCases(env: Env, m: Manifest, cases: seq<CaseBaseline>)
    requires ValidManifest(env, m) && |cases| == |m.cases|
    requires NoDuplicates(ObservedCaseIds(cases))
    requires forall i :: 0 <= i < |cases| ==> ObservedCaseIds(cases)[i] in CaseIdSet(m.cases)
    ensures Permuted(ObservedCaseIds(cases), CaseIds(m.cases))
    ensures Elements(ObservedCaseIds(cases)) == CaseIdSet(m.cases)
  {
    hide ValidManifest;
    ManifestCasesDistinct(env, m);
    CaseIdSetIsElements(m.cases);
    SubsetOfSameSize(ObservedCaseIds(cases), CaseIds(m.cases));
    SameMembersPermuted(ObservedCaseIds(cases), CaseIds(m.cases));
  }

  /** Accepts exactly when each case of the manifest has its one accepted baseline; `CasesDiffer` never comes. */
  method ValidateRowBaselines(env: Env, m: Manifest, cases: seq<CaseBaseline>) returns (verdict: Verdict<RowError>)
    ensures verdict.Pass? <==> RowAccepted(env, m, cases)
    ensures verdict.Fail? ==> Explains(env, m, cases, verdict.error)
  {
    hide ValidManifest, Accepted, NoDuplicates, Permuted;
    var valid := ValidateManifest(env, m);
    if valid.Fail? {
      return Fail(ManifestInvalid(valid.error));
    }
    if |cases| != |m.cases| {
      LengthsAgree(env, m, cases);
      return Fail(CountDiffers);
    }
    verdict := ValidateEachBaseline(env, m, cases);
  }

  lemma LengthsAgree(env: Env, m: Manifest, cases: seq<CaseBaseline>)
    ensures RowAccepted(env, m, cases) ==> |cases| == |m.cases|
  {
    hide ValidManifest, Accepted;
    if RowAccepted(env, m, cases) {
      PermutedKeepsBasics(ObservedCaseIds(cases), CaseIds(m.cases));
    }
  }

  method ValidateEachBaseline(env: Env, m: Manifest, cases: seq<CaseBaseline>) returns (verdict: Verdict<RowError>)
    requires ValidManifest(env, m) && |cases| == |m.cases|
    ensures verdict.Pass? <==> RowAccepted(env, m, cases)
    ensures verdict.Fail? ==> Explains(env, m, cases, verdict.error)
  {
    hide ValidManifest, BaselineAccepted, Permuted, NoDuplicates, Collected;
    CaseIdSetIsElements(m.cases);
    var manifestCaseIds := CaseIdSet(m.cases);
    var observedCaseIds: set<string> := {};
    CollectNone(ObservedCaseIds(cases));
    for i := 0 to |cases|
      invariant Collected(observedCaseIds, ObservedCaseIds(cases), i)
      invariant forall j :: 0 <= j < i ==> ObservedCaseIds(cases)[j] in manifestCaseIds
      invariant forall j :: 0 <= j < i ==> Accepted(env, m, cases[j])
    {
      var caseId := cases[i].observation.caseId;
      CollectNext(observedCaseIds, ObservedCaseIds(cases), i);
      if caseId in observedCaseIds {
        RepeatedCase(env, m, cases);
        return Fail(CaseRepeated);
      }
      observedCaseIds := observedCaseIds + {caseId};
      if caseId !in manifestCaseIds {
        UnknownCase(env, m, cases[i]);
        return Fail(CaseUnknown(caseId));
      }
      var baseline := ValidateBaseline(env, m, caseId, cases[i].bytes, cases[i].tokens, cases[i].observation);
      if baseline.Fail? {
        return Fail(BaselineInvalid(baseline.error));
      }
    }
    CollectedAll(observedCaseIds, ObservedCaseIds(cases));
    KnownCasesAreAllCases(env, m, cases);
    verdict := if observedCaseIds != manifestCaseIds then Fail(CasesDiffer) else Pass;
  }

  /** What each complaint tells the caller; `CasesDiffer` has no cause. */
  ghost predicate Explains(env: Env, m: Manifest, cases: seq<CaseBaseline>, error: RowError) {
    match error
    case ManifestInvalid(_) => !ValidManifest(env, m)
    case CountDiffers => |cases| != |m.cases|
    case CaseRepeated => !NoDuplicates(ObservedCaseIds(cases))
    case CaseUnknown(caseId) => caseId !in CaseIds(m.cases) && caseId in ObservedCaseIds(cases)
    case BaselineInvalid(_) => exists i :: 0 <= i < |cases| && !Accepted(env, m, cases[i])
    case CasesDiffer => false
  }

  lemma UnknownCase(env: Env, m: Manifest, c: CaseBaseline)
    requires c.observation.caseId !in CaseIdSet(m.cases)
    ensures !Accepted(env, m, c)
  {
    hide ValidManifest, ValidObservation, BaselineOf;
  }

  /** In an accepted row every case of the manifest has exactly one baseline. */
  lemma EveryCaseHasOneBaseline(env: Env, m: Manifest, cases: seq<CaseBaseline>, c: FixtureCase)
    requires RowAccepted(env, m, cases) && c in m.cases
    ensures exists i :: 0 <= i < |cases| && cases[i].observation.caseId == c.caseId
    ensures forall i, j :: 0 <= i < j < |cases| ==> cases[i].observation.caseId != cases[j].observation.caseId
  {
    hide ValidManifest, Accepted;
    var observed, declared := ObservedCaseIds(cases), CaseIds(m.cases);
    ManifestCasesDistinct(env, m);
    PermutedKeepsBasics(observed, declared);
    forall i, j | 0 <= i < j < |cases|
      ensures cases[i].observation.caseId != cases[j].observation.caseId
    {
      assert observed[i] != observed[j];
    }
    var k :| 0 <= k < |m.cases| && m.cases[k] == c;
    assert declared[k] in Elements(observed);
    var i :| 0 <= i < |cases| && observed[i] == c.caseId;
    assert cases[i].observation.caseId == c.caseId;
  }
}

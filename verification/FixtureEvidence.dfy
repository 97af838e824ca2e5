/** Evidence offered for one case: the observation, streamed artifacts and the tokens they earn. */
module FixtureEvidence {
  import opened Wrappers
  import opened Collections
  import opened FixtureTypes
  import opened FixtureProjection
  import opened FixtureManifest

  // ---------- observations ----------

  /** Nothing runs over the network; a row without a model runs on fixtures, a row with a real one locally. */
  predicate ExecutionOk(v: VerticalId, kind: ExecutionKind) {
    && kind != HostedNetwork
    && (v.Class() == ModelFree ==> kind == Fixture)
    && (v.Class() == Real ==> kind == LocalExecution)
  }

  function ValidateExecution(v: VerticalId, kind: ExecutionKind): (verdict: Verdict<ValidationError>)
    ensures verdict.Pass? <==> ExecutionOk(v, kind)
  {
    match (v.Class(), kind)
    case (ModelFree, Fixture) => Pass
    case (Real, LocalExecution) => Pass
    case (State, Fixture) => Pass
    case (State, LocalExecution) => Pass
    case _ => Fail(Inconsistent(ExecutionKindField))
  }

  ghost predicate ValidObservation(env: Env, o: Observation) {
    && o.schema == "delysis.vertical_observation.v0" && env.safeId(o.caseId) && env.gitCommit(o.implementationRevision)
    && (forall p :: p in o.observedPrerequisites ==> PrerequisiteOk(env, p))
    && NoDuplicates(PrerequisiteIds(o.observedPrerequisites))
    && env.claim(o.evidence) && o.evidence.negativeEvidence == []
    && (o.evidence.tier == Operational || o.evidence.tier == Reproducible)
    && ExecutionOk(o.verticalId, o.evidence.executionKind)
    && ValidProjection(env, o.projection)
    && (o.verticalId == LoomSuggestionPromotion ==> env.loomFacts(o.projection.outputFacts))
    && (o.verticalId == MomChatCancelRetry ==> ShowsRetry(o.projection))
  }

  method ValidateObservation(env: Env, o: Observation) returns (verdict: Verdict<ValidationError>)
    ensures verdict.Pass? <==> ValidObservation(env, o)
  {
    hide ValidProjection, PrerequisiteOk, NoDuplicates, ValidateMomChatRetry, ShowsRetry;
    if o.schema != OBSERVATION_SCHEMA_V0 {
      return Fail(Invalid(Schema));
    }
    if !env.safeId(o.caseId) || !env.gitCommit(o.implementationRevision) {
      return Fail(Invalid(Syntax));
    }
    verdict := ValidateUniqueById(o.observedPrerequisites, (p: Prerequisite) => p.prerequisiteId,
                                  (p: Prerequisite) => ValidatePrerequisite(env, p).Pass?,
                                  Invalid(Syntax), Duplicate(ObservedPrerequisites));
    if verdict.Fail? {
      return;
    }
    if !env.claim(o.evidence) || o.evidence.negativeEvidence != [] {
      return Fail(Invalid(Evidence));
    }
    if o.evidence.tier != Operational && o.evidence.tier != Reproducible {
      return Fail(Invalid(EvidenceTierField));
    }
    verdict := ValidateExecution(o.verticalId, o.evidence.executionKind);
    if verdict.Fail? {
      return;
    }
    verdict := ValidateProjection(env, o.projection);
    if verdict.Fail? {
      return;
    }
    if o.verticalId == LoomSuggestionPromotion && !env.loomFacts(o.projection.outputFacts) {
      return Fail(Invalid(LoomFacts));
    }
    if o.verticalId == MomChatCancelRetry {
      RetryAcceptsIffRetried(env, o.projection);
      verdict := ValidateMomChatRetry(o.projection);
    }
  }

  // ---------- observed prerequisites ----------

  /** Later entries of the same name win. */
  function ByPrerequisiteId(prerequisites: seq<Prerequisite>): map<string, Prerequisite> {
    if prerequisites == [] then map[]
    else
      var last := prerequisites[|prerequisites| - 1];
      ByPrerequisiteId(prerequisites[..|prerequisites| - 1])[last.prerequisiteId := last]
  }

  function BindObservedPrerequisites(c: FixtureCase, o: Observation): Verdict<ValidationError> {
    var observed := ByPrerequisiteId(o.observedPrerequisites);
    Require(
      && |c.prerequisites| == |o.observedPrerequisites|
      && forall p :: p in c.prerequisites ==> p.prerequisiteId in observed && observed[p.prerequisiteId] == p,
      Inconsistent(ObservedPrerequisites))
  }

  lemma {:induction false} LookupInUnique(prerequisites: seq<Prerequisite>, p: Prerequisite)
    requires NoDuplicates(PrerequisiteIds(prerequisites))
    ensures var found := ByPrerequisiteId(prerequisites);
      p in prerequisites <==> p.prerequisiteId in found && found[p.prerequisiteId] == p
  {
    if prerequisites != [] {
      var n := |prerequisites| - 1;
      var front := prerequisites[..n];
      assert prerequisites == front + [prerequisites[n]];
      assert forall i :: 0 <= i < n ==> PrerequisiteIds(front)[i] == PrerequisiteIds(prerequisites)[i];
      LookupInUnique(front, p);
      forall i | 0 <= i < n
        ensures front[i].prerequisiteId != prerequisites[n].prerequisiteId
      {
        assert PrerequisiteIds(prerequisites)[i] != PrerequisiteIds(prerequisites)[n];
      }
    }
  }

  lemma IdsDistinctMeansDistinct(prerequisites: seq<Prerequisite>)
    requires NoDuplicates(PrerequisiteIds(prerequisites))
    ensures NoDuplicates(prerequisites)
  {
    forall i, j | 0 <= i < j < |prerequisites|
      ensures prerequisites[i] != prerequisites[j]
    {
      assert PrerequisiteIds(prerequisites)[i] != PrerequisiteIds(prerequisites)[j];
    }
  }

  /** Same length and every expected one found: the observed prerequisites are the case's, in some order. */
  lemma BoundIffPermuted(c: FixtureCase, o: Observation)
    requires NoDuplicates(PrerequisiteIds(c.prerequisites)) && NoDuplicates(PrerequisiteIds(o.observedPrerequisites))
    ensures BindObservedPrerequisites(c, o).Pass? <==> Permuted(c.prerequisites, o.observedPrerequisites)
  {
    hide ByPrerequisiteId, PrerequisiteIds;
    var expected, observed := c.prerequisites, o.observedPrerequisites;
    forall p: Prerequisite
      ensures p in observed <==>
        p.prerequisiteId in ByPrerequisiteId(observed) && ByPrerequisiteId(observed)[p.prerequisiteId] == p
    {
      LookupInUnique(observed, p);
    }
    IdsDistinctMeansDistinct(expected);
    IdsDistinctMeansDistinct(observed);
    SubsetOfSameSize(expected, observed);
  }

  /** Distinct lists of one length, one inside the other, are reorderings; and reorderings are that. */
  lemma SubsetOfSameSize<T(!new)>(a: seq<T>, b: seq<T>)
    requires NoDuplicates(a) && NoDuplicates(b)
    ensures Permuted(a, b) <==> |a| == |b| && forall x :: x in a ==> x in b
  {
    SameMembersPermuted(a, b);
    ElementsCount(a);
    ElementsCount(b);
    if |a| == |b| && forall x :: x in a ==> x in b {
      Pigeonhole(a, Elements(b));
    }
    if Permuted(a, b) {
      PermutedKeepsBasics(a, b);
      assert forall x :: x in a ==> x in Elements(a);
    }
  }

  // ---------- streamed artifacts ----------

  datatype VerifiedPrerequisite = VerifiedPrerequisite(prerequisiteId: string, identity: ArtifactIdentity)

  function Joined(chunks: seq<Bytes>): Bytes {
    if chunks == [] then [] else Joined(chunks[..|chunks| - 1]) + chunks[|chunks| - 1]
  }

  lemma {:induction false} JoinedInTwo(one: seq<Bytes>, two: seq<Bytes>)
    ensures Joined(one + two) == Joined(one) + Joined(two)
  {
    if two == [] {
      assert one + two == one;
    } else {
      var n := |two| - 1;
      assert (one + two)[..|one| + n] == one + two[..n];
      JoinedInTwo(one, two[..n]);
    }
  }

  lemma JoinedOne(chunk: Bytes)
    ensures Joined([chunk]) == chunk
  {
    assert Joined([chunk][..0]) == [];
  }

  /** What the whole artifact earns: a token naming the prerequisite, or the fault. */
  function TokenFor(env: Env, id: string, identity: ArtifactIdentity, whole: Bytes)
    : Result<VerifiedPrerequisite, ValidationError>
  {
    if !env.safeId(id) || !ArtifactOk(env, identity) then Err(Invalid(Syntax))
    else if |whole| > U64_MAX then Err(Invalid(PrerequisiteChunks))
    else if identity.length != |whole| then Err(LengthMismatch(PrerequisiteChunks))
    else if identity.digest.hex != env.sha256(whole) then Err(DigestMismatch(PrerequisiteChunks))
    else Ok(VerifiedPrerequisite(id, identity))
  }

  /** The streamed check sees nothing but the bytes in order: the verdict is that of the whole artifact. */
  method VerifyPrerequisiteChunks(env: Env, id: string, identity: ArtifactIdentity, chunks: seq<Bytes>)
    returns (token: Result<VerifiedPrerequisite, ValidationError>)
    ensures token == TokenFor(env, id, identity, Joined(chunks))
  {
    if !env.safeId(id) || ValidateArtifact(env, identity).Fail? {
      return Err(Invalid(Syntax));
    }
    var digested: Bytes := [];
    var length := 0;
    for i := 0 to |chunks|
      invariant digested == Joined(chunks[..i])
      invariant length == |digested| <= U64_MAX
    {
      assert chunks[..i + 1][..i] == chunks[..i];
      assert chunks == chunks[..i + 1] + chunks[i + 1..];
      JoinedInTwo(chunks[..i + 1], chunks[i + 1..]);
      if length + |chunks[i]| > U64_MAX {
        return Err(Invalid(PrerequisiteChunks));
      }
      length := length + |chunks[i]|;
      digested := digested + chunks[i];
    }
    assert chunks[..|chunks|] == chunks;
    if identity.length != length {
      return Err(LengthMismatch(PrerequisiteChunks));
    }
    if identity.digest.hex != env.sha256(digested) {
      return Err(DigestMismatch(PrerequisiteChunks));
    }
    return Ok(VerifiedPrerequisite(id, identity));
  }

  /** Cutting a chunk in two, or slipping in empty ones, changes nothing. */
  lemma CutsAreInvisible(before: seq<Bytes>, one: Bytes, two: Bytes, after: seq<Bytes>)
    ensures Joined(before + [one, two] + after) == Joined(before + [one + two] + after)
    ensures Joined(before + [[]] + after) == Joined(before + after)
  {
    JoinedInTwo(before + [one, two], after);
    JoinedInTwo(before, [one, two]);
    assert [one, two] == [one] + [two];
    JoinedInTwo([one], [two]);
    JoinedOne(one);
    JoinedOne(two);
    JoinedInTwo(before + [one + two], after);
    JoinedInTwo(before, [one + two]);
    JoinedOne(one + two);
    JoinedInTwo(before + [[]], after);
    JoinedInTwo(before, [[]]);
    JoinedOne([]);
    JoinedInTwo(before, after);
  }

  /**
   A token is earned exactly by a well-formed declaration and bytes that have its length, a 64-bit number, and its
   hash; it then names that prerequisite and that identity.
   */
  lemma TokenMeansAuthentic(env: Env, id: string, identity: ArtifactIdentity, whole: Bytes)
    ensures TokenFor(env, id, identity, whole).Ok? <==>
      && env.safeId(id) && ArtifactOk(env, identity)
      && |whole| <= 0xFFFF_FFFF_FFFF_FFFF && |whole| == identity.length && env.sha256(whole) == identity.digest.hex
    ensures var token := TokenFor(env, id, identity, whole);
      token.Ok? ==> token.value.prerequisiteId == id && token.value.identity == identity
    ensures env.safeId(id) && identity.length <= U64_MAX ==>
      (TokenFor(env, id, identity, whole).Ok? <==>
        VerifyArtifactBytes(env, PrerequisiteChunks, identity, whole).Pass?)
  {
  }

  // ---------- tokens ----------

  ghost function TokenIds(tokens: seq<VerifiedPrerequisite>): seq<string> {
    Map(tokens, (t: VerifiedPrerequisite) => t.prerequisiteId)
  }

  function Token(p: Prerequisite): VerifiedPrerequisite {
    VerifiedPrerequisite(p.prerequisiteId, p.identity)
  }

  function ExactExternal(prerequisites: seq<Prerequisite>): (exact: seq<Prerequisite>)
    ensures |exact| <= |prerequisites|
  {
    if prerequisites == [] then []
    else
      (if prerequisites[0].kind == ExactExternalArtifact then [prerequisites[0]] else [])
      + ExactExternal(prerequisites[1..])
  }

  lemma {:induction false} ExactExternalMembers(prerequisites: seq<Prerequisite>, p: Prerequisite)
    ensures p in ExactExternal(prerequisites) <==> p in prerequisites && p.kind == ExactExternalArtifact
  {
    if prerequisites != [] {
      assert prerequisites == [prerequisites[0]] + prerequisites[1..];
      ExactExternalMembers(prerequisites[1..], p);
    }
  }

  lemma {:induction false} ExactExternalIdsDistinct(prerequisites: seq<Prerequisite>)
    requires NoDuplicates(PrerequisiteIds(prerequisites))
    ensures NoDuplicates(PrerequisiteIds(ExactExternal(prerequisites)))
  {
    if prerequisites != [] {
      var rest := prerequisites[1..];
      assert forall i :: 0 <= i < |rest| ==> PrerequisiteIds(rest)[i] == PrerequisiteIds(prerequisites)[i + 1];
      ExactExternalIdsDistinct(rest);
      var exact := ExactExternal(rest);
      forall i | 0 <= i < |exact|
        ensures exact[i].prerequisiteId != prerequisites[0].prerequisiteId
      {
        ExactExternalMembers(rest, exact[i]);
        var j :| 0 <= j < |rest| && rest[j] == exact[i];
        assert PrerequisiteIds(prerequisites)[j + 1] != PrerequisiteIds(prerequisites)[0];
      }
    }
  }

  /** The tokens are those of the exact-external prerequisites, one each, in some order. */
  ghost predicate TokensMatch(env: Env, c: FixtureCase, tokens: seq<VerifiedPrerequisite>) {
    && (forall t :: t in tokens ==> env.safeId(t.prerequisiteId))
    && NoDuplicates(TokenIds(tokens))
    && Permuted(Map(ExactExternal(c.prerequisites), Token), tokens)
  }

  ghost predicate Supplies(supplied: map<string, ArtifactIdentity>, tokens: seq<VerifiedPrerequisite>) {
    && |supplied| == |tokens|
    && (forall t :: t in tokens ==> t.prerequisiteId in supplied && supplied[t.prerequisiteId] == t.identity)
    && (forall id :: id in supplied ==> VerifiedPrerequisite(id, supplied[id]) in tokens)
  }

  lemma SupplyOneMore(
      supplied: map<string, ArtifactIdentity>, tokens: seq<VerifiedPrerequisite>, t: VerifiedPrerequisite)
    requires Supplies(supplied, tokens) && t.prerequisiteId !in supplied
    ensures Supplies(supplied[t.prerequisiteId := t.identity], tokens + [t])
  {
  }

  lemma RepeatedToken(supplied: map<string, ArtifactIdentity>, tokens: seq<VerifiedPrerequisite>, i: nat)
    requires i < |tokens| && Supplies(supplied, tokens[..i]) && tokens[i].prerequisiteId in supplied
    ensures !NoDuplicates(TokenIds(tokens))
  {
    var t := VerifiedPrerequisite(tokens[i].prerequisiteId, supplied[tokens[i].prerequisiteId]);
    var j :| 0 <= j < i && tokens[..i][j] == t;
    assert TokenIds(tokens)[j] == TokenIds(tokens)[i];
  }

  lemma FreshToken(supplied: map<string, ArtifactIdentity>, tokens: seq<VerifiedPrerequisite>, t: VerifiedPrerequisite)
    requires Supplies(supplied, tokens) && NoDuplicates(TokenIds(tokens)) && t.prerequisiteId !in supplied
    ensures NoDuplicates(TokenIds(tokens + [t]))
  {
    assert TokenIds(tokens + [t]) == TokenIds(tokens) + [t.prerequisiteId];
    assert forall j :: 0 <= j < |tokens| ==> tokens[j] in tokens && TokenIds(tokens)[j] == tokens[j].prerequisiteId;
  }

  method CollectTokens(env: Env, tokens: seq<VerifiedPrerequisite>)
    returns (verdict: Verdict<ValidationError>, supplied: map<string, ArtifactIdentity>)
    ensures verdict.Pass? <==>
      (forall t :: t in tokens ==> env.safeId(t.prerequisiteId)) && NoDuplicates(TokenIds(tokens))
    ensures verdict.Pass? ==> Supplies(supplied, tokens)
  {
    hide NoDuplicates, TokenIds, Supplies;
    supplied := map[];
    NoTokens();
    for i := 0 to |tokens|
      invariant Supplies(supplied, tokens[..i])
      invariant forall j :: 0 <= j < i ==> env.safeId(tokens[j].prerequisiteId)
      invariant NoDuplicates(TokenIds(tokens[..i]))
    {
      var token := tokens[i];
      assert token in tokens;
      if !env.safeId(token.prerequisiteId) {
        return Fail(Invalid(Syntax)), supplied;
      }
      if token.prerequisiteId in supplied {
        RepeatedToken(supplied, tokens, i);
        return Fail(Duplicate(VerifiedPrerequisiteId)), supplied;
      }
      FreshToken(supplied, tokens[..i], token);
      SupplyOneMore(supplied, tokens[..i], token);
      assert tokens[..i + 1] == tokens[..i] + [token];
      supplied := supplied[token.prerequisiteId := token.identity];
    }
    assert tokens[..|tokens|] == tokens;
    verdict := Pass;
  }

  lemma NoTokens()
    ensures Supplies(map[], []) && NoDuplicates(TokenIds([]))
  {
  }

  method AuthenticateExactPrerequisites(env: Env, c: FixtureCase, tokens: seq<VerifiedPrerequisite>)
    returns (verdict: Verdict<ValidationError>)
    requires NoDuplicates(PrerequisiteIds(c.prerequisites))
    ensures verdict.Pass? <==> TokensMatch(env, c, tokens)
  {
    hide NoDuplicates, TokenIds, PrerequisiteIds;
    var supplied;
    verdict, supplied := CollectTokens(env, tokens);
    if verdict.Fail? {
      return;
    }
    var exact := ExactExternal(c.prerequisites);
    TokensMatchDecided(c, tokens);
    if |exact| != |supplied| {
      return Fail(Inconsistent(VerifiedPrerequisites));
    }
    for i := 0 to |exact|
      invariant forall j :: 0 <= j < i ==> Token(exact[j]) in tokens
    {
      if exact[i].prerequisiteId !in supplied || supplied[exact[i].prerequisiteId] != exact[i].identity {
        assert Token(exact[i]) !in tokens;
        return Fail(Inconsistent(VerifiedPrerequisites));
      }
      assert Token(exact[i]) in tokens;
    }
    return Pass;
  }

  lemma TokensMatchDecided(c: FixtureCase, tokens: seq<VerifiedPrerequisite>)
    requires NoDuplicates(PrerequisiteIds(c.prerequisites)) && NoDuplicates(TokenIds(tokens))
    ensures var exact := ExactExternal(c.prerequisites);
      Permuted(Map(exact, Token), tokens) <==>
        |exact| == |tokens| && forall i :: 0 <= i < |exact| ==> Token(exact[i]) in tokens
  {
    var exact := ExactExternal(c.prerequisites);
    ExactExternalIdsDistinct(c.prerequisites);
    forall i, j | 0 <= i < j < |exact|
      ensures Token(exact[i]) != Token(exact[j])
    {
      assert PrerequisiteIds(exact)[i] != PrerequisiteIds(exact)[j];
    }
    forall i, j | 0 <= i < j < |tokens|
      ensures tokens[i] != tokens[j]
    {
      assert TokenIds(tokens)[i] != TokenIds(tokens)[j];
    }
    SubsetOfSameSize(Map(exact, Token), tokens);
    assert forall i :: 0 <= i < |exact| ==> Map(exact, Token)[i] == Token(exact[i]);
  }

  /** An accepted set of tokens names every exact-external prerequisite of the case and nothing else. */
  lemma TokensBiject(env: Env, c: FixtureCase, tokens: seq<VerifiedPrerequisite>, t: VerifiedPrerequisite)
    requires TokensMatch(env, c, tokens)
    ensures |tokens| == |ExactExternal(c.prerequisites)|
    ensures t in tokens <==>
      exists p ::
        && p in c.prerequisites && p.kind == ExactExternalArtifact
        && p.prerequisiteId == t.prerequisiteId && p.identity == t.identity
  {
    hide NoDuplicates, TokenIds;
    var exact := ExactExternal(c.prerequisites);
    var wanted := Map(exact, Token);
    PermutedKeepsBasics(wanted, tokens);
    assert t in tokens <==> t in Elements(tokens);
    assert t in wanted <==> t in Elements(wanted);
    if t in wanted {
      var i :| 0 <= i < |exact| && wanted[i] == t;
      ExactExternalMembers(c.prerequisites, exact[i]);
    }
    forall p | p in c.prerequisites && p.kind == ExactExternalArtifact && Token(p) == t
      ensures t in wanted
    {
      ExactExternalMembers(c.prerequisites, p);
      var i :| 0 <= i < |exact| && exact[i] == p;
      assert wanted[i] == t;
    }
  }
}

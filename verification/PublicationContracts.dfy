/** Publication envelopes and their validators. Strings are byte strings: one character is one byte. */
module PublicationContracts {
  import opened Wrappers

  datatype ContractError =
    | Empty(field: string)
    | TooLong(field: string, max: nat)
    | Invalid(field: string)
    | Duplicate(field: string)
    | Inconsistent(field: string)

  function ValidateNonemptyBounded(field: string, value: string, max: nat): Verdict<ContractError> {
    if value == "" then Fail(Empty(field))
    else if |value| > max then Fail(TooLong(field, max))
    else Pass
  }

  datatype DigestAlgorithm = Sha256

  datatype ContentDigest = ContentDigest(algorithm: DigestAlgorithm, hex: string)
  {
    predicate Valid() {
      |hex| == 64 && forall i :: 0 <= i < |hex| ==> '0' <= hex[i] <= '9' || 'a' <= hex[i] <= 'f'
    }
  }

  datatype ArtifactIdentity = ArtifactIdentity(id: string, digest: ContentDigest, length: nat)
  {
    function Validate(): Verdict<ContractError> {
      var named := ValidateNonemptyBounded("artifact.id", id, 256);
      if named.Fail? then named
      else if !digest.Valid() then Fail(Invalid("artifact.digest"))
      else Pass
    }
  }

  datatype DestinationIdentity = DestinationIdentity(filesystemId: string, pathId: string)
  {
    function Validate(): Verdict<ContractError> {
      var filesystem := ValidateNonemptyBounded("destination.filesystem_id", filesystemId, 512);
      if filesystem.Fail? then filesystem
      else ValidateNonemptyBounded("destination.path_id", pathId, 1024)
    }
  }

  datatype ErrorClass =
    | InvalidRequest | Unsupported | Unavailable | Permission | Privacy | Cancelled | Timeout
    | ResourceExhausted | Integrity | Publication | Storage | Worker | Internal

  datatype RetryAdvice = Immediate | AfterUserAction | AfterRestart | DifferentRoute | Never

  const SERVICE_ERROR_SCHEMA_V0 := "delysis.service_error.v0"
  const PUBLICATION_RECEIPT_SCHEMA_V0 := "delysis.publication_receipt.v0"

  predicate IsCodeByte(c: char) {
    'a' <= c <= 'z' || '0' <= c <= '9' || c == '_'
  }

  /** A dot separates two parts; anything else is a code byte. */
  predicate CodeAt(code: string, i: nat)
    requires i < |code|
  {
    if code[i] == '.' then 0 < i < |code| - 1 && code[i - 1] != '.' else IsCodeByte(code[i])
  }

  /** Dot-separated parts, none empty, of lower-case letters, digits and underscores. */
  predicate ValidCode(code: string) {
    code != "" && forall i: nat :: i < |code| ==> CodeAt(code, i)
  }

  predicate IsCodePart(part: string) {
    part != "" && forall c :: c in part ==> IsCodeByte(c)
  }

  lemma TwoPartsMakeACode(a: string, b: string)
    requires IsCodePart(a) && IsCodePart(b)
    ensures ValidCode(a + "." + b)
  {
    forall i: nat | i < |a + "." + b|
      ensures CodeAt(a + "." + b, i)
    {
      if i < |a| {
        assert a[i] in a;
      } else if i == |a| {
        assert a[i - 1] in a;
      } else {
        assert b[i - |a| - 1] in b;
      }
    }
  }

  /** The first dot at or after `i`, or the end. */
  function NextDot(code: string, i: nat): (d: nat)
    requires i <= |code|
    ensures i <= d <= |code| && (d < |code| ==> code[d] == '.')
    ensures forall k :: i <= k < d ==> code[k] != '.'
    decreases |code| - i
  {
    if i == |code| || code[i] == '.' then i else NextDot(code, i + 1)
  }

  /** The parts between the dots; there is always one. */
  function Parts(code: string): (parts: seq<string>)
    ensures parts != []
    decreases |code|
  {
    var d := NextDot(code, 0);
    if d == |code| then [code] else [code[..d]] + Parts(code[d + 1..])
  }

  lemma OnePartIsCode(code: string)
    requires NextDot(code, 0) == |code|
    ensures ValidCode(code) <==> IsCodePart(code)
  {
    if ValidCode(code) {
      forall c | c in code
        ensures IsCodeByte(c)
      {
        var i :| 0 <= i < |code| && code[i] == c;
        assert CodeAt(code, i);
      }
    } else if IsCodePart(code) {
      forall i: nat | i < |code|
        ensures CodeAt(code, i)
      {
        assert code[i] in code;
      }
    }
  }

  lemma FirstPartOfCode(code: string)
    requires NextDot(code, 0) < |code|
    ensures var d := NextDot(code, 0); ValidCode(code) <==> IsCodePart(code[..d]) && ValidCode(code[d + 1..])
  {
    hide ValidCode, IsCodePart;
    if ValidCode(code) {
      FirstPartIsCode(code);
      RestIsCode(code);
    } else if IsCodePart(code[..NextDot(code, 0)]) && ValidCode(code[NextDot(code, 0) + 1..]) {
      CodeOfParts(code);
    }
  }

  lemma CodeOfParts(code: string)
    requires NextDot(code, 0) < |code|
    requires var d := NextDot(code, 0); IsCodePart(code[..d]) && ValidCode(code[d + 1..])
    ensures ValidCode(code)
  {
    forall i: nat | i < |code|
      ensures CodeAt(code, i)
    {
      CodeFromParts(code, i);
    }
  }

  lemma FirstPartIsCode(code: string)
    requires NextDot(code, 0) < |code| && ValidCode(code)
    ensures IsCodePart(code[..NextDot(code, 0)])
  {
    var d := NextDot(code, 0);
    assert CodeAt(code, d);
    forall c | c in code[..d]
      ensures IsCodeByte(c)
    {
      var i :| 0 <= i < d && code[i] == c;
      assert CodeAt(code, i);
    }
  }

  lemma RestIsCode(code: string)
    requires NextDot(code, 0) < |code| && ValidCode(code)
    ensures ValidCode(code[NextDot(code, 0) + 1..])
  {
    var d := NextDot(code, 0);
    var rest := code[d + 1..];
    assert CodeAt(code, d);
    forall i: nat | i < |rest|
      ensures CodeAt(rest, i)
    {
      assert CodeAt(code, d + 1 + i);
    }
  }

  lemma CodeFromParts(code: string, i: nat)
    requires NextDot(code, 0) < |code| && i < |code|
    requires var d := NextDot(code, 0); IsCodePart(code[..d]) && ValidCode(code[d + 1..])
    ensures CodeAt(code, i)
  {
    var d := NextDot(code, 0);
    if i < d {
      assert code[..d][i] in code[..d];
    } else if i == d {
      assert code[..d][d - 1] in code[..d];
    } else {
      assert CodeAt(code[d + 1..], i - d - 1);
      if i == d + 1 {
        assert code[i] != '.';
      }
    }
  }

  /** A code is valid exactly when each of its dot-separated parts is a nonempty run of code bytes. */
  lemma {:induction false} ValidCodeIffEveryPart(code: string)
    ensures ValidCode(code) <==> forall part :: part in Parts(code) ==> IsCodePart(part)
    decreases |code|
  {
    var d := NextDot(code, 0);
    if d == |code| {
      OnePartIsCode(code);
    } else {
      FirstPartOfCode(code);
      ValidCodeIffEveryPart(code[d + 1..]);
      hide ValidCode, IsCodePart;
      assert Parts(code) == [code[..d]] + Parts(code[d + 1..]);
    }
  }

  datatype ServiceError = ServiceError(
    schema: string,
    code: string,
    errorClass: ErrorClass,
    retry: RetryAdvice,
    operationId: Option<string>,
    service: string,
    safeDetail: string)
  {
    function Validate(): Verdict<ContractError> {
      if schema != SERVICE_ERROR_SCHEMA_V0 then Fail(Invalid("schema"))
      else
        var bounded := ValidateNonemptyBounded("code", code, 128);
        if bounded.Fail? then bounded
        else if !ValidCode(code) then Fail(Invalid("code"))
        else ValidateNonemptyBounded("safe_detail", safeDetail, 2048)
    }
  }

  datatype PublicationReceipt = PublicationReceipt(
    schema: string,
    artifact: ArtifactIdentity,
    destination: DestinationIdentity,
    visible: bool,
    fileSynced: bool,
    directorySynced: bool,
    idempotentRecovery: bool)
  {
    function Validate(): Verdict<ContractError> {
      if schema != PUBLICATION_RECEIPT_SCHEMA_V0 then Fail(Invalid("schema"))
      else if artifact.Validate().Fail? then artifact.Validate()
      else if destination.Validate().Fail? then destination.Validate()
      else if !visible then Fail(Invalid("visible"))
      else if directorySynced && !fileSynced then Fail(Inconsistent("directory_synced"))
      else Pass
    }
  }

  datatype PublicationOutcome =
    | NotPublished(error: ServiceError)
    | Published(receipt: PublicationReceipt)
    | PublishedDurabilityUnknown(receipt: PublicationReceipt, error: ServiceError)
  {
    function Validate(): Verdict<ContractError> {
      match this
      case NotPublished(error) => error.Validate()
      case Published(receipt) =>
        if receipt.Validate().Fail? then receipt.Validate()
        else if !receipt.fileSynced || !receipt.directorySynced then Fail(Inconsistent("published.receipt"))
        else Pass
      case PublishedDurabilityUnknown(receipt, error) =>
        if receipt.Validate().Fail? then receipt.Validate()
        else if error.Validate().Fail? then error.Validate()
        else if receipt.directorySynced then Fail(Inconsistent("published_durability_unknown.receipt"))
        else if error.errorClass != Publication then Fail(Inconsistent("published_durability_unknown.error"))
        else Pass
    }
  }

  // ---------- what the validators accept, field by field ----------

  predicate DigestAccepted(digest: ContentDigest) {
    && |digest.hex| == 64
    && forall c :: c in digest.hex ==> '0' <= c <= '9' || 'a' <= c <= 'f'
  }

  predicate ArtifactAccepted(artifact: ArtifactIdentity) {
    1 <= |artifact.id| <= 256 && DigestAccepted(artifact.digest)
  }

  predicate DestinationAccepted(destination: DestinationIdentity) {
    1 <= |destination.filesystemId| <= 512 && 1 <= |destination.pathId| <= 1024
  }

  /** A part of an error code. */
  predicate CodePartAccepted(part: string) {
    part != "" && forall c :: c in part ==> c == '_' || '0' <= c <= '9' || 'a' <= c <= 'z'
  }

  predicate ErrorAccepted(error: ServiceError) {
    && error.schema == "delysis.service_error.v0"
    && 1 <= |error.code| <= 128
    && (forall part :: part in Parts(error.code) ==> CodePartAccepted(part))
    && 1 <= |error.safeDetail| <= 2048
  }

  predicate ReceiptAccepted(receipt: PublicationReceipt) {
    && receipt.schema == "delysis.publication_receipt.v0"
    && ArtifactAccepted(receipt.artifact) && DestinationAccepted(receipt.destination)
    && receipt.visible && (receipt.directorySynced ==> receipt.fileSynced)
  }

  /** Published means both syncs; visible but unsure means the directory is unsynced and the error is of that class. */
  predicate OutcomeAccepted(outcome: PublicationOutcome) {
    match outcome
    case NotPublished(error) => ErrorAccepted(error)
    case Published(receipt) => ReceiptAccepted(receipt) && receipt.fileSynced && receipt.directorySynced
    case PublishedDurabilityUnknown(receipt, error) =>
      && ReceiptAccepted(receipt) && ErrorAccepted(error)
      && !receipt.directorySynced && error.errorClass == ErrorClass.Publication
  }

  lemma DigestValidIff(digest: ContentDigest)
    ensures digest.Valid() <==> DigestAccepted(digest)
  {
    if DigestAccepted(digest) {
      assert forall i :: 0 <= i < |digest.hex| ==> digest.hex[i] in digest.hex;
    }
  }

  lemma ArtifactValidIff(artifact: ArtifactIdentity)
    ensures artifact.Validate().Pass? <==> ArtifactAccepted(artifact)
  {
    hide DigestAccepted, ContentDigest.Valid;
    DigestValidIff(artifact.digest);
  }

  lemma DestinationValidIff(destination: DestinationIdentity)
    ensures destination.Validate().Pass? <==> DestinationAccepted(destination)
  {
  }

  lemma CodePartIff(part: string)
    ensures IsCodePart(part) <==> CodePartAccepted(part)
  {
  }

  lemma CodeValidIff(code: string)
    ensures ValidCode(code) <==> forall part :: part in Parts(code) ==> CodePartAccepted(part)
  {
    hide ValidCode, IsCodePart, CodePartAccepted, Parts;
    ValidCodeIffEveryPart(code);
    forall part: string
      ensures IsCodePart(part) <==> CodePartAccepted(part)
    {
      CodePartIff(part);
    }
  }

  lemma ErrorValidIff(error: ServiceError)
    ensures error.Validate().Pass? <==> ErrorAccepted(error)
  {
    hide ValidCode, CodePartAccepted, Parts;
    CodeValidIff(error.code);
  }

  lemma ReceiptValidIff(receipt: PublicationReceipt)
    ensures receipt.Validate().Pass? <==> ReceiptAccepted(receipt)
  {
    hide ArtifactIdentity.Validate, DestinationIdentity.Validate, ArtifactAccepted, DestinationAccepted;
    ArtifactValidIff(receipt.artifact);
    DestinationValidIff(receipt.destination);
  }

  /** The canonical-outcome check accepts exactly the outcomes that say what they mean. */
  lemma OutcomeValidIff(outcome: PublicationOutcome)
    ensures outcome.Validate().Pass? <==> OutcomeAccepted(outcome)
  {
    hide PublicationReceipt.Validate, ServiceError.Validate, ReceiptAccepted, ErrorAccepted;
    match outcome {
      case NotPublished(error) => ErrorValidIff(error);
      case Published(receipt) => ReceiptValidIff(receipt);
      case PublishedDurabilityUnknown(receipt, error) =>
        ErrorValidIff(error);
        ReceiptValidIff(receipt);
    }
  }
}

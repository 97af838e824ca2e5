/** The summary of a closed supervisor, its accounting check, and what acceptance means. */
module ClosedSummary {
  import opened Wrappers
  import opened Collections
  import PC = PublicationContracts

  datatype ShutdownResourceKind = OperationRegistry | TaskSupervisor | Backend | WorkerPool | Runtime

  datatype ShutdownResourceState = Stopped | Failed

  datatype SupervisorPhase = Running | Quiescing | Closed

  /** One constructor per field the validator can complain about. */
  datatype SummaryError =
    | SchemaInvalid
    | PhaseInvalid
    | ActiveOperationsInvalid
    | RetainedTasksInvalid
    | ResourcesEmpty
    | Malformed(error: PC.ContractError)
    | ResourceJoinedTooMany
    | ResourceStateInconsistent
    | ResourceDuplicate
    | ExpectedWorkersOverflow
    | JoinedWorkersOverflow
    | ExpectedWorkersInconsistent
    | JoinedWorkersInconsistent
    | FailureDuplicate
    | FailureResourceUnknown
    | FailureServiceInconsistent
    | SuccessfulResourcesInconsistent

  const CLOSED_SUMMARY_SCHEMA_V0 := "delysis.closed_summary.v0"

  predicate IsOpaqueIdByte(c: char) {
    'a' <= c <= 'z' || 'A' <= c <= 'Z' || '0' <= c <= '9' || c in "._-:"
  }

  function ValidateOpaqueId(field: string, value: string): Verdict<SummaryError> {
    var bounded := PC.ValidateNonemptyBounded(field, value, 256);
    if bounded.Fail? then Fail(Malformed(bounded.error))
    else if exists i :: 0 <= i < |value| && !IsOpaqueIdByte(value[i]) then Fail(Malformed(PC.Invalid(field)))
    else Pass
  }

  datatype ShutdownResource = ShutdownResource(
    resourceId: string,
    service: string,
    kind: ShutdownResourceKind,
    state: ShutdownResourceState,
    expectedWorkers: nat,
    joinedWorkers: nat)
  {
    function Validate(): Verdict<SummaryError> {
      var id := ValidateOpaqueId("resource_id", resourceId);
      if id.Fail? then id
      else if joinedWorkers > expectedWorkers then Fail(ResourceJoinedTooMany)
      else if state == Stopped && joinedWorkers != expectedWorkers then Fail(ResourceStateInconsistent)
      else Pass
    }
  }

  datatype ShutdownFailure = ShutdownFailure(
    failureId: string,
    resourceId: string,
    service: string,
    error: PC.ServiceError)
  {
    function Validate(): Verdict<SummaryError> {
      var id := ValidateOpaqueId("failure_id", failureId);
      if id.Fail? then id
      else
        var resource := ValidateOpaqueId("failure.resource_id", resourceId);
        if resource.Fail? then resource
        else if error.Validate().Fail? then Fail(Malformed(error.Validate().error))
        else if error.service != service then Fail(FailureServiceInconsistent)
        else Pass
    }
  }

  datatype ClosedSummary = ClosedSummary(
    schema: string,
    phase: SupervisorPhase,
    activeOperations: nat,
    retainedTasks: nat,
    expectedWorkers: nat,
    joinedWorkers: nat,
    resources: seq<ShutdownResource>,
    failures: seq<ShutdownFailure>)

  // ---------- what acceptance means ----------

  ghost function ResourceIds(resources: seq<ShutdownResource>): seq<string> {
    Map(resources, (r: ShutdownResource) => r.resourceId)
  }

  ghost function FailureIds(failures: seq<ShutdownFailure>): seq<string> {
    Map(failures, (f: ShutdownFailure) => f.failureId)
  }

  ghost function TotalExpected(resources: seq<ShutdownResource>): nat {
    Sum(Map(resources, (r: ShutdownResource) => r.expectedWorkers))
  }

  ghost function TotalJoined(resources: seq<ShutdownResource>): nat {
    Sum(Map(resources, (r: ShutdownResource) => r.joinedWorkers))
  }

  /** Nonempty, at most 256 bytes, and nothing but letters, digits, dots, underscores, dashes and colons. */
  predicate OpaqueIdAccepted(id: string) {
    && 1 <= |id| <= 256
    && forall c :: c in id ==>
         || 'a' <= c <= 'z' || 'A' <= c <= 'Z' || '0' <= c <= '9' || c == '.' || c == '_' || c == '-' || c == ':'
  }

  /** No more joined than expected, and all of them once stopped. */
  predicate ResourceAccepted(r: ShutdownResource) {
    && OpaqueIdAccepted(r.resourceId)
    && r.joinedWorkers <= r.expectedWorkers
    && (r.state == Stopped ==> r.joinedWorkers == r.expectedWorkers)
  }

  /** A failure carries an acceptable error of its own service. */
  predicate FailureAccepted(f: ShutdownFailure) {
    && OpaqueIdAccepted(f.failureId) && OpaqueIdAccepted(f.resourceId)
    && PC.ErrorAccepted(f.error) && f.error.service == f.service
  }

  lemma OpaqueIdValidIff(field: string, id: string)
    ensures ValidateOpaqueId(field, id).Pass? <==> OpaqueIdAccepted(id)
    ensures ValidateOpaqueId(field, id).Fail? ==> ValidateOpaqueId(field, id).error.Malformed?
  {
    if 1 <= |id| <= 256 && !OpaqueIdAccepted(id) {
      var c :| c in id && !IsOpaqueIdByte(c);
      var i :| 0 <= i < |id| && id[i] == c;
      assert !IsOpaqueIdByte(id[i]);
    } else if OpaqueIdAccepted(id) {
      forall i | 0 <= i < |id|
        ensures IsOpaqueIdByte(id[i])
      {
        assert id[i] in id;
      }
    }
  }

  /** The resource check accepts exactly the resources accepted field by field. */
  lemma ResourceValidIff(r: ShutdownResource)
    ensures r.Validate().Pass? <==> ResourceAccepted(r)
  {
    hide OpaqueIdAccepted, ValidateOpaqueId;
    OpaqueIdValidIff("resource_id", r.resourceId);
  }

  /** And the failure check the failures; the error of another service is refused. */
  lemma FailureValidIff(f: ShutdownFailure)
    ensures f.Validate().Pass? <==> FailureAccepted(f)
  {
    hide OpaqueIdAccepted, ValidateOpaqueId, PC.ErrorAccepted, PC.ServiceError.Validate;
    OpaqueIdValidIff("failure_id", f.failureId);
    OpaqueIdValidIff("failure.resource_id", f.resourceId);
    PC.ErrorValidIff(f.error);
  }

  ghost predicate AllValid(resources: seq<ShutdownResource>) {
    forall r :: r in resources ==> ResourceAccepted(r)
  }

  ghost predicate Blamed(failures: seq<ShutdownFailure>, id: string) {
    exists f :: f in failures && f.resourceId == id
  }

  ghost predicate Declared(resources: seq<ShutdownResource>, f: ShutdownFailure) {
    exists r :: r in resources && r.resourceId == f.resourceId && r.service == f.service
  }

  ghost predicate FailuresAccountedFor(resources: seq<ShutdownResource>, failures: seq<ShutdownFailure>) {
    && NoDuplicates(FailureIds(failures))
    && forall f :: f in failures ==> FailureAccepted(f) && Declared(resources, f)
  }

  /** A resource failed exactly when some failure names it. */
  ghost predicate StatesAgree(resources: seq<ShutdownResource>, failures: seq<ShutdownFailure>) {
    forall r :: r in resources ==> (r.state == Failed <==> Blamed(failures, r.resourceId))
  }

  ghost predicate HeaderOk(s: ClosedSummary) {
    && s.schema == "delysis.closed_summary.v0" && s.phase == Closed
    && s.activeOperations == 0 && s.retainedTasks == 0 && s.resources != []
  }

  ghost predicate TotalsAgree(s: ClosedSummary) {
    && TotalExpected(s.resources) <= USIZE_MAX
    && s.expectedWorkers == TotalExpected(s.resources)
    && s.joinedWorkers == TotalJoined(s.resources)
  }

  /** The declarative account: no loop, no running sum, no order. */
  ghost predicate Accounted(s: ClosedSummary) {
    && HeaderOk(s)
    && AllValid(s.resources)
    && NoDuplicates(ResourceIds(s.resources))
    && TotalsAgree(s)
    && FailuresAccountedFor(s.resources, s.failures)
    && StatesAgree(s.resources, s.failures)
  }

  /** What each complaint tells the caller; the two overflow and success complaints never come. */
  ghost predicate Explains(s: ClosedSummary, error: SummaryError) {
    match error
    case SchemaInvalid => s.schema != CLOSED_SUMMARY_SCHEMA_V0
    case PhaseInvalid => s.phase != Closed
    case ActiveOperationsInvalid => s.activeOperations != 0
    case RetainedTasksInvalid => s.retainedTasks != 0
    case ResourcesEmpty => s.resources == []
    case Malformed(_) =>
      || (exists r :: r in s.resources && !OpaqueIdAccepted(r.resourceId))
      || (exists f :: f in s.failures &&
            (!OpaqueIdAccepted(f.failureId) || !OpaqueIdAccepted(f.resourceId) || !PC.ErrorAccepted(f.error)))
    case ResourceJoinedTooMany => exists r :: r in s.resources && r.joinedWorkers > r.expectedWorkers
    case ResourceStateInconsistent =>
      || (exists r :: r in s.resources && r.state == Stopped && r.joinedWorkers != r.expectedWorkers)
      || !StatesAgree(s.resources, s.failures)
    case ResourceDuplicate => !NoDuplicates(ResourceIds(s.resources))
    case ExpectedWorkersOverflow => TotalExpected(s.resources) > USIZE_MAX
    case JoinedWorkersOverflow => false
    case ExpectedWorkersInconsistent => s.expectedWorkers != TotalExpected(s.resources)
    case JoinedWorkersInconsistent => s.joinedWorkers != TotalJoined(s.resources)
    case FailureDuplicate => !NoDuplicates(FailureIds(s.failures))
    case FailureResourceUnknown => exists f :: f in s.failures && f.resourceId !in ResourceIds(s.resources)
    case FailureServiceInconsistent =>
      exists f :: f in s.failures && (f.error.service != f.service || !Declared(s.resources, f))
    case SuccessfulResourcesInconsistent => false
  }

  // ---------- the check ----------

  lemma TotalsOfPrefix(resources: seq<ShutdownResource>, i: nat)
    requires i < |resources|
    ensures TotalExpected(resources[..i + 1]) == TotalExpected(resources[..i]) + resources[i].expectedWorkers
    ensures TotalJoined(resources[..i + 1]) == TotalJoined(resources[..i]) + resources[i].joinedWorkers
  {
    var e := (r: ShutdownResource) => r.expectedWorkers;
    var j := (r: ShutdownResource) => r.joinedWorkers;
    assert Map(resources[..i + 1], e) == Map(resources[..i], e) + [resources[i].expectedWorkers];
    assert Map(resources[..i + 1], j) == Map(resources[..i], j) + [resources[i].joinedWorkers];
    SumOfConcat(Map(resources[..i], e), [resources[i].expectedWorkers]);
    SumOfConcat(Map(resources[..i], j), [resources[i].joinedWorkers]);
  }

  /** No later resource brings a sum back under the limit. */
  lemma TotalsGrow(resources: seq<ShutdownResource>, i: nat)
    requires i <= |resources|
    ensures TotalExpected(resources[..i]) <= TotalExpected(resources)
  {
    var e := (r: ShutdownResource) => r.expectedWorkers;
    assert Map(resources, e) == Map(resources[..i], e) + Map(resources[i..], e);
    SumOfConcat(Map(resources[..i], e), Map(resources[i..], e));
  }

  ghost predicate IndexOf(index: map<string, ShutdownResource>, resources: seq<ShutdownResource>) {
    && (forall r :: r in resources ==> r.resourceId in index && index[r.resourceId] == r)
    && (forall id :: id in index ==> index[id] in resources && index[id].resourceId == id)
  }

  /** What the first loop can report about the resources alone. */
  ghost predicate ResourceFault(resources: seq<ShutdownResource>, error: SummaryError) {
    || (exists r :: r in resources && r.Validate() == Fail(error))
    || (error == ResourceDuplicate && !NoDuplicates(ResourceIds(resources)))
    || (error == ExpectedWorkersOverflow && TotalExpected(resources) > USIZE_MAX)
  }

  method ScanResources(resources: seq<ShutdownResource>)
    returns (verdict: Verdict<SummaryError>, index: map<string, ShutdownResource>, expected: nat, joined: nat)
    ensures verdict.Pass? <==>
      AllValid(resources) && NoDuplicates(ResourceIds(resources)) && TotalExpected(resources) <= USIZE_MAX
    ensures verdict.Pass? ==>
      && IndexOf(index, resources)
      && expected == TotalExpected(resources) && joined == TotalJoined(resources)
    ensures verdict.Fail? ==> ResourceFault(resources, verdict.error)
  {
    hide ShutdownResource.Validate, ResourceAccepted, TotalExpected, TotalJoined;
    index, expected, joined := map[], 0, 0;
    TotalsOfNone();
    for i := 0 to |resources|
      invariant AllValid(resources[..i])
      invariant NoDuplicates(ResourceIds(resources[..i]))
      invariant IndexOf(index, resources[..i])
      invariant expected == TotalExpected(resources[..i]) <= USIZE_MAX
      invariant joined == TotalJoined(resources[..i]) <= expected
    {
      var resource := resources[i];
      TotalsOfPrefix(resources, i);
      TotalsGrow(resources, i + 1);
      ResourceValidIff(resource);
      verdict := resource.Validate();
      if verdict.Fail? {
        assert resource in resources;
        return;
      }
      if resource.resourceId in index {
        RepeatedId(resources, i);
        return Fail(ResourceDuplicate), index, expected, joined;
      }
      FreshId(resources, i);
      IndexGrows(index, resources, i);
      index := index[resource.resourceId := resource];
      if expected + resource.expectedWorkers > USIZE_MAX {
        return Fail(ExpectedWorkersOverflow), index, expected, joined;
      }
      expected := expected + resource.expectedWorkers;
      ValidJoinsNoMore(resource);
      verdict := if joined + resource.joinedWorkers > USIZE_MAX then Fail(JoinedWorkersOverflow) else Pass;
      if verdict.Fail? {
        return;
      }
      joined := joined + resource.joinedWorkers;
      assert resources[..i + 1] == resources[..i] + [resource];
    }
    assert resources[..|resources|] == resources;
    verdict := Pass;
  }

  lemma TotalsOfNone()
    ensures TotalExpected([]) == 0 && TotalJoined([]) == 0
  {
  }

  lemma ValidJoinsNoMore(r: ShutdownResource)
    requires ResourceAccepted(r)
    ensures r.joinedWorkers <= r.expectedWorkers
  {
  }

  lemma RepeatedId(resources: seq<ShutdownResource>, i: nat)
    requires i < |resources| && exists r :: r in resources[..i] && r.resourceId == resources[i].resourceId
    ensures !NoDuplicates(ResourceIds(resources))
  {
    var j :| 0 <= j < i && resources[j].resourceId == resources[i].resourceId;
    assert ResourceIds(resources)[j] == ResourceIds(resources)[i];
  }

  lemma FreshId(resources: seq<ShutdownResource>, i: nat)
    requires i < |resources| && NoDuplicates(ResourceIds(resources[..i]))
    requires forall r :: r in resources[..i] ==> r.resourceId != resources[i].resourceId
    ensures NoDuplicates(ResourceIds(resources[..i + 1]))
  {
    assert forall j :: 0 <= j < i ==> resources[j] in resources[..i];
    assert forall j :: 0 <= j < i ==> ResourceIds(resources[..i + 1])[j] == ResourceIds(resources[..i])[j];
  }

  lemma IndexGrows(index: map<string, ShutdownResource>, resources: seq<ShutdownResource>, i: nat)
    requires i < |resources| && IndexOf(index, resources[..i]) && resources[i].resourceId !in index
    ensures IndexOf(index[resources[i].resourceId := resources[i]], resources[..i + 1])
  {
    assert resources[..i + 1] == resources[..i] + [resources[i]];
  }

  /** What the second loop can report. */
  ghost predicate FailureFault(resources: seq<ShutdownResource>, failures: seq<ShutdownFailure>, error: SummaryError) {
    || (exists f :: f in failures && f.Validate() == Fail(error))
    || (error == FailureDuplicate && !NoDuplicates(FailureIds(failures)))
    || (error == FailureResourceUnknown && exists f :: f in failures && f.resourceId !in ResourceIds(resources))
    || (error == FailureServiceInconsistent && exists f :: f in failures && !Declared(resources, f))
  }

  method ScanFailures(
      resources: seq<ShutdownResource>, index: map<string, ShutdownResource>, failures: seq<ShutdownFailure>)
    returns (verdict: Verdict<SummaryError>, failed: set<string>)
    requires IndexOf(index, resources)
    ensures verdict.Pass? <==> FailuresAccountedFor(resources, failures)
    ensures verdict.Pass? ==> forall id :: id in failed <==> Blamed(failures, id)
    ensures verdict.Fail? ==> FailureFault(resources, failures, verdict.error)
  {
    hide ShutdownFailure.Validate, FailureAccepted;
    var ids: set<string> := {};
    failed := {};
    for i := 0 to |failures|
      invariant forall id :: id in ids <==> exists j :: 0 <= j < i && failures[j].failureId == id
      invariant NoDuplicates(FailureIds(failures[..i]))
      invariant forall j :: 0 <= j < i ==> FailureAccepted(failures[j]) && Declared(resources, failures[j])
      invariant forall id :: id in failed <==> exists j :: 0 <= j < i && failures[j].resourceId == id
    {
      var failure := failures[i];
      FailureValidIff(failure);
      verdict := failure.Validate();
      if verdict.Fail? {
        assert failure in failures;
        return;
      }
      if failure.failureId in ids {
        RepeatedFailure(failures, i);
        return Fail(FailureDuplicate), failed;
      }
      FreshFailure(failures, i);
      ids := ids + {failure.failureId};
      if failure.resourceId !in index {
        UnknownResource(index, resources, failure);
        return Fail(FailureResourceUnknown), failed;
      }
      IndexDecides(index, resources, failure);
      if index[failure.resourceId].service != failure.service {
        return Fail(FailureServiceInconsistent), failed;
      }
      failed := failed + {failure.resourceId};
    }
    assert failures[..|failures|] == failures;
    verdict := Pass;
  }

  lemma RepeatedFailure(failures: seq<ShutdownFailure>, i: nat)
    requires i < |failures| && exists j :: 0 <= j < i && failures[j].failureId == failures[i].failureId
    ensures !NoDuplicates(FailureIds(failures))
  {
    var j :| 0 <= j < i && failures[j].failureId == failures[i].failureId;
    assert FailureIds(failures)[j] == FailureIds(failures)[i];
  }

  lemma FreshFailure(failures: seq<ShutdownFailure>, i: nat)
    requires i < |failures| && NoDuplicates(FailureIds(failures[..i]))
    requires forall j :: 0 <= j < i ==> failures[j].failureId != failures[i].failureId
    ensures NoDuplicates(FailureIds(failures[..i + 1]))
  {
    assert forall j :: 0 <= j < i ==> FailureIds(failures[..i + 1])[j] == FailureIds(failures[..i])[j];
  }

  lemma UnknownResource(index: map<string, ShutdownResource>, resources: seq<ShutdownResource>, f: ShutdownFailure)
    requires IndexOf(index, resources) && f.resourceId !in index
    ensures f.resourceId !in ResourceIds(resources) && !Declared(resources, f)
  {
    forall i | 0 <= i < |resources|
      ensures ResourceIds(resources)[i] != f.resourceId
    {
      assert resources[i] in resources;
    }
  }

  lemma IndexDecides(index: map<string, ShutdownResource>, resources: seq<ShutdownResource>, f: ShutdownFailure)
    requires IndexOf(index, resources) && f.resourceId in index
    ensures Declared(resources, f) <==> index[f.resourceId].service == f.service
  {
  }

  method ScanStates(resources: seq<ShutdownResource>, failures: seq<ShutdownFailure>, failed: set<string>)
    returns (verdict: Verdict<SummaryError>)
    requires forall id :: id in failed <==> Blamed(failures, id)
    ensures verdict.Pass? <==> StatesAgree(resources, failures)
    ensures verdict.Fail? ==> verdict.error == ResourceStateInconsistent
  {
    for i := 0 to |resources|
      invariant StatesAgree(resources[..i], failures)
    {
      var hasFailure := resources[i].resourceId in failed;
      if (resources[i].state == Failed) != hasFailure {
        assert resources[i] in resources;
        return Fail(ResourceStateInconsistent);
      }
      assert resources[..i + 1] == resources[..i] + [resources[i]];
    }
    assert resources[..|resources|] == resources;
    return Pass;
  }

  /** With no failures and agreeing states every resource stopped with all its workers joined. */
  lemma NoFailuresMeansAllJoined(s: ClosedSummary)
    requires AllValid(s.resources) && TotalsAgree(s) && StatesAgree(s.resources, s.failures) && s.failures == []
    ensures s.joinedWorkers == s.expectedWorkers
    ensures forall r :: r in s.resources ==> r.state == Stopped
  {
    forall r | r in s.resources
      ensures r.state == Stopped && r.joinedWorkers == r.expectedWorkers
    {
      assert ResourceAccepted(r) && !Blamed(s.failures, r.resourceId);
    }
    assert Map(s.resources, (r: ShutdownResource) => r.expectedWorkers)
        == Map(s.resources, (r: ShutdownResource) => r.joinedWorkers);
  }

  predicate AnyNotStopped(resources: seq<ShutdownResource>) {
    exists i :: 0 <= i < |resources| && resources[i].state != Stopped
  }

  /** Accepts exactly the accounted summaries, and never complains without cause. */
  method Validate(s: ClosedSummary) returns (verdict: Verdict<SummaryError>)
    ensures verdict.Pass? <==> Accounted(s)
    ensures verdict.Fail? ==> Explains(s, verdict.error)
  {
    hide ResourceAccepted, FailureAccepted, TotalExpected, TotalJoined;
    verdict := ValidateHeader(s);
    if verdict.Fail? {
      return;
    }
    var index, expected, joined, failed;
    verdict, index, expected, joined := ScanResources(s.resources);
    if verdict.Fail? {
      ResourceFaultExplains(s, verdict.error);
      return;
    }
    if s.expectedWorkers != expected {
      return Fail(ExpectedWorkersInconsistent);
    }
    if s.joinedWorkers != joined {
      return Fail(JoinedWorkersInconsistent);
    }
    verdict, failed := ScanFailures(s.resources, index, s.failures);
    if verdict.Fail? {
      FailureFaultExplains(s, verdict.error);
      return;
    }
    verdict := ScanStates(s.resources, s.failures, failed);
    if verdict.Fail? {
      return;
    }
    if |s.failures| == 0 {
      NoFailuresMeansAllJoined(s);
    }
    verdict := if |s.failures| == 0 && (s.joinedWorkers != s.expectedWorkers || AnyNotStopped(s.resources))
      then Fail(SuccessfulResourcesInconsistent) else Pass;
  }

  method ValidateHeader(s: ClosedSummary) returns (verdict: Verdict<SummaryError>)
    ensures verdict.Pass? <==> HeaderOk(s)
    ensures verdict.Fail? ==> Explains(s, verdict.error)
  {
    if s.schema != CLOSED_SUMMARY_SCHEMA_V0 {
      return Fail(SchemaInvalid);
    }
    if s.phase != Closed {
      return Fail(PhaseInvalid);
    }
    if s.activeOperations != 0 {
      return Fail(ActiveOperationsInvalid);
    }
    if s.retainedTasks != 0 {
      return Fail(RetainedTasksInvalid);
    }
    if |s.resources| == 0 {
      return Fail(ResourcesEmpty);
    }
    return Pass;
  }

  lemma ResourceFaultInFields(r: ShutdownResource, error: SummaryError)
    requires r.Validate() == Fail(error)
    ensures match error
      case Malformed(_) => !OpaqueIdAccepted(r.resourceId)
      case ResourceJoinedTooMany => r.joinedWorkers > r.expectedWorkers
      case ResourceStateInconsistent => r.state == Stopped && r.joinedWorkers != r.expectedWorkers
      case _ => false
  {
    hide OpaqueIdAccepted, ValidateOpaqueId;
    OpaqueIdValidIff("resource_id", r.resourceId);
  }

  lemma ResourceFaultExplains(s: ClosedSummary, error: SummaryError)
    requires ResourceFault(s.resources, error)
    ensures Explains(s, error)
  {
    hide TotalExpected, TotalJoined, StatesAgree, ShutdownResource.Validate, OpaqueIdAccepted, NoDuplicates;
    if r :| r in s.resources && r.Validate() == Fail(error) {
      ResourceFaultInFields(r, error);
    }
  }

  lemma FailureFaultInFields(f: ShutdownFailure, error: SummaryError)
    requires f.Validate() == Fail(error)
    ensures match error
      case Malformed(_) =>
        !OpaqueIdAccepted(f.failureId) || !OpaqueIdAccepted(f.resourceId) || !PC.ErrorAccepted(f.error)
      case FailureServiceInconsistent => f.error.service != f.service
      case _ => false
  {
    hide OpaqueIdAccepted, ValidateOpaqueId, PC.ErrorAccepted, PC.ServiceError.Validate;
    OpaqueIdValidIff("failure_id", f.failureId);
    OpaqueIdValidIff("failure.resource_id", f.resourceId);
    PC.ErrorValidIff(f.error);
  }

  lemma FailureFaultExplains(s: ClosedSummary, error: SummaryError)
    requires FailureFault(s.resources, s.failures, error)
    ensures Explains(s, error)
  {
    hide TotalExpected, TotalJoined, StatesAgree, ShutdownFailure.Validate, OpaqueIdAccepted, PC.ErrorAccepted;
    hide NoDuplicates;
    if f :| f in s.failures && f.Validate() == Fail(error) {
      FailureFaultInFields(f, error);
    }
  }

  // ---------- acceptance does not depend on order ----------

  lemma PermutedMembers<T(!new)>(a: seq<T>, b: seq<T>)
    requires Permuted(a, b)
    ensures forall x :: x in a <==> x in b
  {
    PermutedKeepsBasics(a, b);
    assert forall x :: x in a <==> x in Elements(a);
  }

  lemma ResourceOrderIsIrrelevant(a: seq<ShutdownResource>, b: seq<ShutdownResource>)
    requires Permuted(a, b)
    ensures NoDuplicates(ResourceIds(a)) <==> NoDuplicates(ResourceIds(b))
    ensures TotalExpected(a) == TotalExpected(b) && TotalJoined(a) == TotalJoined(b)
  {
    var id := (r: ShutdownResource) => r.resourceId;
    var e := (r: ShutdownResource) => r.expectedWorkers;
    var j := (r: ShutdownResource) => r.joinedWorkers;
    PermutedMap(a, b, id);
    PermutedKeepsBasics(Map(a, id), Map(b, id));
    PermutedMap(a, b, e);
    PermutedSum(Map(a, e), Map(b, e));
    PermutedMap(a, b, j);
    PermutedSum(Map(a, j), Map(b, j));
  }

  lemma FailureOrderIsIrrelevant(a: seq<ShutdownFailure>, b: seq<ShutdownFailure>)
    requires Permuted(a, b)
    ensures NoDuplicates(FailureIds(a)) <==> NoDuplicates(FailureIds(b))
  {
    var id := (f: ShutdownFailure) => f.failureId;
    PermutedMap(a, b, id);
    PermutedKeepsBasics(Map(a, id), Map(b, id));
  }

  /** Listing the resources or the failures in another order changes nothing. */
  lemma AcceptanceIgnoresOrder(s: ClosedSummary, resources: seq<ShutdownResource>, failures: seq<ShutdownFailure>)
    requires Permuted(s.resources, resources) && Permuted(s.failures, failures)
    ensures Accounted(s) <==> Accounted(s.(resources := resources, failures := failures))
  {
    PermutedMembers(s.resources, resources);
    PermutedMembers(s.failures, failures);
    PermutedKeepsBasics(s.resources, resources);
    ResourceOrderIsIrrelevant(s.resources, resources);
    FailureOrderIsIrrelevant(s.failures, failures);
    hide ResourceAccepted, FailureAccepted, TotalExpected;
    hide TotalJoined, ResourceIds, FailureIds, NoDuplicates;
    hide Permuted;
  }

  predicate Succeeded(s: ClosedSummary) {
    s.failures == []
  }

  /** An accepted summary says it succeeded exactly when every resource stopped; then all workers joined. */
  lemma SuccessMeansEveryoneStopped(s: ClosedSummary)
    requires Accounted(s)
    ensures Succeeded(s) <==> forall r :: r in s.resources ==> r.state == Stopped
    ensures Succeeded(s) ==> s.joinedWorkers == s.expectedWorkers
  {
    hide ResourceAccepted, FailureAccepted, TotalExpected, TotalJoined;
    if Succeeded(s) {
      NoFailuresMeansAllJoined(s);
    } else {
      var f := s.failures[0];
      assert f in s.failures && Declared(s.resources, f);
      assert Blamed(s.failures, f.resourceId);
    }
  }

  /** A resource that is missing workers is named by a failure of its own service. */
  lemma MissingWorkersAreExplained(s: ClosedSummary, r: ShutdownResource)
    requires Accounted(s) && r in s.resources && r.joinedWorkers != r.expectedWorkers
    ensures exists f :: f in s.failures && f.resourceId == r.resourceId && f.service == r.service
  {
    hide TotalExpected, TotalJoined;
    assert ResourceAccepted(r) && r.state == Failed && Blamed(s.failures, r.resourceId);
    var f :| f in s.failures && f.resourceId == r.resourceId;
    assert Declared(s.resources, f);
    var d :| d in s.resources && d.resourceId == f.resourceId && d.service == f.service;
    IdsAreUnique(s.resources, r, d);
  }

  lemma IdsAreUnique(resources: seq<ShutdownResource>, a: ShutdownResource, b: ShutdownResource)
    requires NoDuplicates(ResourceIds(resources)) && a in resources && b in resources && a.resourceId == b.resourceId
    ensures a == b
  {
    var i :| 0 <= i < |resources| && resources[i] == a;
    var j :| 0 <= j < |resources| && resources[j] == b;
    assert ResourceIds(resources)[i] == ResourceIds(resources)[j];
  }

  lemma EqualTotals(resources: seq<ShutdownResource>)
    requires forall r :: r in resources ==> r.joinedWorkers == r.expectedWorkers
    ensures TotalJoined(resources) == TotalExpected(resources)
  {
    assert Map(resources, (r: ShutdownResource) => r.expectedWorkers)
        == Map(resources, (r: ShutdownResource) => r.joinedWorkers);
  }

  /** Where the totals differ, some resource is missing workers. */
  lemma TotalsDifferSomewhere(resources: seq<ShutdownResource>)
    requires TotalJoined(resources) != TotalExpected(resources)
    ensures exists r :: r in resources && r.joinedWorkers != r.expectedWorkers
  {
    if forall r :: r in resources ==> r.joinedWorkers == r.expectedWorkers {
      EqualTotals(resources);
    }
  }

  /** An accepted failure, the error it carries and the resource it names are all of one service. */
  lemma FailuresKeepToTheirService(s: ClosedSummary, f: ShutdownFailure)
    requires Accounted(s) && f in s.failures
    ensures f.error.service == f.service
    ensures exists r :: r in s.resources && r.resourceId == f.resourceId
    ensures forall r :: r in s.resources && r.resourceId == f.resourceId ==> r.service == f.service && r.state == Failed
  {
    hide TotalExpected, TotalJoined, PC.ErrorAccepted, OpaqueIdAccepted, ResourceAccepted, NoDuplicates, ResourceIds;
    assert FailureAccepted(f) && Declared(s.resources, f);
    var d :| d in s.resources && d.resourceId == f.resourceId && d.service == f.service;
    forall r | r in s.resources && r.resourceId == f.resourceId
      ensures r.service == f.service && r.state == Failed
    {
      IdsAreUnique(s.resources, r, d);
      assert Blamed(s.failures, r.resourceId);
    }
  }
}

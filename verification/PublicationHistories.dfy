/** Whole lifetimes of an adapter: any list of injected faults, seeds and runs. */
module PublicationHistories {
  import opened Wrappers
  import opened Faults
  import opened PublicationContracts
  import opened Publication
  import opened PublicationEndings
  import opened PublicationTheorems

  datatype Action =
    | InjectFault(point: FaultPoint)
    | SeedVisible(artifact: ArtifactIdentity)
    | RunModel(request: PublicationRequest)
  {
    predicate Fitting() {
      RunModel? ==> Fits(request.artifact)
    }
  }

  /** Seeding an occupied destination is refused by an assertion; a fault replaces the script. */
  function Act(st: Store, action: Action): Store {
    match action
    case InjectFault(point) => st.(faults := [point])
    case SeedVisible(artifact) => if st.visible.Some? then st else st.(visible := Some(artifact))
    case RunModel(request) => Run(st, request).store
  }

  function Play(st: Store, actions: seq<Action>): Store
    decreases |actions|
  {
    if actions == [] then st else Play(Act(st, actions[0]), actions[1..])
  }

  function ReceiptFrom(st: Store, action: Action): seq<PublicationReceipt> {
    if action.RunModel? && Run(st, action.request).result.Returned?
       && !Run(st, action.request).result.outcome.NotPublished?
    then [Run(st, action.request).result.outcome.receipt] else []
  }

  /** Every receipt issued, in order. */
  function Receipts(st: Store, actions: seq<Action>): seq<PublicationReceipt>
    decreases |actions|
  {
    if actions == [] then [] else ReceiptFrom(st, actions[0]) + Receipts(Act(st, actions[0]), actions[1..])
  }

  /** Receipts that claim to have made the artifact visible. */
  function FirstPublications(receipts: seq<PublicationReceipt>): nat {
    if receipts == [] then 0
    else (if receipts[0].idempotentRecovery then 0 else 1) + FirstPublications(receipts[1..])
  }

  ghost predicate AllFitting(actions: seq<Action>) {
    forall i :: 0 <= i < |actions| ==> actions[i].Fitting()
  }

  lemma RefusedChangesNothingVisible(st: Store, request: PublicationRequest)
    requires Refused(st, request)
    ensures var run := Run(st, request);
      && run.result.Aborted?
      && run.store.(log := st.log) == st
  {
    hide PublicationRequest.Valid, PublishStage, Recover;
  }

  lemma ActKeeps(st: Store, action: Action)
    requires StagesNumbered(st) && action.Fitting()
    ensures var after := Act(st, action);
      && StagesNumbered(after) && after.stages == st.stages
      && (st.visible.Some? ==> after.visible == st.visible)
  {
    hide Run, Refused, Fits;
    if action.RunModel? {
      if Refused(st, action.request) {
        RefusedChangesNothingVisible(st, action.request);
      } else {
        RunNeverClobbers(st, action.request);
      }
    }
  }

  /** Once something is visible at the destination it stays, whatever is run, injected or seeded afterwards. */
  lemma {:induction false} VisibleIsForever(st: Store, actions: seq<Action>)
    requires StagesNumbered(st) && AllFitting(actions) && st.visible.Some?
    ensures Play(st, actions).visible == st.visible
    decreases |actions|
  {
    hide Act, StagesNumbered;
    if actions != [] {
      ActKeeps(st, actions[0]);
      VisibleIsForever(Act(st, actions[0]), actions[1..]);
    }
  }

  /** No run leaves a stage behind. */
  lemma {:induction false} StagesAreRestored(st: Store, actions: seq<Action>)
    requires StagesNumbered(st) && AllFitting(actions)
    ensures StagesNumbered(Play(st, actions)) && Play(st, actions).stages == st.stages
    decreases |actions|
  {
    hide Act, StagesNumbered;
    if actions != [] {
      ActKeeps(st, actions[0]);
      StagesAreRestored(Act(st, actions[0]), actions[1..]);
    }
  }

  lemma ReceiptFromKnows(st: Store, action: Action)
    requires StagesNumbered(st) && action.Fitting()
    ensures FirstPublications(ReceiptFrom(st, action))
         <= if st.visible.None? && Act(st, action).visible.Some? then 1 else 0
  {
    hide Run, Refused, Fits, StagesNumbered;
    if action.RunModel? {
      if Refused(st, action.request) {
        RefusedChangesNothingVisible(st, action.request);
      } else {
        ReceiptsAreHonest(st, action.request);
      }
    }
  }

  lemma {:induction false} FirstPublicationsOfConcat(one: seq<PublicationReceipt>, two: seq<PublicationReceipt>)
    ensures FirstPublications(one + two) == FirstPublications(one) + FirstPublications(two)
  {
    if one == [] {
      assert one + two == two;
    } else {
      assert (one + two)[1..] == one[1..] + two;
      FirstPublicationsOfConcat(one[1..], two);
    }
  }

  /** In an adapter's lifetime at most one receipt claims the first publication, and none once something is visible. */
  lemma {:induction false} AtMostOneFirstPublication(st: Store, actions: seq<Action>)
    requires StagesNumbered(st) && AllFitting(actions)
    ensures FirstPublications(Receipts(st, actions)) <= if st.visible.None? then 1 else 0
    decreases |actions|
  {
    hide Act, StagesNumbered, ReceiptFrom;
    if actions != [] {
      ActKeeps(st, actions[0]);
      ReceiptFromKnows(st, actions[0]);
      AtMostOneFirstPublication(Act(st, actions[0]), actions[1..]);
      FirstPublicationsOfConcat(ReceiptFrom(st, actions[0]), Receipts(Act(st, actions[0]), actions[1..]));
    }
  }

  // ---------- the order of the boundaries ----------

  /**
   Publication is only called straight after a verification and a staged sync that passed; a parent sync only
   straight after a visible-file sync that passed, or after a publication that passed and one look.
   */
  predicate LawfulAt(deeds: seq<Deed>, i: nat)
    requires i < |deeds|
  {
    match deeds[i].step
    case PublishNoClobber =>
      i >= 2 && deeds[i - 2] == Deed(VerifyExactDigestAndLength, true) && deeds[i - 1] == Deed(SyncStagedFile, true)
    case SyncParentDirectory =>
      || (i >= 1 && deeds[i - 1] == Deed(SyncVisibleFile, true))
      || (i >= 2 && deeds[i - 2] == Deed(PublishNoClobber, true) && deeds[i - 1] == Deed(InspectDestination, true))
    case SyncStagedFile => i >= 1 && deeds[i - 1] == Deed(VerifyExactDigestAndLength, true)
    case VerifyExactDigestAndLength => i >= 1 && deeds[i - 1] == Deed(CreatePrivateSiblingStage, true)
    case SyncVisibleFile => i >= 1 && deeds[i - 1] == Deed(InspectDestination, true)
    case _ => true
  }

  /** The adapter's trace names the runner's calls, and the calls come in order. */
  ghost predicate Lawful(log: Log) {
    && |log.trace| == |log.deeds|
    && forall i: nat :: i < |log.deeds| ==> log.deeds[i].step == log.trace[i] && LawfulAt(log.deeds, i)
  }

  lemma {:induction false} DeedsByIndex(steps: seq<PublicationStep>, failed: Option<PublicationStep>)
    ensures |DeedsFrom(steps, failed)| == |steps|
    ensures forall i :: 0 <= i < |steps| ==> DeedsFrom(steps, failed)[i] == Deed(steps[i], failed != Some(steps[i]))
  {
    if steps != [] {
      DeedsByIndex(steps[1..], failed);
    }
  }

  lemma WordsAreLawful(faults: seq<FaultPoint>, ending: Ending)
    ensures Lawful(LogOf(faults, ending))
  {
    DeedsByIndex(TraceOf(ending), FailedStep(ending));
    hide DeedsFrom, QueriesOf;
    forall i: nat | i < |TraceOf(ending)|
      ensures LawfulAt(DeedsOf(ending), i)
    {
      if IsFresh(ending) {
        FreshWordIsLawfulAt(ending, i);
      }
    }
  }

  lemma FreshWordIsLawfulAt(ending: Ending, i: nat)
    requires IsFresh(ending) && i < |DeedsOf(ending)|
    ensures LawfulAt(DeedsOf(ending), i)
  {
    DeedsByIndex(TraceOf(ending), FailedStep(ending));
    hide DeedsFrom;
  }

  lemma LawfulJoined(one: Log, two: Log)
    requires Lawful(one) && Lawful(two)
    ensures Lawful(Joined(one, two))
  {
    var deeds := one.deeds + two.deeds;
    forall i: nat | i < |deeds|
      ensures LawfulAt(deeds, i)
    {
      if i < |one.deeds| {
        assert LawfulAt(one.deeds, i);
      } else {
        assert LawfulAt(two.deeds, i - |one.deeds|);
      }
    }
  }

  /** What a refused run leaves in the log: nothing, or a look and a stage that could not be created. */
  function RefusedLog(): Log {
    Log([InspectDestination, CreatePrivateSiblingStage], [],
        [Deed(InspectDestination, true), Deed(CreatePrivateSiblingStage, false)])
  }

  lemma RefusedLogs(st: Store, request: PublicationRequest)
    requires Refused(st, request)
    ensures Run(st, request).store.log == st.log || Run(st, request).store.log == Joined(st.log, RefusedLog())
  {
    hide PublicationRequest.Valid, PublishStage, Recover;
    assert st.log.queried + [] == st.log.queried;
  }

  lemma ActIsLawful(st: Store, action: Action)
    requires StagesNumbered(st) && action.Fitting() && Lawful(st.log)
    ensures Lawful(Act(st, action).log)
  {
    hide Run, Refused, Fits, StagesNumbered, Lawful, LogOf, Joined;
    if action.RunModel? {
      if Refused(st, action.request) {
        RefusedLogs(st, action.request);
        assert Lawful(RefusedLog()) by {
          RefusedIsLawful();
        }
        LawfulJoined(st.log, RefusedLog());
      } else {
        RunReturns(st, action.request);
        WordsAreLawful(st.faults, EndingAt(st, action.request));
        LawfulJoined(st.log, LogOf(st.faults, EndingAt(st, action.request)));
      }
    }
  }

  lemma RefusedIsLawful()
    ensures Lawful(RefusedLog())
  {
  }

  /** The order of the boundaries holds over every lifetime, with faults anywhere. */
  lemma {:induction false} TraceStaysLawful(st: Store, actions: seq<Action>)
    requires StagesNumbered(st) && AllFitting(actions) && Lawful(st.log)
    ensures Lawful(Play(st, actions).log)
    decreases |actions|
  {
    hide Act, StagesNumbered, Lawful;
    if actions != [] {
      ActKeeps(st, actions[0]);
      ActIsLawful(st, actions[0]);
      TraceStaysLawful(Act(st, actions[0]), actions[1..]);
    }
  }

  // ---------- one stage, cleaned once ----------

  /** The trace a run appends. */
  function Word(st: Store, request: PublicationRequest): seq<PublicationStep>
    requires |st.log.trace| <= |Run(st, request).store.log.trace|
  {
    Run(st, request).store.log.trace[|st.log.trace|..]
  }

  lemma StagesInWords(ending: Ending, i: nat)
    requires i < |TraceOf(ending)|
    ensures TraceOf(ending)[i] == CreatePrivateSiblingStage <==> i == 1 && IsFresh(ending)
    ensures TraceOf(ending)[i] == CleanupOwnedStage <==> i == |TraceOf(ending)| - 1 && IsFresh(ending)
  {
  }

  lemma FreshIffEmpty(st: Store, request: PublicationRequest)
    ensures IsFresh(EndingAt(st, request)) <==> st.visible.None?
  {
    hide ParentFault, CorruptionIsNoOp;
  }

  /**
   A run creates a stage exactly when nothing is visible at its start, as the second thing it does; it then cleans
   up exactly once, as the last thing it does, and the stages are what they were.
   */
  lemma StageIsCleanedOnceAndLast(st: Store, request: PublicationRequest, i: nat)
    requires Ready(st, request)
    ensures st.log.trace <= Run(st, request).store.log.trace
    ensures i < |Word(st, request)| ==>
      && (Word(st, request)[i] == CreatePrivateSiblingStage <==> i == 1 && st.visible.None?)
      && (Word(st, request)[i] == CleanupOwnedStage <==> i == |Word(st, request)| - 1 && st.visible.None?)
    ensures Run(st, request).store.stages == st.stages
  {
    hide Run, Ready, TraceOf, EndingOf, OutcomeFor, IsFresh, QueriesOf, DeedsOf;
    RunReturns(st, request);
    RunNeverClobbers(st, request);
    FreshIffEmpty(st, request);
    assert Word(st, request) == TraceOf(EndingAt(st, request));
    if i < |Word(st, request)| {
      StagesInWords(EndingAt(st, request), i);
    }
  }

  function Times(deeds: seq<Deed>, deed: Deed): nat {
    multiset(deeds)[deed]
  }

  lemma StagesInDeeds(ending: Ending)
    ensures Times(DeedsOf(ending), Deed(CreatePrivateSiblingStage, true)) == if IsFresh(ending) then 1 else 0
    ensures Times(DeedsOf(ending), Deed(CleanupOwnedStage, true)) == if IsFresh(ending) then 1 else 0
  {
    OnceInDeeds(ending, CreatePrivateSiblingStage);
    OnceInDeeds(ending, CleanupOwnedStage);
  }

  lemma OnceOrNever(deeds: seq<Deed>, deed: Deed, k: nat, once: bool)
    requires forall i :: 0 <= i < |deeds| ==> (deeds[i] == deed <==> i == k && once)
    requires once ==> k < |deeds|
    ensures Times(deeds, deed) == if once then 1 else 0
  {
    if once {
      assert deed !in deeds[..k] && deed !in deeds[k + 1..];
      assert deeds == deeds[..k] + [deed] + deeds[k + 1..];
    } else {
      assert deed !in deeds;
    }
  }

  lemma WordsAreLong(ending: Ending)
    ensures |DeedsOf(ending)| > 0 && (IsFresh(ending) ==> |DeedsOf(ending)| > 1)
  {
    DeedsByIndex(TraceOf(ending), FailedStep(ending));
    hide DeedsFrom;
  }

  lemma OnceInDeeds(ending: Ending, step: PublicationStep)
    requires step == CreatePrivateSiblingStage || step == CleanupOwnedStage
    ensures Times(DeedsOf(ending), Deed(step, true)) == if IsFresh(ending) then 1 else 0
  {
    hide DeedsOf, IsFresh, Times;
    StepInDeeds(ending, step);
    WordsAreLong(ending);
    var k := if step == CreatePrivateSiblingStage then 1 else |DeedsOf(ending)| - 1;
    OnceOrNever(DeedsOf(ending), Deed(step, true), k, IsFresh(ending));
  }

  lemma StepInDeeds(ending: Ending, step: PublicationStep)
    requires step == CreatePrivateSiblingStage || step == CleanupOwnedStage
    ensures var deeds := DeedsOf(ending);
      var k := if step == CreatePrivateSiblingStage then 1 else |deeds| - 1;
      forall i :: 0 <= i < |deeds| ==> (deeds[i] == Deed(step, true) <==> i == k && IsFresh(ending))
  {
    DeedsByIndex(TraceOf(ending), FailedStep(ending));
    hide DeedsFrom;
    forall i | 0 <= i < |DeedsOf(ending)|
      ensures DeedsOf(ending)[i] == Deed(step, true) <==>
        i == (if step == CreatePrivateSiblingStage then 1 else |DeedsOf(ending)| - 1) && IsFresh(ending)
    {
      StagesInWords(ending, i);
      FailureIsElsewhere(ending);
    }
  }

  /** Creating and cleaning up never fail in a run that is not refused. */
  lemma FailureIsElsewhere(ending: Ending)
    ensures FailedStep(ending) != Some(CreatePrivateSiblingStage) && FailedStep(ending) != Some(CleanupOwnedStage)
  {
  }

  lemma ActBalances(st: Store, action: Action)
    requires StagesNumbered(st) && action.Fitting()
    ensures var before, after := st.log.deeds, Act(st, action).log.deeds;
      Times(after, Deed(CreatePrivateSiblingStage, true)) - Times(before, Deed(CreatePrivateSiblingStage, true))
      == Times(after, Deed(CleanupOwnedStage, true)) - Times(before, Deed(CleanupOwnedStage, true))
  {
    hide Run, Refused, Fits, StagesNumbered, DeedsOf, TraceOf, QueriesOf, IsFresh;
    if action.RunModel? {
      if Refused(st, action.request) {
        RefusedLogs(st, action.request);
      } else {
        RunReturns(st, action.request);
        StagesInDeeds(EndingAt(st, action.request));
      }
    }
  }

  /** Over a lifetime as many stages are cleaned up as were created. */
  lemma {:induction false} StagesBalance(st: Store, actions: seq<Action>)
    requires StagesNumbered(st) && AllFitting(actions)
    ensures var before, after := st.log.deeds, Play(st, actions).log.deeds;
      Times(after, Deed(CreatePrivateSiblingStage, true)) - Times(before, Deed(CreatePrivateSiblingStage, true))
      == Times(after, Deed(CleanupOwnedStage, true)) - Times(before, Deed(CleanupOwnedStage, true))
    decreases |actions|
  {
    hide Act, StagesNumbered, Times;
    if actions != [] {
      ActKeeps(st, actions[0]);
      ActBalances(st, actions[0]);
      StagesBalance(Act(st, actions[0]), actions[1..]);
    }
  }

  // ---------- sync flags ----------

  /** What the flags of an outcome claim about the calls of the run and their answers. */
  predicate FlagsTellTheTruth(outcome: PublicationOutcome, deeds: seq<Deed>) {
    !outcome.NotPublished? ==>
      && (outcome.receipt.fileSynced <==> Deed(SyncStagedFile, true) in deeds || Deed(SyncVisibleFile, true) in deeds)
      && (outcome.receipt.directorySynced <==> Deed(SyncParentDirectory, true) in deeds)
      && (outcome.Published? <==> outcome.receipt.fileSynced && outcome.receipt.directorySynced)
  }

  lemma EndingsTellTheTruth(ending: Ending, request: PublicationRequest)
    ensures FlagsTellTheTruth(OutcomeFor(ending, request), DeedsOf(ending))
  {
    DeedsHold(TraceOf(ending), FailedStep(ending), SyncStagedFile);
    DeedsHold(TraceOf(ending), FailedStep(ending), SyncVisibleFile);
    DeedsHold(TraceOf(ending), FailedStep(ending), SyncParentDirectory);
    hide DeedsFrom, ServiceErrorFor, ConflictError;
  }

  /** The sync flags of an outcome say which syncs passed in that very run; `Published` needs both. */
  lemma SyncFlagsAreHonest(st: Store, request: PublicationRequest)
    requires Ready(st, request)
    ensures Run(st, request).result.Returned?
    ensures Run(st, request).store.log.deeds == st.log.deeds + DeedsAt(st, request)
    ensures FlagsTellTheTruth(Run(st, request).result.outcome, DeedsAt(st, request))
  {
    hide Run, Ready, DeedsOf, EndingOf, OutcomeFor, FlagsTellTheTruth, TraceOf, QueriesOf;
    RunReturns(st, request);
    EndingsTellTheTruth(EndingAt(st, request), request);
  }

  // ---------- retries ----------

  function Retried(st: Store, requests: seq<PublicationRequest>): Store
    decreases |requests|
  {
    if requests == [] then st else Retried(Run(st, requests[0]).store, requests[1..])
  }

  function Failures(st: Store, requests: seq<PublicationRequest>): nat
    decreases |requests|
  {
    if requests == [] then 0
    else (if IsPublished(Run(st, requests[0]).result) then 0 else 1)
         + Failures(Run(st, requests[0]).store, requests[1..])
  }

  /** Requests for one content, at a destination that is empty or already holds it, with stage numbers to spare. */
  ghost predicate Retrying(st: Store, requests: seq<PublicationRequest>, artifact: ArtifactIdentity) {
    && StagesNumbered(st) && !Occupied(st, artifact) && st.nextStage + |requests| <= U64_MAX && Fits(artifact)
    && forall i :: 0 <= i < |requests| ==>
         && requests[i].Valid()
         && requests[i].artifact.digest == artifact.digest && requests[i].artifact.length == artifact.length
  }

  lemma RetryStep(st: Store, requests: seq<PublicationRequest>, artifact: ArtifactIdentity)
    requires requests != [] && Retrying(st, requests, artifact)
    ensures Ready(st, requests[0]) && !Occupied(st, requests[0].artifact)
    ensures CorruptionIsNoOp(requests[0].artifact) == CorruptionIsNoOp(artifact)
    ensures Retrying(Run(st, requests[0]).store, requests[1..], artifact)
  {
    hide Run, StagesNumbered, PublicationRequest.Valid;
    RunNeverClobbers(st, requests[0]);
  }

  /**
   At most as many retries fail as there are faults in the script, whatever the script;
   exactly as many as faults fired, unless corrupting this content is a no-op.
   */
  lemma {:induction false} AtMostOneFailurePerFault(
      st: Store, requests: seq<PublicationRequest>, artifact: ArtifactIdentity)
    requires Retrying(st, requests, artifact)
    ensures Failures(st, requests) <= Consumed(st, Retried(st, requests))
    ensures !CorruptionIsNoOp(artifact) ==> Failures(st, requests) == Consumed(st, Retried(st, requests))
    ensures Failures(st, requests) <= |st.faults|
    decreases |requests|
  {
    hide Run, Retrying, Ready, Occupied, CorruptionIsNoOp;
    if requests != [] {
      RetryStep(st, requests, artifact);
      FailuresConsumeFaults(st, requests[0]);
      AtMostOneFailurePerFault(Run(st, requests[0]).store, requests[1..], artifact);
    }
  }

  lemma UnsyncedRun(st: Store, request: PublicationRequest)
    requires Ready(st, request) && st.visible.None? && Fires(st.faults, BeforeFileSync)
    ensures !IsPublished(Run(st, request).result)
    ensures Run(st, request).store.visible.None? && Run(st, request).store.faults == st.faults[1..]
  {
    hide Run, Ready, ServiceErrorFor, LogOf;
    RunReturns(st, request);
  }

  lemma UnhinderedRun(st: Store, request: PublicationRequest)
    requires Ready(st, request) && !Occupied(st, request.artifact) && st.faults == []
    ensures IsPublished(Run(st, request).result) && Run(st, request).store.faults == []
  {
    hide Run, Ready, ServiceErrorFor, LogOf, Receipt;
    RunReturns(st, request);
  }

  /** The bound is met: with nothing visible, one failed file sync after another makes exactly that many runs fail. */
  lemma {:induction false} EveryFaultCanCostARun(
      st: Store, requests: seq<PublicationRequest>, artifact: ArtifactIdentity)
    requires Retrying(st, requests, artifact)
    requires forall i :: 0 <= i < |st.faults| ==> st.faults[i] == BeforeFileSync
    requires st.visible.None? || st.faults == []
    ensures Failures(st, requests) == if |requests| <= |st.faults| then |requests| else |st.faults|
    decreases |requests|
  {
    hide Run, Retrying, Ready, Occupied;
    if requests != [] {
      RetryStep(st, requests, artifact);
      if st.faults == [] {
        UnhinderedRun(st, requests[0]);
      } else {
        UnsyncedRun(st, requests[0]);
      }
      EveryFaultCanCostARun(Run(st, requests[0]).store, requests[1..], artifact);
    }
  }

  /** Against other content, every retry reports the conflict and nothing else happens. */
  lemma {:induction false} ConflictsNeverResolve(st: Store, requests: seq<PublicationRequest>)
    requires StagesNumbered(st)
    requires forall i :: 0 <= i < |requests| ==>
      requests[i].Valid() && Fits(requests[i].artifact) && Occupied(st, requests[i].artifact)
    ensures Failures(st, requests) == |requests|
    ensures Retried(st, requests).(log := st.log) == st
    decreases |requests|
  {
    hide Run, PublicationRequest.Valid, ConflictError;
    if requests != [] {
      ConflictIffOccupiedBefore(st, requests[0]);
      ConflictsNeverResolve(Run(st, requests[0]).store, requests[1..]);
    }
  }

  // ---------- the faults a series of runs fires ----------

  ghost predicate FittingRequests(requests: seq<PublicationRequest>) {
    forall i :: 0 <= i < |requests| ==> Fits(requests[i].artifact)
  }

  lemma RunKeepsNumbers(st: Store, request: PublicationRequest)
    requires Fits(request.artifact) && StagesNumbered(st)
    ensures StagesNumbered(Run(st, request).store)
  {
    hide Run, Refused, StagesNumbered, Fits;
    if Refused(st, request) {
      RefusedChangesNothingVisible(st, request);
      SameStagesStayNumbered(st, Run(st, request).store);
    } else {
      RunNeverClobbers(st, request);
    }
  }

  lemma SameStagesStayNumbered(st: Store, st': Store)
    requires StagesNumbered(st) && st'.stages == st.stages && st'.nextStage == st.nextStage
    ensures StagesNumbered(st')
  {
  }

  /** Whatever is run, valid or not, the script gives up what the points asked about take from it. */
  lemma {:induction false} RunsDrainWhatTheyAsked(st: Store, requests: seq<PublicationRequest>)
    requires StagesNumbered(st) && FittingRequests(requests)
    ensures st.log.queried <= Retried(st, requests).log.queried
    ensures Retried(st, requests).faults == Drain(st.faults, Asked(st, Retried(st, requests)))
    decreases |requests|
  {
    hide Run, StagesNumbered, Fits, Drain;
    if requests == [] {
      DrainNone(st.faults);
      assert Asked(st, st) == [];
    } else {
      var after := Run(st, requests[0]).store;
      var last := Retried(after, requests[1..]);
      RunDrainsWhatItAsked(st, requests[0]);
      RunKeepsNumbers(st, requests[0]);
      RunsDrainWhatTheyAsked(after, requests[1..]);
      assert Asked(st, last) == Asked(st, after) + Asked(after, last);
      DrainInTwo(st.faults, Asked(st, after), Asked(after, last));
    }
  }

  /** Over any series of runs, the faults that fire are the longest prefix of the script embedded in all they asked. */
  lemma RunsFireLongestEmbeddedPrefix(st: Store, requests: seq<PublicationRequest>, j: nat)
    requires StagesNumbered(st) && FittingRequests(requests) && j <= |st.faults|
    ensures st.log.queried <= Retried(st, requests).log.queried
    ensures var k := Consumed(st, Retried(st, requests));
      && 0 <= k && Retried(st, requests).faults == st.faults[k..]
      && (Embeds(st.faults[..j], Asked(st, Retried(st, requests))) <==> j <= k)
  {
    hide Run, StagesNumbered, Retried;
    RunsDrainWhatTheyAsked(st, requests);
    FiresLongestEmbeddedPrefix(st.faults, Asked(st, Retried(st, requests)), j);
  }

  /** And a run that is not refused asks about each boundary it reaches once, in order, until one stops it. */
  lemma RunAsksItsBoundaries(st: Store, request: PublicationRequest)
    requires Ready(st, request)
    ensures Run(st, request).store.log.queried == st.log.queried + QueriesOf(st.faults, EndingAt(st, request))
  {
    hide Run, Ready, EndingOf, OutcomeFor, TraceOf, DeedsOf, QueriesOf;
    RunReturns(st, request);
  }
}

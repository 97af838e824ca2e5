/** The reference adapter as an object, and the runner that drives it boundary by boundary. */
module PublicationAdapter {
  import opened Wrappers
  import opened Faults
  import opened PublicationContracts
  import P = Publication

  class ReferencePublicationAdapter {
    var faults: FaultScript
    var nextStage: nat
    var stages: map<nat, P.StagedArtifact>
    var visible: Option<ArtifactIdentity>
    var trace: seq<P.PublicationStep>
    ghost var queried: seq<FaultPoint>
    ghost var deeds: seq<P.Deed>

    ghost function Contents(): P.Store
      reads this, faults
    {
      P.Store(faults.points, nextStage, stages, visible, P.Log(trace, queried, deeds))
    }

    constructor ()
      ensures Contents() == P.EmptyStore([]) && fresh(faults)
    {
      faults := new FaultScript([]);
      nextStage, stages, visible, trace := 0, map[], None, [];
      queried, deeds := [], [];
    }

    /** The runner writes down a call and its answer. */
    ghost method Note(step: P.PublicationStep, passed: bool)
      modifies this`deeds
      ensures Contents() == P.WithDeed(old(Contents()), step, passed)
    {
      deeds := deeds + [P.Deed(step, passed)];
    }

    method InjectFault(point: FaultPoint)
      modifies this
      ensures Contents() == old(Contents()).(faults := [point]) && fresh(faults)
    {
      faults := new FaultScript([point]);
    }

    method SeedVisible(artifact: ArtifactIdentity)
      requires visible.None?
      modifies this
      ensures Contents() == old(Contents()).(visible := Some(artifact)) && faults == old(faults)
    {
      visible := Some(artifact);
    }

    method Hit(point: FaultPoint) returns (verdict: Verdict<P.PublicationError>)
      modifies this`queried, faults
      ensures P.Attempted(Contents(), verdict) == P.Hit(old(Contents()), point)
    {
      var fired := faults.Hit(point);
      queried := queried + [point];
      return if fired then Fail(P.Injected(point)) else Pass;
    }

    method InspectVisible() returns (found: Option<ArtifactIdentity>)
      modifies this
      ensures Contents() == P.Traced(old(Contents()), P.InspectDestination) && faults == old(faults)
      ensures found == old(visible)
    {
      trace := trace + [P.InspectDestination];
      return visible;
    }

    /** No stage comes back when the number overflows or is already in use. */
    method CreatePrivateSiblingStage(request: P.PublicationRequest) returns (stage: Option<nat>)
      modifies this
      ensures faults == old(faults)
      ensures var traced := P.Traced(old(Contents()), P.CreatePrivateSiblingStage);
        if old(nextStage) >= U64_MAX then stage == None && Contents() == traced
        else
          && Contents() == P.CreateStage(traced, request)
          && stage == if old(nextStage) + 1 in old(stages) then None else Some(old(nextStage) + 1)
    {
      trace := trace + [P.CreatePrivateSiblingStage];
      if nextStage >= U64_MAX {
        return None;
      }
      nextStage := nextStage + 1;
      var taken := nextStage in stages;
      var facts := P.StagingFacts(request.destination.filesystemId, true, true);
      stages := stages[nextStage := P.StagedArtifact(request.artifact, facts, false)];
      return if taken then None else Some(nextStage);
    }

    method VerifyExact(stage: nat, expected: ArtifactIdentity) returns (verdict: Verdict<P.PublicationError>)
      modifies this, faults
      ensures faults == old(faults)
      ensures P.Attempted(Contents(), verdict) == P.VerifyExact(old(Contents()), stage, expected)
    {
      trace := trace + [P.VerifyExactDigestAndLength];
      var hit := Hit(CorruptStagedBeforeVerification);
      if hit.Fail? {
        if stage !in stages {
          return Fail(P.UnknownStage);
        }
        var artifact := stages[stage].artifact;
        artifact := artifact.(digest := ContentDigest(Sha256, P.CORRUPT_HEX));
        artifact := artifact.(length := if artifact.length >= U64_MAX then U64_MAX else artifact.length + 1);
        stages := stages[stage := stages[stage].(artifact := artifact)];
      }
      if stage !in stages {
        return Fail(P.UnknownStage);
      }
      if P.SameContent(stages[stage].artifact, expected) {
        verdict := Pass;
      } else {
        verdict := Fail(P.VerificationMismatch);
      }
      assert old(stage in stages) && hit.Pass? ==> stages == stages[stage := stages[stage]];
    }

    method SyncStagedFile(stage: nat) returns (verdict: Verdict<P.PublicationError>)
      modifies this, faults
      ensures faults == old(faults)
      ensures P.Attempted(Contents(), verdict) == P.SyncStaged(old(Contents()), stage)
    {
      trace := trace + [P.SyncStagedFile];
      verdict := Hit(BeforeFileSync);
      if verdict.Fail? {
        return;
      }
      if stage !in stages {
        return Fail(P.UnknownStage);
      }
      stages := stages[stage := stages[stage].(fileSynced := true)];
      return Pass;
    }

    method PublishNoClobber(stage: nat) returns (verdict: Verdict<P.PublicationError>)
      modifies this, faults
      ensures faults == old(faults)
      ensures P.Attempted(Contents(), verdict) == P.Publish(old(Contents()), stage)
    {
      trace := trace + [P.PublishNoClobber];
      if stage !in stages {
        return Fail(P.UnknownStage);
      }
      if !stages[stage].fileSynced {
        return Fail(P.FileNotSynced);
      }
      if visible.Some? {
        return Fail(P.DestinationConflict);
      }
      var artifact := stages[stage].artifact;
      verdict := Hit(BeforeVisibility);
      if verdict.Fail? {
        return;
      }
      visible := Some(artifact);
      verdict := Hit(AfterNoClobberVisibility);
    }

    method SyncVisibleFile() returns (verdict: Verdict<P.PublicationError>)
      requires visible.Some?
      modifies this, faults
      ensures faults == old(faults)
      ensures P.Attempted(Contents(), verdict) == P.SyncVisible(old(Contents()))
    {
      trace := trace + [P.SyncVisibleFile];
      verdict := Hit(BeforeVisibleFileSync);
    }

    method SyncParentDirectory() returns (verdict: Verdict<P.PublicationError>)
      modifies this, faults
      ensures faults == old(faults)
      ensures P.Attempted(Contents(), verdict) == P.SyncParent(old(Contents()))
    {
      trace := trace + [P.SyncParentDirectory];
      verdict := Hit(BeforeParentSync);
      if verdict.Fail? {
        return;
      }
      verdict := Hit(AfterVisibilityBeforeParentSync);
    }

    method CleanupOwnedStage(stage: nat) returns (verdict: Verdict<P.PublicationError>)
      modifies this
      ensures faults == old(faults)
      ensures P.Attempted(Contents(), verdict) == P.Cleanup(old(Contents()), stage)
    {
      trace := trace + [P.CleanupOwnedStage];
      if stage !in stages {
        return Fail(P.UnknownStage);
      }
      stages := stages - {stage};
      return Pass;
    }
  }

  /** An `expect` or assertion of the runner that fails stops it where it stands. */
  method RunPublicationModel(adapter: ReferencePublicationAdapter, request: P.PublicationRequest)
    returns (result: P.RunResult)
    modifies adapter, adapter.faults
    ensures adapter.faults == old(adapter.faults)
    ensures P.RunStep(adapter.Contents(), result) == P.Run(old(adapter.Contents()), request)
  {
    hide P.PublishFresh, P.Recover;
    if !request.Valid() {
      return P.Aborted;
    }
    var found := adapter.InspectVisible();
    adapter.Note(P.InspectDestination, true);
    if found.Some? {
      result := AdoptVisible(adapter, request, found.value);
    } else {
      result := PublishFresh(adapter, request);
    }
  }

  method AdoptVisible(adapter: ReferencePublicationAdapter, request: P.PublicationRequest, existing: ArtifactIdentity)
    returns (result: P.RunResult)
    requires adapter.visible == Some(existing)
    modifies adapter, adapter.faults
    ensures adapter.faults == old(adapter.faults)
    ensures P.RunStep(adapter.Contents(), result) == P.Recover(old(adapter.Contents()), request, existing)
  {
    hide P.Validated, P.DurabilityUnknown, P.Receipt, P.ConflictError, P.SyncVisible, P.SyncParent;
    if !P.SameContent(existing, request.artifact) {
      return P.Validated(NotPublished(P.ConflictError()));
    }
    var file := adapter.SyncVisibleFile();
    adapter.Note(P.SyncVisibleFile, file.Pass?);
    if file.Fail? {
      return P.Validated(P.DurabilityUnknown(request, file.error, true, false));
    }
    var parent := adapter.SyncParentDirectory();
    adapter.Note(P.SyncParentDirectory, parent.Pass?);
    if parent.Pass? {
      return P.Validated(Published(P.Receipt(request, true, true, true)));
    }
    return P.Validated(P.DurabilityUnknown(request, parent.error, true, true));
  }

  method PublishFresh(adapter: ReferencePublicationAdapter, request: P.PublicationRequest)
    returns (result: P.RunResult)
    modifies adapter, adapter.faults
    ensures adapter.faults == old(adapter.faults)
    ensures P.RunStep(adapter.Contents(), result) == P.PublishFresh(old(adapter.Contents()), request)
  {
    hide P.PublishStage;
    var stage := adapter.CreatePrivateSiblingStage(request);
    if stage.None? {
      adapter.Note(P.CreatePrivateSiblingStage, false);
      return P.Aborted;
    }
    var facts := adapter.stages[stage.value].facts;
    var sibling := facts.isPrivate && facts.isOwned && facts.filesystemId == request.destination.filesystemId;
    adapter.Note(P.CreatePrivateSiblingStage, sibling);
    if !sibling {
      return P.Aborted;
    }
    result := PublishStage(adapter, request, stage.value);
  }

  method PublishStage(adapter: ReferencePublicationAdapter, request: P.PublicationRequest, stage: nat)
    returns (result: P.RunResult)
    modifies adapter, adapter.faults
    ensures adapter.faults == old(adapter.faults)
    ensures P.RunStep(adapter.Contents(), result) == P.PublishStage(old(adapter.Contents()), request, stage)
  {
    hide P.Validated, P.NotVisible, P.VerifyExact, P.SyncStaged;
    hide P.Publish, P.CleanedUp, P.AfterFailedPublish, P.AfterPublish;
    var verified := adapter.VerifyExact(stage, request.artifact);
    adapter.Note(P.VerifyExactDigestAndLength, verified.Pass?);
    if verified.Fail? {
      result := CleanUp(adapter, stage, P.Validated(P.NotVisible(verified.error)));
      return;
    }
    var synced := adapter.SyncStagedFile(stage);
    adapter.Note(P.SyncStagedFile, synced.Pass?);
    if synced.Fail? {
      result := CleanUp(adapter, stage, P.Validated(P.NotVisible(synced.error)));
      return;
    }
    var published := adapter.PublishNoClobber(stage);
    adapter.Note(P.PublishNoClobber, published.Pass?);
    if published.Fail? {
      result := AfterFailedPublish(adapter, request, stage, published.error);
    } else {
      result := AfterPublish(adapter, request, stage);
    }
  }

  method AfterFailedPublish(
      adapter: ReferencePublicationAdapter, request: P.PublicationRequest, stage: nat, error: P.PublicationError)
    returns (result: P.RunResult)
    modifies adapter, adapter.faults
    ensures adapter.faults == old(adapter.faults)
    ensures P.RunStep(adapter.Contents(), result)
         == P.AfterFailedPublish(old(adapter.Contents()), request, stage, error)
  {
    hide P.Validated, P.NotVisible, P.DurabilityUnknown, P.ConflictError, P.CleanedUp;
    var visible := adapter.InspectVisible();
    adapter.Note(P.InspectDestination, true);
    var outcome := P.NotVisible(error);
    if visible.Some? && P.SameContent(visible.value, request.artifact) {
      outcome := P.DurabilityUnknown(request, error, false, true);
    } else if visible.Some? {
      outcome := NotPublished(P.ConflictError());
    }
    result := CleanUp(adapter, stage, P.Validated(outcome));
  }

  method AfterPublish(adapter: ReferencePublicationAdapter, request: P.PublicationRequest, stage: nat)
    returns (result: P.RunResult)
    modifies adapter, adapter.faults
    ensures adapter.faults == old(adapter.faults)
    ensures P.RunStep(adapter.Contents(), result) == P.AfterPublish(old(adapter.Contents()), request, stage)
  {
    hide P.Validated, P.DurabilityUnknown, P.Receipt, P.CleanedUp, P.SyncParent;
    var visible := adapter.InspectVisible();
    adapter.Note(P.InspectDestination, true);
    if visible.None? || !P.SameContent(visible.value, request.artifact) {
      return P.Aborted;
    }
    var parent := adapter.SyncParentDirectory();
    adapter.Note(P.SyncParentDirectory, parent.Pass?);
    var outcome := if parent.Pass? then Published(P.Receipt(request, false, true, true))
                   else P.DurabilityUnknown(request, parent.error, false, true);
    result := CleanUp(adapter, stage, P.Validated(outcome));
  }

  method CleanUp(adapter: ReferencePublicationAdapter, stage: nat, otherwise: P.RunResult) returns (result: P.RunResult)
    modifies adapter
    ensures adapter.faults == old(adapter.faults)
    ensures P.RunStep(adapter.Contents(), result) == P.CleanedUp(old(adapter.Contents()), stage, otherwise)
  {
    var cleaned := adapter.CleanupOwnedStage(stage);
    adapter.Note(P.CleanupOwnedStage, cleaned.Pass?);
    return if cleaned.Pass? then otherwise else P.Aborted;
  }
}

/** The lock over all rows: every manifest named once, authenticated, and nothing else. */
module FixtureLock {
  import opened Wrappers
  import opened Collections
  import opened FixtureTypes
  import opened FixtureManifest
  import opened FixtureEvidence

  /** One constructor per check; three of them never come. */
  datatype LockError =
    | SchemaInvalid
    | CommitInvalid
    | RevisionInvalid
    | ClassInconsistent
    | ManifestIdentityInvalid
    | DigestDuplicate
    | VerticalDuplicate
    | EntriesMissing(verticals: seq<VerticalId>)
    | EntriesInvalid
    | ManifestJsonInvalid
    | ManifestInvalid(error: ValidationError)
    | ManifestDuplicate
    | ManifestUnknown
    | ManifestInconsistent
    | BytesRejected(error: ValidationError)
    | ManifestsMissing(verticals: seq<VerticalId>)

  // ---------- what is accepted ----------

  ghost function EntryVerticals(entries: seq<LockEntry>): seq<VerticalId> {
    Map(entries, (e: LockEntry) => e.verticalId)
  }

  ghost function EntryDigests(entries: seq<LockEntry>): seq<string> {
    Map(entries, (e: LockEntry) => e.manifest.digest.hex)
  }

  predicate EntryOk(env: Env, e: LockEntry) {
    e.fixtureClass == e.verticalId.Class() && ArtifactOk(env, e.manifest)
  }

  predicate HeaderOk(env: Env, lock: Lock) {
    && lock.schema == "delysis.vertical_fixture_lock.v0"
    && env.gitCommit(lock.protocolCommit) && env.gitCommit(lock.contractRevision)
    && lock.contractRevision == "cbab33555ab9355a6ac453d659c55ec9e0666821"
  }

  /** The entries list each vertical once, with pairwise distinct digests. */
  ghost predicate EntriesOk(env: Env, entries: seq<LockEntry>) {
    && (forall e :: e in entries ==> EntryOk(env, e))
    && NoDuplicates(EntryDigests(entries))
    && Permuted(EntryVerticals(entries), ALL_VERTICAL_IDS)
  }

  /** The bytes decode to a valid manifest and are the ones the lock has for its vertical. */
  ghost predicate Locked(env: Env, entries: seq<LockEntry>, bytes: Bytes) {
    && env.parseManifest(bytes).Some?
    && ValidManifest(env, env.parseManifest(bytes).value)
    && exists e :: e in entries && e.verticalId == VerticalOf(env, bytes) && Authenticates(env, e.manifest, bytes)
  }

  function VerticalOf(env: Env, bytes: Bytes): VerticalId {
    match env.parseManifest(bytes)
    case Some(m) => m.verticalId
    case None => MomChatCancelRetry
  }

  ghost function StreamVerticals(env: Env, streams: seq<Bytes>): seq<VerticalId> {
    Map(streams, (b: Bytes) => VerticalOf(env, b))
  }

  ghost predicate AllLocked(env: Env, entries: seq<LockEntry>, streams: seq<Bytes>) {
    forall b :: b in streams ==> Locked(env, entries, b)
  }

  /** The streams are the locked manifests, one per vertical, in any order. */
  ghost predicate StreamsOk(env: Env, entries: seq<LockEntry>, streams: seq<Bytes>) {
    && AllLocked(env, entries, streams)
    && Permuted(StreamVerticals(env, streams), ALL_VERTICAL_IDS)
  }

  ghost predicate LockAccepted(env: Env, lock: Lock, streams: seq<Bytes>) {
    HeaderOk(env, lock) && EntriesOk(env, lock.entries) && StreamsOk(env, lock.entries, streams)
  }

  /** What a complaint about the entries tells the caller. */
  ghost predicate EntryFault(env: Env, entries: seq<LockEntry>, error: LockError) {
    match error
    case ClassInconsistent => exists e :: e in entries && e.fixtureClass != e.verticalId.Class()
    case ManifestIdentityInvalid => exists e :: e in entries && !ArtifactOk(env, e.manifest)
    case DigestDuplicate => !NoDuplicates(EntryDigests(entries))
    case VerticalDuplicate => !NoDuplicates(EntryVerticals(entries))
    case EntriesMissing(verticals) => verticals != [] && forall v :: v in verticals <==> v !in EntryVerticals(entries)
    case _ => false
  }

  /** What a complaint about one stream tells the caller. */
  ghost predicate ByteFault(env: Env, entries: seq<LockEntry>, bytes: Bytes, error: LockError) {
    match error
    case ManifestJsonInvalid => env.parseManifest(bytes).None?
    case ManifestInvalid(_) => env.parseManifest(bytes).Some? && !ValidManifest(env, env.parseManifest(bytes).value)
    case BytesRejected(_) => env.parseManifest(bytes).Some? && !Locked(env, entries, bytes)
    case _ => false
  }

  ghost predicate StreamFault(env: Env, entries: seq<LockEntry>, streams: seq<Bytes>, error: LockError) {
    match error
    case ManifestDuplicate => !NoDuplicates(StreamVerticals(env, streams))
    case ManifestsMissing(verticals) =>
      verticals != [] && forall v :: v in verticals <==> v !in StreamVerticals(env, streams)
    case _ => exists b :: b in streams && ByteFault(env, entries, b, error)
  }

  /** Every complaint has its cause; `EntriesInvalid`, `ManifestUnknown` and `ManifestInconsistent` have none. */
  ghost predicate Explains(env: Env, lock: Lock, streams: seq<Bytes>, error: LockError) {
    match error
    case SchemaInvalid => lock.schema != LOCK_SCHEMA_V0
    case CommitInvalid => !env.gitCommit(lock.protocolCommit) || !env.gitCommit(lock.contractRevision)
    case RevisionInvalid => lock.contractRevision != W1_CONTRACT_REVISION
    case _ => EntryFault(env, lock.entries, error) || StreamFault(env, lock.entries, streams, error)
  }

  lemma MissingEntriesExplained(env: Env, entries: seq<LockEntry>, missing: seq<VerticalId>)
    requires missing != [] && forall v :: v in missing <==> v !in EntryVerticals(entries)
    ensures EntryFault(env, entries, EntriesMissing(missing))
  {
  }

  lemma MissingStreamsExplained(env: Env, entries: seq<LockEntry>, streams: seq<Bytes>, missing: seq<VerticalId>)
    requires missing != [] && forall v :: v in missing <==> v !in StreamVerticals(env, streams)
    ensures StreamFault(env, entries, streams, ManifestsMissing(missing))
  {
  }

  lemma StreamExplained(env: Env, entries: seq<LockEntry>, streams: seq<Bytes>, b: Bytes, error: LockError)
    requires b in streams
    requires
      || ByteFault(env, entries, b, error)
      || (error == ManifestDuplicate && !NoDuplicates(StreamVerticals(env, streams)))
    ensures StreamFault(env, entries, streams, error)
  {
    hide NoDuplicates, Locked, ValidManifest;
  }

  // ---------- every vertical present ----------

  /** The verticals not seen yet, in the order of the list. */
  function Missing(all: seq<VerticalId>, present: set<VerticalId>): (missing: seq<VerticalId>)
    ensures forall v :: v in missing <==> v in all && v !in present
  {
    if all == [] then []
    else (if all[0] in present then [] else [all[0]]) + Missing(all[1..], present)
  }

  lemma NothingMissing(verticals: seq<VerticalId>, all: seq<VerticalId>)
    requires NoDuplicates(verticals) && NoDuplicates(all) && forall v :: v in all
    ensures Missing(all, Elements(verticals)) == [] <==> Permuted(verticals, all)
  {
    SameMembersPermuted(verticals, all);
    var missing := Missing(all, Elements(verticals));
    if missing == [] {
      assert Elements(verticals) == Elements(all);
    } else {
      assert missing[0] in missing;
    }
  }

  lemma EveryVertical()
    ensures forall v :: v in ALL_VERTICAL_IDS
  {
    forall v: VerticalId
      ensures v in ALL_VERTICAL_IDS
    {
      EveryVerticalIsListed(v);
    }
  }

  /** A list without repetitions that misses no vertical is the list of all of them. */
  lemma NothingMissingMeansPermuted(verticals: seq<VerticalId>)
    requires NoDuplicates(verticals)
    ensures Missing(ALL_VERTICAL_IDS, Elements(verticals)) == [] <==> Permuted(verticals, ALL_VERTICAL_IDS)
    ensures Missing(ALL_VERTICAL_IDS, Elements(verticals)) == [] ==> |verticals| == 18
    ensures forall v :: v in Missing(ALL_VERTICAL_IDS, Elements(verticals)) <==> v !in verticals
    ensures |ALL_VERTICAL_IDS| == 18
  {
    VerticalsAreListedOnce();
    EveryVertical();
    hide ALL_VERTICAL_IDS, NoDuplicates;
    NothingMissing(verticals, ALL_VERTICAL_IDS);
    if Permuted(verticals, ALL_VERTICAL_IDS) {
      PermutedKeepsBasics(verticals, ALL_VERTICAL_IDS);
    }
  }

  // ---------- the entries ----------

  method ScanEntries(env: Env, entries: seq<LockEntry>)
    returns (verdict: Verdict<LockError>, present: set<VerticalId>)
    ensures verdict.Pass? <==>
      && (forall e :: e in entries ==> EntryOk(env, e))
      && NoDuplicates(EntryDigests(entries)) && NoDuplicates(EntryVerticals(entries))
    ensures verdict.Pass? ==> present == Elements(EntryVerticals(entries))
    ensures verdict.Fail? ==> EntryFault(env, entries, verdict.error)
  {
    hide ArtifactOk, NoDuplicates, Collected;
    present := {};
    var digests: set<string> := {};
    CollectNone(EntryDigests(entries));
    CollectNone(EntryVerticals(entries));
    for i := 0 to |entries|
      invariant forall j :: 0 <= j < i ==> EntryOk(env, entries[j])
      invariant Collected(digests, EntryDigests(entries), i)
      invariant Collected(present, EntryVerticals(entries), i)
    {
      var entry := entries[i];
      assert entry in entries;
      if entry.fixtureClass != entry.verticalId.Class() {
        return Fail(ClassInconsistent), present;
      }
      if ValidateArtifact(env, entry.manifest).Fail? {
        return Fail(ManifestIdentityInvalid), present;
      }
      CollectNext(digests, EntryDigests(entries), i);
      if entry.manifest.digest.hex in digests {
        return Fail(DigestDuplicate), present;
      }
      digests := digests + {entry.manifest.digest.hex};
      CollectNext(present, EntryVerticals(entries), i);
      if entry.verticalId in present {
        return Fail(VerticalDuplicate), present;
      }
      present := present + {entry.verticalId};
    }
    CollectedAll(digests, EntryDigests(entries));
    CollectedAll(present, EntryVerticals(entries));
    verdict := Pass;
  }

  method ValidateEntries(env: Env, entries: seq<LockEntry>) returns (verdict: Verdict<LockError>)
    ensures verdict.Pass? <==> EntriesOk(env, entries)
    ensures verdict.Fail? ==> EntryFault(env, entries, verdict.error)
  {
    hide NoDuplicates, EntryDigests, EntryVerticals, EntryOk, Permuted, EntryFault;
    var present;
    verdict, present := ScanEntries(env, entries);
    if verdict.Fail? {
      AcceptedEntriesAreDistinct(env, entries);
      return;
    }
    NothingMissingMeansPermuted(EntryVerticals(entries));
    hide ALL_VERTICAL_IDS;
    EntryCount(entries);
    var missing := Missing(ALL_VERTICAL_IDS, present);
    if missing != [] {
      MissingEntriesExplained(env, entries, missing);
      return Fail(EntriesMissing(missing));
    }
    verdict := if |entries| != |ALL_VERTICAL_IDS| then Fail(EntriesInvalid) else Pass;
  }

  lemma EntryCount(entries: seq<LockEntry>)
    ensures |EntryVerticals(entries)| == |entries|
  {
  }

  lemma AcceptedEntriesAreDistinct(env: Env, entries: seq<LockEntry>)
    ensures EntriesOk(env, entries) ==> NoDuplicates(EntryVerticals(entries))
  {
    if EntriesOk(env, entries) {
      VerticalsAreListedOnce();
      hide NoDuplicates, EntryDigests, EntryVerticals, EntryOk;
      PermutedKeepsBasics(EntryVerticals(entries), ALL_VERTICAL_IDS);
    }
  }

  // ---------- the streams ----------

  function FindEntry(entries: seq<LockEntry>, v: VerticalId): (found: Option<LockEntry>)
    ensures found.Some? ==> found.value in entries && found.value.verticalId == v
    ensures found.None? ==> forall e :: e in entries ==> e.verticalId != v
  {
    if entries == [] then None
    else if entries[0].verticalId == v then Some(entries[0])
    else FindEntry(entries[1..], v)
  }

  lemma EveryVerticalHasAnEntry(env: Env, entries: seq<LockEntry>, v: VerticalId)
    requires EntriesOk(env, entries)
    ensures exists e :: e in entries && e.verticalId == v
  {
    hide EntryOk;
    EveryVerticalIsListed(v);
    PermutedKeepsBasics(EntryVerticals(entries), ALL_VERTICAL_IDS);
    assert v in Elements(EntryVerticals(entries));
    var i :| 0 <= i < |entries| && EntryVerticals(entries)[i] == v;
    assert entries[i] in entries;
  }

  lemma EntryIsDetermined(env: Env, entries: seq<LockEntry>, d: LockEntry, e: LockEntry)
    requires EntriesOk(env, entries) && d in entries && e in entries && d.verticalId == e.verticalId
    ensures d == e
  {
    AcceptedEntriesAreDistinct(env, entries);
    hide EntriesOk;
    var i :| 0 <= i < |entries| && entries[i] == d;
    var j :| 0 <= j < |entries| && entries[j] == e;
    assert EntryVerticals(entries)[i] == EntryVerticals(entries)[j];
  }

  lemma AcceptedEntryIsOk(env: Env, entries: seq<LockEntry>, e: LockEntry)
    requires EntriesOk(env, entries) && e in entries
    ensures EntryOk(env, e)
  {
  }

  lemma ValidManifestHeader(env: Env, m: Manifest)
    requires ValidManifest(env, m)
    ensures m.fixtureClass == m.verticalId.Class() && m.contractRevision == W1_CONTRACT_REVISION
  {
  }

  /** One stream against the accepted entries: the entry is found, and its class and revision agree. */
  method CheckStream(env: Env, lock: Lock, bytes: Bytes, authenticated: set<VerticalId>)
    returns (verdict: Verdict<LockError>)
    requires HeaderOk(env, lock) && EntriesOk(env, lock.entries)
    ensures verdict.Pass? <==> Locked(env, lock.entries, bytes) && VerticalOf(env, bytes) !in authenticated
    ensures verdict.Fail? ==>
      if VerticalOf(env, bytes) in authenticated && verdict.error == ManifestDuplicate then true
      else ByteFault(env, lock.entries, bytes, verdict.error)
  {
    hide EntriesOk, ValidManifest, ArtifactOk;
    var parsed := env.parseManifest(bytes);
    if parsed.None? {
      return Fail(ManifestJsonInvalid);
    }
    var manifest := parsed.value;
    var valid := ValidateManifest(env, manifest);
    if valid.Fail? {
      return Fail(ManifestInvalid(valid.error));
    }
    if manifest.verticalId in authenticated {
      return Fail(ManifestDuplicate);
    }
    EveryVerticalHasAnEntry(env, lock.entries, manifest.verticalId);
    var found := FindEntry(lock.entries, manifest.verticalId);
    AcceptedEntryIsOk(env, lock.entries, found.value);
    ValidManifestHeader(env, manifest);
    OnlyEntryDecides(env, lock.entries, found.value, bytes);
    verdict := CompareWithEntry(env, lock, manifest, found, bytes);
  }

  lemma OnlyEntryDecides(env: Env, entries: seq<LockEntry>, e: LockEntry, bytes: Bytes)
    requires EntriesOk(env, entries) && e in entries && e.verticalId == VerticalOf(env, bytes)
    requires env.parseManifest(bytes).Some? && ValidManifest(env, env.parseManifest(bytes).value)
    ensures Locked(env, entries, bytes) <==> Authenticates(env, e.manifest, bytes)
  {
    hide EntriesOk, ValidManifest;
    forall d | d in entries && d.verticalId == e.verticalId
      ensures d == e
    {
      EntryIsDetermined(env, entries, d, e);
    }
  }

  /** The two inner refusals need an absent entry, another class or another revision. */
  method CompareWithEntry(env: Env, lock: Lock, manifest: Manifest, found: Option<LockEntry>, bytes: Bytes)
    returns (verdict: Verdict<LockError>)
    requires found.Some? ==> ArtifactOk(env, found.value.manifest)
    ensures verdict == Fail(ManifestUnknown) <==> found.None?
    ensures verdict == Fail(ManifestInconsistent) <==>
      && found.Some?
      && (found.value.fixtureClass != manifest.fixtureClass || lock.contractRevision != manifest.contractRevision)
    ensures verdict.Pass? <==>
      && found.Some? && found.value.fixtureClass == manifest.fixtureClass
      && lock.contractRevision == manifest.contractRevision && Authenticates(env, found.value.manifest, bytes)
    ensures verdict.Fail? ==>
      verdict.error.ManifestUnknown? || verdict.error.ManifestInconsistent? || verdict.error.BytesRejected?
  {
    if found.None? {
      return Fail(ManifestUnknown);
    }
    var entry := found.value;
    if entry.fixtureClass != manifest.fixtureClass || lock.contractRevision != manifest.contractRevision {
      return Fail(ManifestInconsistent);
    }
    var checked := VerifyArtifactBytes(env, EntriesManifest, entry.manifest, bytes);
    return if checked.Pass? then Pass else Fail(BytesRejected(checked.error));
  }

  method ValidateStreams(env: Env, lock: Lock, streams: seq<Bytes>) returns (verdict: Verdict<LockError>)
    requires HeaderOk(env, lock) && EntriesOk(env, lock.entries)
    ensures verdict.Pass? <==> StreamsOk(env, lock.entries, streams)
    ensures verdict.Fail? ==> StreamFault(env, lock.entries, streams, verdict.error)
  {
    hide EntriesOk, Locked, Permuted, NoDuplicates, Collected, HeaderOk, VerticalOf, StreamFault, ByteFault;
    var authenticated: set<VerticalId> := {};
    CollectNone(StreamVerticals(env, streams));
    for i := 0 to |streams|
      invariant forall j :: 0 <= j < i ==> Locked(env, lock.entries, streams[j])
      invariant Collected(authenticated, StreamVerticals(env, streams), i)
    {
      assert streams[i] in streams;
      CollectNext(authenticated, StreamVerticals(env, streams), i);
      verdict := CheckStream(env, lock, streams[i], authenticated);
      if verdict.Fail? {
        RepeatedStream(env, lock.entries, streams);
        StreamExplained(env, lock.entries, streams, streams[i], verdict.error);
        return;
      }
      authenticated := authenticated + {VerticalOf(env, streams[i])};
    }
    CollectedAll(authenticated, StreamVerticals(env, streams));
    var missing := Missing(ALL_VERTICAL_IDS, authenticated);
    NothingMissingMeansPermuted(StreamVerticals(env, streams));
    hide ALL_VERTICAL_IDS;
    if missing != [] {
      MissingStreamsExplained(env, lock.entries, streams, missing);
      return Fail(ManifestsMissing(missing));
    }
    return Pass;
  }

  lemma AcceptedStreamsAreDistinct(env: Env, entries: seq<LockEntry>, streams: seq<Bytes>)
    requires StreamsOk(env, entries, streams)
    ensures NoDuplicates(StreamVerticals(env, streams)) && |streams| == 18
  {
    VerticalsAreListedOnce();
    hide NoDuplicates, Locked;
    PermutedKeepsBasics(StreamVerticals(env, streams), ALL_VERTICAL_IDS);
  }

  lemma RepeatedStream(env: Env, entries: seq<LockEntry>, streams: seq<Bytes>)
    ensures !NoDuplicates(StreamVerticals(env, streams)) ==> !StreamsOk(env, entries, streams)
  {
    hide StreamsOk, NoDuplicates;
    if StreamsOk(env, entries, streams) {
      AcceptedStreamsAreDistinct(env, entries, streams);
    }
  }

  /**
   Accepts exactly the accepted locks, and never complains without cause. The entry count never
   disagrees once no vertical is missing, a manifest always finds its entry, and the entry's class
   and revision always agree.
   */
  method ValidateLock(env: Env, lock: Lock, streams: seq<Bytes>) returns (verdict: Verdict<LockError>)
    ensures verdict.Pass? <==> LockAccepted(env, lock, streams)
    ensures verdict.Fail? ==> Explains(env, lock, streams, verdict.error)
    ensures verdict != Fail(EntriesInvalid) && verdict != Fail(ManifestUnknown) && verdict != Fail(ManifestInconsistent)
  {
    hide EntriesOk, StreamsOk;
    if lock.schema != LOCK_SCHEMA_V0 {
      return Fail(SchemaInvalid);
    }
    if !env.gitCommit(lock.protocolCommit) || !env.gitCommit(lock.contractRevision) {
      return Fail(CommitInvalid);
    }
    if lock.contractRevision != W1_CONTRACT_REVISION {
      return Fail(RevisionInvalid);
    }
    verdict := ValidateEntries(env, lock.entries);
    if verdict.Fail? {
      return;
    }
    verdict := ValidateStreams(env, lock, streams);
  }

  // ---------- what acceptance guarantees ----------

  lemma VerticalsOfPermuted(env: Env, one: seq<Bytes>, two: seq<Bytes>)
    requires Permuted(one, two)
    ensures Permuted(StreamVerticals(env, one), StreamVerticals(env, two))
    ensures forall b :: b in one <==> b in two
  {
    PermutedMap(one, two, (b: Bytes) => VerticalOf(env, b));
    PermutedKeepsBasics(one, two);
    assert forall b :: b in one <==> b in Elements(one);
  }

  lemma AllLockedIgnoresOrder(env: Env, entries: seq<LockEntry>, one: seq<Bytes>, two: seq<Bytes>)
    requires Permuted(one, two) && AllLocked(env, entries, one)
    ensures AllLocked(env, entries, two)
  {
    hide Locked;
    VerticalsOfPermuted(env, one, two);
  }

  lemma StreamsOkIgnoresOrder(env: Env, entries: seq<LockEntry>, one: seq<Bytes>, two: seq<Bytes>)
    requires Permuted(one, two) && StreamsOk(env, entries, one)
    ensures StreamsOk(env, entries, two)
  {
    hide AllLocked, StreamVerticals, ALL_VERTICAL_IDS;
    VerticalsOfPermuted(env, one, two);
    AllLockedIgnoresOrder(env, entries, one, two);
  }

  /** The order in which the manifests are supplied does not matter. */
  lemma StreamOrderIsIrrelevant(env: Env, lock: Lock, one: seq<Bytes>, two: seq<Bytes>)
    requires Permuted(one, two)
    ensures LockAccepted(env, lock, one) <==> LockAccepted(env, lock, two)
  {
    hide HeaderOk, EntriesOk, StreamsOk;
    if LockAccepted(env, lock, one) {
      StreamsOkIgnoresOrder(env, lock.entries, one, two);
    }
    if LockAccepted(env, lock, two) {
      StreamsOkIgnoresOrder(env, lock.entries, two, one);
    }
  }

  /** There are eighteen entries and eighteen streams. */
  lemma EighteenOfEach(env: Env, lock: Lock, streams: seq<Bytes>)
    requires LockAccepted(env, lock, streams)
    ensures |lock.entries| == 18 && |streams| == 18
  {
    hide HeaderOk, Locked, EntryOk, NoDuplicates;
    VerticalsAreListedOnce();
    AcceptedStreamsAreDistinct(env, lock.entries, streams);
    PermutedKeepsBasics(EntryVerticals(lock.entries), ALL_VERTICAL_IDS);
  }

  /** Every entry authenticates exactly one of the streams. */
  lemma EveryEntryHasOneStream(env: Env, lock: Lock, streams: seq<Bytes>, e: LockEntry) returns (i: nat)
    requires LockAccepted(env, lock, streams) && e in lock.entries
    ensures i < |streams| && Authenticates(env, e.manifest, streams[i]) && VerticalOf(env, streams[i]) == e.verticalId
    ensures forall j :: 0 <= j < |streams| && Authenticates(env, e.manifest, streams[j]) ==> j == i
  {
    hide HeaderOk, Locked, EntriesOk, Authenticates, NoDuplicates;
    EveryVerticalIsListed(e.verticalId);
    PermutedKeepsBasics(StreamVerticals(env, streams), ALL_VERTICAL_IDS);
    assert e.verticalId in Elements(StreamVerticals(env, streams));
    i :| i < |streams| && StreamVerticals(env, streams)[i] == e.verticalId;
    forall j | 0 <= j < |streams|
      ensures Authenticates(env, e.manifest, streams[j]) <==> j == i
    {
      AuthenticatedByOwnEntry(env, lock, streams, e, i, j);
    }
  }

  lemma AuthenticatedByOwnEntry(env: Env, lock: Lock, streams: seq<Bytes>, e: LockEntry, i: nat, j: nat)
    requires LockAccepted(env, lock, streams) && e in lock.entries
    requires i < |streams| && j < |streams| && VerticalOf(env, streams[i]) == e.verticalId
    ensures Authenticates(env, e.manifest, streams[j]) <==> j == i
  {
    var d := LockingEntry(env, lock, streams, j);
    AcceptedStreamsAreDistinct(env, lock.entries, streams);
    if j != i {
      assert StreamVerticals(env, streams)[j] != StreamVerticals(env, streams)[i];
      DigestsDiffer(env, lock.entries, d, e);
    } else {
      EntryIsDetermined(env, lock.entries, d, e);
    }
  }

  lemma LockingEntry(env: Env, lock: Lock, streams: seq<Bytes>, j: nat) returns (d: LockEntry)
    requires LockAccepted(env, lock, streams) && j < |streams|
    ensures d in lock.entries && d.verticalId == VerticalOf(env, streams[j])
    ensures Authenticates(env, d.manifest, streams[j])
    ensures EntriesOk(env, lock.entries) && StreamsOk(env, lock.entries, streams)
  {
    hide HeaderOk, EntriesOk, ValidManifest;
    assert Locked(env, lock.entries, streams[j]);
    d :| d in lock.entries && d.verticalId == VerticalOf(env, streams[j]) && Authenticates(env, d.manifest, streams[j]);
  }

  lemma DigestsDiffer(env: Env, entries: seq<LockEntry>, d: LockEntry, e: LockEntry)
    requires EntriesOk(env, entries) && d in entries && e in entries && d.verticalId != e.verticalId
    ensures d.manifest.digest.hex != e.manifest.digest.hex
  {
    hide EntryOk, Permuted;
    var i :| 0 <= i < |entries| && entries[i] == d;
    var j :| 0 <= j < |entries| && entries[j] == e;
    assert EntryDigests(entries)[i] != EntryDigests(entries)[j];
  }

  /** The accepted streams hash to pairwise different digests; in particular no manifest is supplied twice. */
  lemma StreamDigestsDiffer(env: Env, lock: Lock, streams: seq<Bytes>, i: nat, j: nat)
    requires LockAccepted(env, lock, streams) && i < j < |streams|
    ensures env.sha256(streams[i]) != env.sha256(streams[j]) && streams[i] != streams[j]
  {
    hide HeaderOk, EntriesOk, StreamsOk;
    var d := LockingEntry(env, lock, streams, i);
    var e := LockingEntry(env, lock, streams, j);
    AcceptedStreamsAreDistinct(env, lock.entries, streams);
    assert StreamVerticals(env, streams)[i] != StreamVerticals(env, streams)[j];
    DigestsDiffer(env, lock.entries, d, e);
  }

  lemma EveryStreamIsInBoth(env: Env, lock: Lock, one: seq<Bytes>, two: seq<Bytes>, i: nat)
    requires LockAccepted(env, lock, one) && LockAccepted(env, lock, two) && i < |one|
    requires forall j :: 0 <= j < |two| && env.sha256(one[i]) == env.sha256(two[j]) ==> one[i] == two[j]
    ensures one[i] in two
  {
    hide LockAccepted;
    var d := LockingEntry(env, lock, one, i);
    var j := EveryEntryHasOneStream(env, lock, two, d);
  }

  lemma StreamsDiffer(env: Env, lock: Lock, streams: seq<Bytes>)
    requires LockAccepted(env, lock, streams)
    ensures NoDuplicates(streams) && |streams| == 18
  {
    hide LockAccepted;
    EighteenOfEach(env, lock, streams);
    forall i, j | 0 <= i < j < |streams|
      ensures streams[i] != streams[j]
    {
      StreamDigestsDiffer(env, lock, streams, i, j);
    }
  }

  /**
   Two lists of manifests accepted under one lock are the same manifests in some order, unless the hash
   confuses one of the first with another of the second.
   */
  lemma LockDeterminesManifests(env: Env, lock: Lock, one: seq<Bytes>, two: seq<Bytes>)
    requires LockAccepted(env, lock, one) && LockAccepted(env, lock, two)
    requires forall i, j :: 0 <= i < |one| && 0 <= j < |two| && env.sha256(one[i]) == env.sha256(two[j]) ==>
               one[i] == two[j]
    ensures Permuted(one, two)
  {
    hide LockAccepted;
    StreamsDiffer(env, lock, one);
    StreamsDiffer(env, lock, two);
    forall i | 0 <= i < |one|
      ensures one[i] in two
    {
      EveryStreamIsInBoth(env, lock, one, two, i);
    }
    SubsetOfSameSize(one, two);
  }
}

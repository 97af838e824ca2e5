# Verification of the platform contracts

A Dafny model of four parts of the platform workspace, with proofs of what they promise:

- **Supervisor shutdown** (`Supervisor*.dfy`). The reference bridge as an interleaved step system, with any number of
  shutdown tasks in flight. Reserve calls
  take two critical sections with a thread spawn between them, workers meet their clients over channels of capacity
  zero, and shutdown waits on a condition variable, takes the join handles, drops the lock, joins and closes. Each
  thread has its own program counter; a run is any list of enabled steps. The critical sections are also methods of
  a class, proved equal to the functions the step system uses.
- **Operation registry** (`Registry*.dfy`). The index of live operations over the archive of attempts, its counters,
  cloned leases and drop-cancelling tickets. Each critical section is a function; a run is any sequence of calls, so
  it is any interleaving of calls by any threads. The adapter is also a class whose methods are proved equal to the
  functions.
- **Publication under faults** (`Faults.dfy`, `Publication*.dfy`). The runner, the reference adapter and the fault
  script. Beside the adapter's trace the model logs every fault point asked about and every boundary called, with its
  answer. A run is proved equal to one of ten endings read off the script, the destination and the request; all
  promises about single runs, lifetimes, traces and retries are proved from there. The adapter and the runner are
  also imperative code over an object, proved equal to the functions.
- **Accounting validators** (`ClosedSummary.dfy`, `Fixture*.dfy`). Loops over sets, maps and checked sums, proved to
  accept exactly what a declarative specification describes, including which of their branches can never be taken.

`Barrier.dfy` adds the deterministic barrier as a small monitor with any number of participants, one coordinator and
spurious wakeups. `Collections.dfy`, `ByteOrder.dfy`, `Identifiers.dfy`, `ProgressRing.dfy` and `Lifecycle.dfy` hold
what several parts share.

Where the code does not meet a property in general, the exact condition is proved instead; the first five come with a run or a
request that shows the failure:

- The joined worker ids equal the expected ones *as lists* only for at most nine workers (byte order puts
  `worker-10` before `worker-2`); as sets they always agree, which is what the accounting check compares.
  `AnyNumberOfWorkersCanBeJoined` has the runs.
- The injected corruption is undetected exactly when it changes nothing (digest of sixty-four `e`, length
  `u64::MAX`); `CorruptionCanGoUnnoticed` has the request.
- A run uses two faults exactly when the first is such a no-op and the run fails, so "one fault per failure" is exact
  only otherwise; "at most one failure per fault" always holds. `OneFailureCanUseTwoFaults` has the script.
- A shutdown of the bridge panics exactly when its take falls inside the join of another while there are workers;
  the others complete with the full accounting. `TwoShutdownsCanCollide` has the run.
- Progress publication through the bridge panics exactly when it was built with capacity zero, which only the
  registry refuses at construction. `ZeroCapacityPanics` has the run.
- The barrier lets everyone through exactly when as many participants come as were declared.

Strings are byte strings: one `char` stands for one byte. Integers are unbounded, with the widths of `u64` and
`usize` (64 bits) written out where the code checks them. Panics, failing `expect`s and assertions are explicit
results (`Panicked`, `Aborted`, `Crashed`, `WorkerPanicked`), so their absence is a theorem. SHA-256, the JSON
decoder and the character-level checks are parameters of the fixture model (`Env`): nothing proved depends on which
functions they are, except where a lemma says that two byte strings hash differently.

## Model

| member | source | states |
|---|---|---|
| SupervisorTheorems.EveryShutdownAccountsForEveryWorker | crates/platform-contract-testkit/src/compositional_lifecycle.rs:1002-1043 | In every interleaving of any number of shutdown tasks each one that completes reports a closed, empty supervisor; the joined worker ids are the expected ones in byte order, the accounting check passes, every worker has exited, all completed shutdowns report the same outcome, and the two id lists are equal as sequences iff there are at most nine workers |
| SupervisorLiveness.EveryMaximalRunCloses | crates/platform-contract-testkit/src/compositional_lifecycle.rs:1555-1571 | With cooperative clients every run is bounded by the environment's budgets; a run that can go no further has started every requested shutdown, each of which completed or panicked, seen every worker exit and, if a shutdown was requested, had one complete and close |
| SupervisorTheorems.ReachableStatesAreSafe | crates/platform-contract-testkit/src/compositional_lifecycle.rs:1002-1043 | In every reachable state: no worker has hit a failing `expect`, a sleeping shutdown still has a live attempt to wait for, an empty `active` outside a join means every expected worker has its handle in `tasks`, `Closed` is set iff a shutdown completed and means every worker recorded its terminal, left `active` and exited, and a panicked shutdown leaves another one joining or done |
| SupervisorTheorems.NoneActiveMeansNoHandleIsMissing | crates/platform-contract-testkit/src/compositional_lifecycle.rs:1416-1493 | When `active` is empty and nothing is being joined, `tasks` owns a handle for exactly the expected workers, although admission is two critical sections with a spawn between them |
| SupervisorTheorems.ClosedMeansEveryWorkerExited | crates/platform-contract-testkit/src/compositional_lifecycle.rs:1457-1484 | `Closed` implies every admitted worker exited, `active` and `tasks` are empty, and every record is Released with agreeing terminal projections |
| SupervisorAnswers.TerminalsFollowCommands | crates/platform-contract-testkit/src/compositional_lifecycle.rs:1457-1481 | Over every run, the terminal a record ends with is what the client's command asked for: Failed after a panic, which is caught, and otherwise the class the command named; and there was a command |
| SupervisorAnswers.CommandDecides | crates/platform-contract-testkit/src/compositional_lifecycle.rs:1457-1465 | The same for every worker that got a command, whoever owns the record by then |
| SupervisorAnswers.ReserveAnswers | crates/platform-contract-testkit/src/compositional_lifecycle.rs:1424-1432 | A reservation is refused iff the bridge is not running, a worker of that operation id has not recorded its terminal, or the numbers are used up; each refusal names the first that holds |
| SupervisorAnswers.AdmissionInFull | crates/platform-contract-testkit/src/compositional_lifecycle.rs:1433-1455 | What an admission adds, field by field: number, index entry, fresh unflagged record with its attempt id, expected worker id; a refusal adds nothing |
| SupervisorAnswers.PublishAnswers | crates/platform-contract-testkit/src/compositional_lifecycle.rs:1603-1616 | With a capacity above zero a publication succeeds iff the record's worker has not recorded its terminal; unknown operation iff there is no record |
| SupervisorAnswers.FlaggedIffQuiesced | crates/platform-contract-testkit/src/compositional_lifecycle.rs:988-1000 | In every reachable state a record without a terminal has its cancellation requested iff the bridge is no longer running |
| SupervisorTheorems.SleeperHasSomeoneToWaitFor | crates/platform-contract-testkit/src/compositional_lifecycle.rs:1004-1010 | No lost wakeup: a shutdown asleep on the condition variable implies a live attempt |
| SupervisorTheorems.ShutdownPanicsIffItTookInsideAnothersJoin | crates/platform-contract-testkit/src/compositional_lifecycle.rs:1011-1029 | With any number of shutdowns in flight, over every run, one panics iff its take fell inside the join of another while there are workers; no join and no other step panics it |
| SupervisorTheorems.StepCrashes | crates/platform-contract-testkit/src/compositional_lifecycle.rs:1011-1029 | The same for one step from any state that satisfies the invariant |
| SupervisorTheorems.AdmissionClosesForGood | crates/platform-contract-testkit/src/compositional_lifecycle.rs:988-1000 | Once quiescing or closed, no run admits another attempt or changes the expected worker ids |
| SupervisorLiveness.StepDecreases | crates/platform-contract-testkit/src/compositional_lifecycle.rs:1002-1043 | Every step of every thread strictly decreases one measure, notifications of all sleepers included |
| SupervisorLiveness.RunIsShort | crates/platform-contract-testkit/src/compositional_lifecycle.rs:1002-1043 | So a run is no longer than the measure of its start |
| SupervisorLiveness.RunConservesShutdowns | crates/platform-contract-testkit/src/compositional_lifecycle.rs:1555-1571 | Started and still-to-start shutdowns add up to the same number throughout a run |
| SupervisorLiveness.StuckMeansFinished | crates/platform-contract-testkit/src/compositional_lifecycle.rs:1002-1043 | No deadlock: if no thread can move, all calls were made, every worker exited and every shutdown completed or panicked |
| SupervisorTheorems.OutcomeIsComplete | crates/platform-contract-testkit/src/compositional_lifecycle.rs:1031-1043 | Under the invariant what a completed shutdown reported is the accounting of the present state, and passes its check |
| SupervisorWitnesses.AnyNumberOfWorkersCanBeJoined | crates/platform-contract-testkit/src/compositional_lifecycle.rs:1011-1035 | For every number of workers below the sequence limit there is a run in which a shutdown completes with exactly so many; its id lists are equal as sequences iff there are at most nine, so they do differ from ten on |
| SupervisorWitnesses.TwoShutdownsCanCollide | crates/platform-contract-testkit/src/compositional_lifecycle.rs:1011-1023 | There is a run with one worker and two shutdowns in which the second panics inside the join of the first, and the first completes all the same and accounts for the worker |
| SupervisorWitnesses.ZeroCapacityPanics | crates/platform-contract-testkit/src/compositional_lifecycle.rs:1611-1614 | With capacity zero there is a run to a state where publishing for a live attempt panics |
| SupervisorWitnesses.Complete | crates/platform-contract-testkit/src/compositional_lifecycle.rs:1002-1043 | Any run without reserve calls left can be continued until nothing can move |
| SupervisorSafety.StepKeepsInv | crates/platform-contract-testkit/src/compositional_lifecycle.rs:1416-1493 | The accounting invariant (index, records, handles, ids, phase) is kept by every step of every thread |
| SupervisorSafety.RunKeepsInv | crates/platform-contract-testkit/src/compositional_lifecycle.rs:1416-1493 | It therefore holds after every run |
| SupervisorSafety.NoneActiveMeansAllHandlesStored | crates/platform-contract-testkit/src/compositional_lifecycle.rs:1457-1493 | No live attempt means every reserve call has passed its second critical section, since commands travel only through returned operations |
| SupervisorSafety.TakenIsEveryWorker | crates/platform-contract-testkit/src/compositional_lifecycle.rs:1011-1023 | The handles taken by a shutdown are those of every expected worker, in byte order of the ids |
| SupervisorSafety.TakeInsideJoin | crates/platform-contract-testkit/src/compositional_lifecycle.rs:1011-1023 | Inside the join of another shutdown every slot is empty: a take fails iff there are workers, and then moves nothing |
| SupervisorSafety.CheckKeepsInv | crates/platform-contract-testkit/src/compositional_lifecycle.rs:1004-1024 | Deciding to sleep, taking all handles or panicking keeps the invariant, and it panics iff another shutdown is joining some worker |
| SupervisorSafety.JoinKeepsInv | crates/platform-contract-testkit/src/compositional_lifecycle.rs:1026-1029 | Joining the next handle never meets a panicked worker and keeps the invariant |
| SupervisorSafety.CloseKeepsInv | crates/platform-contract-testkit/src/compositional_lifecycle.rs:1031-1043 | Closing after the last join keeps the invariant |
| SupervisorSafety.CloseAgainKeepsInv | crates/platform-contract-testkit/src/compositional_lifecycle.rs:1031-1043 | A later close changes nothing in the shared state and reports the outcome of the present state, which is what the first one reported |
| SupervisorSafety.ClosingAgainChangesNothing | crates/platform-contract-testkit/src/compositional_lifecycle.rs:1011-1043 | A shutdown that closes after another has nothing queued to join |
| SupervisorProgress.RecordHoldsLatestPublished | crates/platform-contract-testkit/src/compositional_lifecycle.rs:1598-1617 | While a record belongs to one attempt its buffer is the last min(n, capacity) of its n successful publications, in order |
| SupervisorProgress.RecordIsFrozen | crates/platform-contract-testkit/src/compositional_lifecycle.rs:1457-1484 | Once an attempt recorded its terminal its whole record (phase, terminal, projection, progress) is unchanged over every run in which the operation id is not given to a later attempt |
| SupervisorProgress.ReleasedRecordRefusesProgress | crates/platform-contract-testkit/src/compositional_lifecycle.rs:1608-1610 | In a state where the terminal is recorded, a publication is refused and changes nothing |
| SupervisorProgress.PublishPanicsIffCapacityIsZero | crates/platform-contract-testkit/src/compositional_lifecycle.rs:1611-1614 | In every reachable state, publishing for a live attempt panics iff the bridge was built with capacity zero |
| SupervisorState.ReferenceSupervisorState.Admit | crates/platform-contract-testkit/src/compositional_lifecycle.rs:1422-1455 | First critical section of `reserve`: equals the specification function on state and refusal |
| SupervisorState.ReferenceSupervisorState.InsertTask | crates/platform-contract-testkit/src/compositional_lifecycle.rs:1484-1484 | Second critical section of `reserve` |
| SupervisorState.ReferenceSupervisorState.RecordRelease | crates/platform-contract-testkit/src/compositional_lifecycle.rs:1466-1481 | The worker's critical section; a missing record is the failing `expect` |
| SupervisorState.ReferenceSupervisorState.QuiesceInner | crates/platform-contract-testkit/src/compositional_lifecycle.rs:988-1000 | Moves Running to Quiescing and requests cancellation of every active record, in a loop |
| SupervisorState.ReferenceSupervisorState.TakeHandles | crates/platform-contract-testkit/src/compositional_lifecycle.rs:1011-1023 | Takes every handle in key order; fails iff some slot is already empty, and then exactly the handles before the first empty slot are gone |
| SupervisorState.ReferenceSupervisorState.CloseAfterJoin | crates/platform-contract-testkit/src/compositional_lifecycle.rs:1031-1043 | Drops each joined task, lists its worker, closes and reports |
| SupervisorState.ReferenceSupervisorState.PublishProgress | crates/platform-contract-testkit/src/compositional_lifecycle.rs:1598-1617 | Progress publication with its refusals and the panic of a zero capacity |
| Lifecycle.ShutdownOutcome.ValidateAcceptsExactAccounting | crates/platform-contract-testkit/src/model.rs:99-119 | The outcome check passes iff both id lists are duplicate-free, hold the same ids and the two scalar counts are their lengths |
| Identifiers.AttemptIdsDiffer | crates/platform-contract-testkit/src/model.rs:327-332 | `op#seq` determines both parts even when the operation id contains `#` |
| Identifiers.DecimalReadsBack | crates/platform-contract-testkit/src/model.rs:327-332 | A sequence number prints as the decimal digits that read back as it, without a leading zero |
| Identifiers.WorkerIdsAreDistinct | crates/platform-contract-testkit/src/compositional_lifecycle.rs:1433-1433 | `worker-N` ids are pairwise distinct |
| Identifiers.JoinOrderEqualsAdmissionOrderUpToNine | crates/platform-contract-testkit/src/compositional_lifecycle.rs:1011-1035 | The byte-ordered joined list equals the admission-ordered expected list as sequences iff there are at most nine workers |
| Identifiers.AdmissionOrderIsByteOrderUpToNine | crates/platform-contract-testkit/src/compositional_lifecycle.rs:1430-1452 | Admission order is byte order exactly while the worker numbers have one digit |
| ByteOrder.AscendingIsUnique | crates/platform-contract-testkit/src/compositional_lifecycle.rs:1011-1023 | A set of ids has one strictly ascending listing, which is what iterating the task map yields |
| ProgressRing.PushRefinesHistory | crates/platform-contract-testkit/src/model.rs:387-399 | Dropping the oldest value of a full buffer before appending keeps the buffer equal to the tail of the full history |
| Registry.ReachableStatesAreSound | crates/platform-contract-testkit/src/model.rs:312-357 | After any sequence of calls by any threads on a fresh adapter the invariant holds, no counter `expect` or underflow can fire and a refused call changes nothing |
| Registry.StepKeepsValid | crates/platform-contract-testkit/src/model.rs:312-470 | Index and archive agree, retained = |active|, joined = Released attempts, and together they are all admissions: kept by every critical section, none of which panics |
| Registry.RunKeepsValid | crates/platform-contract-testkit/src/model.rs:312-470 | The same after every run |
| Registry.RefusalChangesNothing | crates/platform-contract-testkit/src/model.rs:430-447 | Every refusal of every operation leaves the whole state unchanged; the late stale-lease branch of `release`, after two mutations, is dead |
| Registry.ReserveKeepsValid | crates/platform-contract-testkit/src/model.rs:312-357 | Admission keeps the invariant and its retained-count check never fires |
| Registry.ReleaseKeepsValid | crates/platform-contract-testkit/src/model.rs:430-447 | Release keeps the invariant and neither counter arithmetic fails |
| Registry.QuiesceKeepsValid | crates/platform-contract-testkit/src/model.rs:449-461 | Quiescing keeps the invariant, every pending attempt becoming cancellation-requested |
| Registry.CloseKeepsValid | crates/platform-contract-testkit/src/model.rs:463-470 | The closing section keeps the invariant and its sum never overflows |
| Registry.Operation.Snapshot | crates/platform-contract-testkit/src/model.rs:257-266 | Both terminal projections of a snapshot always agree |
| RegistryAnswers.ReserveAnswers | crates/platform-contract-testkit/src/model.rs:316-326 | A reservation succeeds iff the adapter runs, no attempt of the operation id is unreleased and a number is left; each refusal names the first of these that fails |
| RegistryAnswers.AdmissionInFull | crates/platform-contract-testkit/src/model.rs:327-352 | What an admission adds, field by field, and that nothing else changes |
| RegistryAnswers.LeaseCallAnswers | crates/platform-contract-testkit/src/model.rs:367-447 | `queue`, `start`, `publish_progress`, `terminal`, `record_executor_panic` and `release` succeed iff the lease is the attempt's identity and its phase the one demanded; unknown, stale and invalid-transition refusals have their exact conditions; cancellation and shutdown play no part |
| RegistryAnswers.LeaseCallInFull | crates/platform-contract-testkit/src/model.rs:367-447 | A successful call changes its own attempt, field by field, and nothing else but what a release delists and counts |
| RegistryAnswers.CancelSetsTheFlag | crates/platform-contract-testkit/src/model.rs:516-527 | A cancellation sets the flag of the ticket's own attempt if that has not ended, and does nothing else |
| RegistryAnswers.QuiesceFlagsThePending | crates/platform-contract-testkit/src/model.rs:449-461 | Quiescing flags every attempt that has not ended and changes nothing else of any attempt |
| RegistryAnswers.FlagsAreSetByRequests | crates/platform-contract-testkit/src/model.rs:401-461 | A flag is set iff a request reaches its attempt before the end; no other call sets or clears one |
| RegistryAnswers.TimeoutChangesNothing | crates/platform-contract-testkit/src/model.rs:412-420 | A waiter's timeout is refused iff the attempt is unknown, and changes nothing |
| RegistryAnswers.EveryReachableStateCanClose | crates/platform-contract-testkit/src/model.rs:449-470 | From every reachable state, quiesced or not and with whatever is pending or flagged, some calls release everything and close |
| RegistryRuns.HistoryWalksTheChain | crates/platform-contract-testkit/src/model.rs:367-447 | The phases an attempt enters over any run form a stretch of Reserved, Queued, Running, Terminal, Released: one at a time and never back |
| RegistryRuns.OneTerminalPerAttempt | crates/platform-contract-testkit/src/model.rs:268-284 | However many leases race, at most one terminal or panic call ever succeeds per attempt, and what it set is what the attempt carries from then on |
| RegistryRuns.StepEvolves | crates/platform-contract-testkit/src/model.rs:243-284 | One step moves an attempt at most one phase forward, never alters a terminal, never withdraws a cancellation request |
| RegistryRuns.EndedIsFrozen | crates/platform-contract-testkit/src/model.rs:387-447 | Once an attempt has its terminal, its terminal, progress and cancellation flag are unchanged over every run; all that can still happen to it is its release |
| RegistryRuns.CurrentSnapshotIsTheLiveAttempt | crates/platform-contract-testkit/src/model.rs:488-492 | `current_snapshot` shows the phase, flag, terminal and progress of the one unreleased attempt of the operation id, and answers only if there is one |
| RegistryRuns.LeaseSnapshotOutlivesTheAttempt | crates/platform-contract-testkit/src/model.rs:494-500 | `lease_snapshot` shows the lease's own attempt as it is after any run, released or not, whoever has the operation id by then; after the terminal it shows the same terminal, flag and progress for ever |
| RegistryRuns.LeaseFindsItsAttempt | crates/platform-contract-testkit/src/model.rs:494-500 | It shows every field of the attempt, and nothing for any other identity with the same number |
| RegistryRuns.StepAdmits | crates/platform-contract-testkit/src/model.rs:312-357 | Attempts enter the archive only by admission, Reserved and empty, under the next sequence number |
| RegistryRuns.ReleasedLeaseIsInertForever | crates/platform-contract-testkit/src/model.rs:243-255 | After Released, any later call with the attempt's lease is refused as stale and its ticket does nothing, even when the operation id is reserved again |
| RegistryRuns.QuiescedOnlyShrinks | crates/platform-contract-testkit/src/model.rs:449-470 | After `quiesce` no run adds an attempt, the active set only shrinks and every pending attempt stays cancellation-requested |
| RegistryRuns.ClosedIsFrozen | crates/platform-contract-testkit/src/model.rs:463-470 | From `Closed` the entire state and all later shutdown facts are frozen |
| RegistryRuns.CloseReports | crates/platform-contract-testkit/src/model.rs:503-514 | The closing section reports `Closed` iff no attempt is active, with counts that are the true ones |
| RegistryRuns.ShutdownReportsTheTruth | crates/platform-contract-testkit/src/model.rs:463-470 | A shutdown as two atomic steps with any calls between them closes iff those calls drained the index, and reports the counts of that moment |
| RegistryRuns.BufferIsLatestPublished | crates/platform-contract-testkit/src/model.rs:387-399 | Over any run an attempt's buffer is the last min(n, capacity) of its n successful publications in order |
| RegistryRuns.AdmissionsAreNumbered | crates/platform-contract-testkit/src/model.rs:320-332 | The i-th admission of a run gets the i-th sequence number, without gaps |
| RegistryRuns.AttemptIdsAreDistinct | crates/platform-contract-testkit/src/model.rs:327-332 | No two reservations of a run share an attempt id |
| RegistryAdapter.ReferenceAdapter.Reserve | crates/platform-contract-testkit/src/model.rs:312-357 | `reserve` on the object equals the specification step |
| RegistryAdapter.ReferenceAdapter.Queue | crates/platform-contract-testkit/src/model.rs:367-375 | `queue` |
| RegistryAdapter.ReferenceAdapter.Start | crates/platform-contract-testkit/src/model.rs:377-385 | `start` |
| RegistryAdapter.ReferenceAdapter.PublishProgress | crates/platform-contract-testkit/src/model.rs:387-399 | `publish_progress` with the ring update |
| RegistryAdapter.ReferenceAdapter.RequestCancellation | crates/platform-contract-testkit/src/model.rs:516-527 | Cancellation by identity, silent on mismatch |
| RegistryAdapter.ReferenceAdapter.ConsumerDrop | crates/platform-contract-testkit/src/model.rs:406-410 | Consumer drop is two cancellation sections: the explicit one and the ticket's destructor |
| RegistryAdapter.ReferenceAdapter.WaiterTimeout | crates/platform-contract-testkit/src/model.rs:412-420 | A waiter's timeout changes nothing |
| RegistryAdapter.ReferenceAdapter.TerminalInner | crates/platform-contract-testkit/src/model.rs:268-284 | Sets the terminal of a Running attempt and nothing else |
| RegistryAdapter.ReferenceAdapter.Release | crates/platform-contract-testkit/src/model.rs:430-447 | `release`, in the source's order of mutations and checks |
| RegistryAdapter.ReferenceAdapter.Quiesce | crates/platform-contract-testkit/src/model.rs:449-461 | `quiesce` with its loop over the index |
| RegistryAdapter.ReferenceAdapter.Shutdown | crates/platform-contract-testkit/src/model.rs:463-470 | `shutdown` when no call falls between its two sections |
| RegistryAdapter.ReferenceAdapter.CloseIfDrained | crates/platform-contract-testkit/src/model.rs:463-470 | The second section of `shutdown` |
| Faults.FiresLongestEmbeddedPrefix | crates/platform-contract-testkit/src/fault.rs:35-41 | The faults that fire over any list of queries are exactly the longest script prefix that embeds in it as a subsequence |
| Faults.EmbedsGreedily | crates/platform-contract-testkit/src/fault.rs:35-41 | Matching a query at once is never worse than skipping it |
| Faults.FaultScript.Hit | crates/platform-contract-testkit/src/fault.rs:35-41 | Pops the front iff it is the queried point |
| PublicationContracts.ValidCodeIffEveryPart | crates/platform-contracts-v0/src/error.rs:90-102 | A code is valid iff each of its dot-separated parts is a nonempty run of code bytes |
| PublicationContracts.OutcomeValidIff | crates/platform-contracts-v0/src/publication.rs:199-228 | The outcome check accepts exactly the outcomes described field by field: published needs both syncs, durability unknown an unsynced directory and an error of the publication class, and receipts and errors their own conditions |
| PublicationContracts.ReceiptValidIff | crates/platform-contracts-v0/src/publication.rs:132-147 | The receipt check in fields: schema, bounded ids, digest, visible, and no directory sync without a file sync |
| PublicationContracts.ErrorValidIff | crates/platform-contracts-v0/src/error.rs:81-102 | The service-error check in fields: schema, bounded code of valid parts, bounded detail |
| PublicationContracts.ArtifactValidIff | crates/platform-contracts-v0/src/publication.rs:41-46 | The artifact check in fields: an id of 1 to 256 bytes and sixty-four lower-case hexadecimal digits |
| PublicationContracts.DestinationValidIff | crates/platform-contracts-v0/src/publication.rs:81-84 | The destination check in fields |
| PublicationEndings.RunIsItsEnding | crates/platform-contract-testkit/src/publication_suite.rs:102-171 | A run that is not refused is exactly one of ten endings, read off the script, the destination and the request: final script, stages, visible entry, outcome, appended trace, every fault point asked about and every boundary called with its answer; no `expect` or assertion of the runner fails unless the request is malformed or stage numbers run out |
| PublicationEndings.RecoveryIsItsEnding | crates/platform-contract-testkit/src/publication_suite.rs:107-125 | The occupied-destination half of that refinement |
| PublicationEndings.FreshIsItsEnding | crates/platform-contract-testkit/src/publication_suite.rs:127-171 | The fresh half: stage, verify, sync, publish, inspect, parent sync, clean up |
| PublicationEndings.EveryOutcomeIsValid | crates/platform-contracts-v0/src/publication.rs:199-228 | The canonical-outcome check never fires for a valid request |
| PublicationEndings.CorruptionIsUndetectedIffNoOp | crates/platform-contract-testkit/src/publication_suite.rs:460-486 | The injected corruption passes verification iff it is a no-op: digest all `e` and saturated length |
| PublicationEndings.CorruptionInFields | crates/platform-contract-testkit/src/publication_suite.rs:471-475 | What the corruption writes: sixty-four `e` and a length one larger, saturating; so it is a no-op iff the artifact has that digest and the length `u64::MAX` |
| PublicationEndings.VerifyInStage | crates/platform-contract-testkit/src/publication_suite.rs:460-486 | What verification leaves in the stage and answers, under any script |
| PublicationEndings.PublishInStage | crates/platform-contract-testkit/src/publication_suite.rs:498-518 | Publishing a synced stage to an empty destination: invisible, visible but reported failed, or visible |
| PublicationEndings.CleanupInStage | crates/platform-contract-testkit/src/publication_suite.rs:538-544 | Cleaning up restores the stage map to what it was before the run |
| PublicationTheorems.NotPublishedIffNotVisible | crates/platform-contract-testkit/src/publication_suite.rs:102-171 | A run answers `NotPublished` iff the final visible entry is not the requested content |
| PublicationTheorems.RunNeverClobbers | crates/platform-contract-testkit/src/publication_suite.rs:498-518 | A visible entry is never replaced, only the requested artifact becomes visible, the stage map is restored and stage numbers only grow |
| PublicationTheorems.ReceiptsAreHonest | crates/platform-contract-testkit/src/publication_suite.rs:294-309 | A receipt names the request and claims recovery iff the content was visible before the run |
| PublicationTheorems.ConflictIffOccupiedBefore | crates/platform-contract-testkit/src/publication_suite.rs:107-112 | A conflict is answered iff the entry visible before the run differs from the requested artifact in digest or length; the run then touches nothing but the trace, and the conflict arm after a failed publication is dead |
| PublicationTheorems.IdsDoNotMatter | crates/platform-contract-testkit/src/publication_suite.rs:290-292 | Runs whose visible entries and requests have the same digests and lengths, under whatever artifact ids, reach the same ending, use the same faults and log the same |
| PublicationTheorems.ErrorsSayWhy | crates/platform-contract-testkit/src/publication_suite.rs:546-594 | The error of an outcome, field by field: conflict if something was visible, mismatch if the verification call failed, not visible otherwise, durability unknown for a visible but unsure artifact |
| PublicationTheorems.RefusedIffMalformedOrExhausted | crates/platform-contract-testkit/src/publication_suite.rs:19-28 | A run panics iff the request breaks the artifact's or the destination's bounds, written out in fields, or a stage number is needed and none is left |
| PublicationTheorems.PublishedIffNothingFired | crates/platform-contract-testkit/src/publication_suite.rs:102-171 | `Published` iff nothing is in the way and no fault fired, except a corruption that is a no-op |
| PublicationTheorems.FailuresConsumeFaults | crates/platform-contract-testkit/src/publication_suite.rs:102-171 | A run that meets no conflict uses up one fault if it fails and none if it publishes, plus one if a corruption that changes nothing fires |
| PublicationTheorems.OneFailureCanUseTwoFaults | crates/platform-contract-testkit/src/publication_suite.rs:462-491 | A concrete run that fails once and uses up two faults |
| PublicationTheorems.VerificationFailsIffCorrupted | crates/platform-contract-testkit/src/publication_suite.rs:460-486 | The verification call of a run fails iff a corruption fires that changes something |
| PublicationTheorems.NoOpCorruptionGoesUnnoticed | crates/platform-contract-testkit/src/publication_suite.rs:462-476 | Whenever a fired corruption is a no-op, under any script, verification passes and the run publishes iff no further fault fires |
| PublicationTheorems.CorruptionCanGoUnnoticed | crates/platform-contract-testkit/src/publication_suite.rs:462-476 | A concrete valid request for which that happens |
| PublicationTheorems.RunDrainsWhatItAsked | crates/platform-contract-testkit/src/publication_suite.rs:405-409 | Any run, refused or not, takes from the script exactly what the points it logged as asked about take |
| PublicationHistories.VisibleIsForever | crates/platform-contract-testkit/src/publication_suite.rs:420-423 | Over any lifetime of injections, seeds and runs a visible entry never changes |
| PublicationHistories.StagesAreRestored | crates/platform-contract-testkit/src/publication_suite.rs:538-544 | Over any lifetime no run leaves a stage behind and fresh stage numbers never collide |
| PublicationHistories.AtMostOneFirstPublication | crates/platform-contract-testkit/src/publication_suite.rs:294-309 | At most one receipt of a lifetime has `idempotent_recovery` false, and none once something is visible |
| PublicationHistories.TraceStaysLawful | crates/platform-contract-testkit/src/publication_suite.rs:412-544 | Over any lifetime the adapter's trace names the runner's calls, publication is called only straight after a verification and a staged sync that passed, and a parent sync only after a visible-file sync or a publication that passed |
| PublicationHistories.StageIsCleanedOnceAndLast | crates/platform-contract-testkit/src/publication_suite.rs:138-171 | The word a run appends to the trace creates a stage iff nothing was visible, second, and then cleans up exactly once, last; the stages are restored |
| PublicationHistories.StagesBalance | crates/platform-contract-testkit/src/publication_suite.rs:138-171 | Over any lifetime as many stages are cleaned up as were created |
| PublicationHistories.SyncFlagsAreHonest | crates/platform-contract-testkit/src/publication_suite.rs:320-331 | The sync flags of an outcome say which sync calls of this very run passed; `Published` iff both |
| PublicationHistories.AtMostOneFailurePerFault | crates/platform-contract-testkit/src/publication_suite.rs:102-171 | For any script of n faults and a destination that is empty or holds the content, at most n of any retries fail; exactly as many as faults fired unless corruption is a no-op |
| PublicationHistories.EveryFaultCanCostARun | crates/platform-contract-testkit/src/publication_suite.rs:488-491 | The bound is met: n staged-sync faults make exactly n retries fail |
| PublicationHistories.ConflictsNeverResolve | crates/platform-contract-testkit/src/publication_suite.rs:107-112 | Against other content every retry conflicts, and only the trace changes |
| PublicationHistories.RunsFireLongestEmbeddedPrefix | crates/platform-contract-testkit/src/fault.rs:35-41 | Over any series of runs the fired faults are the longest script prefix embedded in the logged points the runs asked about |
| PublicationHistories.RunAsksItsBoundaries | crates/platform-contract-testkit/src/publication_suite.rs:405-536 | The points one run asks about: each boundary it reaches once, in order, until one stops it |
| PublicationAdapter.ReferencePublicationAdapter.InjectFault | crates/platform-contract-testkit/src/publication_suite.rs:416-418 | Replaces the script by one point; equals the specification function on the whole state |
| PublicationAdapter.ReferencePublicationAdapter.SeedVisible | crates/platform-contract-testkit/src/publication_suite.rs:420-423 | Seeds an empty destination; equals the specification function on the whole state |
| PublicationAdapter.ReferencePublicationAdapter.Hit | crates/platform-contract-testkit/src/publication_suite.rs:405-409 | One query of the script; equals the specification function on the whole state |
| PublicationAdapter.ReferencePublicationAdapter.InspectVisible | crates/platform-contract-testkit/src/publication_suite.rs:425-431 | Traces and answers the visible entry; equals the specification function on the whole state |
| PublicationAdapter.ReferencePublicationAdapter.CreatePrivateSiblingStage | crates/platform-contract-testkit/src/publication_suite.rs:433-454 | Opens a private owned stage under a new number; equals the specification function on the whole state |
| PublicationAdapter.ReferencePublicationAdapter.VerifyExact | crates/platform-contract-testkit/src/publication_suite.rs:460-486 | Verification after a possible corruption; equals the specification function on the whole state |
| PublicationAdapter.ReferencePublicationAdapter.SyncStagedFile | crates/platform-contract-testkit/src/publication_suite.rs:488-496 | Staged sync; equals the specification function on the whole state |
| PublicationAdapter.ReferencePublicationAdapter.PublishNoClobber | crates/platform-contract-testkit/src/publication_suite.rs:498-518 | Publication, with its four refusals and two fault points; equals the specification function on the whole state |
| PublicationAdapter.ReferencePublicationAdapter.SyncVisibleFile | crates/platform-contract-testkit/src/publication_suite.rs:520-527 | Visible-file sync; equals the specification function on the whole state |
| PublicationAdapter.ReferencePublicationAdapter.SyncParentDirectory | crates/platform-contract-testkit/src/publication_suite.rs:529-536 | Parent sync, two fault points; equals the specification function on the whole state |
| PublicationAdapter.ReferencePublicationAdapter.CleanupOwnedStage | crates/platform-contract-testkit/src/publication_suite.rs:538-544 | Removes the stage or reports it unknown; equals the specification function on the whole state |
| PublicationAdapter.RunPublicationModel | crates/platform-contract-testkit/src/publication_suite.rs:102-171 | The runner driving the object boundary by boundary equals the run function all theorems are about |
| PublicationAdapter.AdoptVisible | crates/platform-contract-testkit/src/publication_suite.rs:107-125 | Its recovery half |
| PublicationAdapter.PublishStage | crates/platform-contract-testkit/src/publication_suite.rs:138-171 | Its fresh half from verification on |
| ClosedSummary.Validate | crates/platform-contracts-v0/src/shutdown.rs:185-286 | Accepts iff the declarative account holds (valid resources, unique ids, exact natural sums fitting usize, every failure naming a declared resource of its service, Failed iff some failure names it); every complaint is explained, and the joined-workers overflow and the final success check never complain |
| ClosedSummary.ResourceValidIff | crates/platform-contracts-v0/src/shutdown.rs:70-86 | The resource check in fields: identifier alphabet and bounds, joined at most expected, equal once stopped |
| ClosedSummary.FailureValidIff | crates/platform-contracts-v0/src/shutdown.rs:124-134 | The failure check in fields: both identifiers, an acceptable error, and the error of the failure's own service |
| ClosedSummary.FailuresKeepToTheirService | crates/platform-contracts-v0/src/shutdown.rs:128-263 | In an accepted summary a failure, its error and the resource it names are of one service, and that resource failed |
| ClosedSummary.ScanResources | crates/platform-contracts-v0/src/shutdown.rs:211-233 | The first loop: index and both running sums, with the overflow of the joined sum unreachable because joined never exceeds expected |
| ClosedSummary.ScanFailures | crates/platform-contracts-v0/src/shutdown.rs:245-269 | The second loop: accepted iff failure ids are unique and each failure is valid and declared |
| ClosedSummary.ScanStates | crates/platform-contracts-v0/src/shutdown.rs:271-284 | The third loop: accepted iff a resource is Failed exactly when named |
| ClosedSummary.NoFailuresMeansAllJoined | crates/platform-contracts-v0/src/shutdown.rs:275-284 | Why the final check is dead: without failures every resource stopped and the totals agree |
| ClosedSummary.AcceptanceIgnoresOrder | crates/platform-contracts-v0/src/shutdown.rs:185-286 | Permuting resources or failures changes nothing |
| ClosedSummary.SuccessMeansEveryoneStopped | crates/platform-contracts-v0/src/shutdown.rs:288-291 | An accepted summary succeeded iff every resource stopped; then all workers joined |
| ClosedSummary.MissingWorkersAreExplained | crates/platform-contracts-v0/src/shutdown.rs:245-284 | A resource missing workers is named by a failure of its own service |
| ClosedSummary.TotalsDifferSomewhere | crates/platform-contracts-v0/src/shutdown.rs:234-243 | Differing totals mean some resource is missing workers |
| Barrier.NobodyPassesEarly | crates/platform-contract-testkit/src/barrier.rs:31-48 | No participant passes before the declared number arrived, however many take part |
| Barrier.NoLostWakeup | crates/platform-contract-testkit/src/barrier.rs:43-58 | No participant or coordinator sleeps on a condition that already holds |
| Barrier.NoAssertionFails | crates/platform-contract-testkit/src/barrier.rs:34-42 | With no more participants than declared, no assertion fails in any interleaving |
| Barrier.MaximalRunsFinishIffExact | crates/platform-contract-testkit/src/barrier.rs:31-66 | A run with nothing left to do let everyone through iff as many took part as declared; an assertion failed iff more did; with fewer everybody sleeps on |
| Barrier.RunsAreShort | crates/platform-contract-testkit/src/barrier.rs:31-66 | Every run is no longer than the measure of its start |
| Barrier.StepKeepsInv | crates/platform-contract-testkit/src/barrier.rs:31-66 | The monitor's invariant is kept by every step, spurious wakeups included |
| Barrier.StepDecreases | crates/platform-contract-testkit/src/barrier.rs:31-66 | Every step decreases one measure |
| Barrier.DeterministicBarrier.Arrive | crates/platform-contract-testkit/src/barrier.rs:31-42 | One arrival up to the wait, with both assertions |
| Barrier.DeterministicBarrier.Release | crates/platform-contract-testkit/src/barrier.rs:60-66 | Releases iff all have arrived |
| FixtureTypes.VerticalsAreListedOnce | crates/platform-vertical-fixtures-v0/src/model.rs:41-60 | The list of verticals has eighteen entries without repetition |
| FixtureTypes.EveryVerticalIsListed | crates/platform-vertical-fixtures-v0/src/model.rs:41-60 | Every vertical is on the list |
| FixtureTypes.ClassesFollowTheList | crates/platform-vertical-fixtures-v0/src/model.rs:62-90 | The first eight verticals need no model, the next four a real one, the last six are about stored state |
| FixtureTypes.ValidateArtifact | crates/platform-vertical-fixtures-v0/src/validation.rs:1109-1117 | Accepts iff the id is safe and the artifact meets its bounds, in fields |
| FixtureTypes.VerifyArtifactBytes | crates/platform-vertical-fixtures-v0/src/validation.rs:1119-1133 | Accepts iff the identity is acceptable and the bytes have its length and hash |
| FixtureTypes.ValidateUniqueById | crates/platform-vertical-fixtures-v0/src/validation.rs:1266-1280 | The generic uniqueness loop accepts iff all values are valid and their ids distinct |
| FixtureProjection.ValidateProjection | crates/platform-vertical-fixtures-v0/src/validation.rs:697-713 | Accepts iff the declarative projection spec holds |
| FixtureProjection.ValidateEvents | crates/platform-vertical-fixtures-v0/src/validation.rs:715-740 | Accepts iff nonempty, numbered by position and well formed |
| FixtureProjection.ValidateEvent | crates/platform-vertical-fixtures-v0/src/validation.rs:724-737 | Accepts iff every id present is safe and a payload acceptable |
| FixtureProjection.ValidTransition | crates/platform-vertical-fixtures-v0/src/validation.rs:763-777 | The disposition table says: something was there unless created, is there unless removed, the same if unchanged and different if updated |
| FixtureProjection.ValidateOwnership | crates/platform-vertical-fixtures-v0/src/validation.rs:1032-1049 | Accepts iff nothing is active or retained and all workers joined |
| FixtureProjection.ValidateOutputFacts | crates/platform-vertical-fixtures-v0/src/validation.rs:1051-1071 | Accepts iff nonempty, with safe names, valid texts and valid digests |
| FixtureProjection.ValidateDurableState | crates/platform-vertical-fixtures-v0/src/validation.rs:742-785 | Accepts iff nonempty, ids unique and each disposition agrees with before and after |
| FixtureProjection.ValidateLifecycle | crates/platform-vertical-fixtures-v0/src/validation.rs:787-814 | Accepts iff nonempty, all released and (operation, attempt) unique |
| FixtureProjection.ValidateEventLifecycleBinding | crates/platform-vertical-fixtures-v0/src/validation.rs:816-847 | The two identity sets are equal iff every event has a row and every row an event |
| FixtureProjection.CorrelationIsAFunction | crates/platform-vertical-fixtures-v0/src/validation.rs:787-847 | In an accepted projection the correlation id is a function of (operation, attempt) across all events |
| FixtureProjection.EveryEventHasOneRow | crates/platform-vertical-fixtures-v0/src/validation.rs:787-847 | Every event belongs to exactly one lifecycle row |
| FixtureProjection.IdentitiesMatchRows | crates/platform-vertical-fixtures-v0/src/validation.rs:816-847 | There are exactly as many distinct event identities as lifecycle rows |
| FixtureProjection.EveryRowHasAPosition | crates/platform-vertical-fixtures-v0/src/validation.rs:880-889 | `event_position` is defined for every row of an accepted projection |
| FixtureProjection.PositionFrom | crates/platform-vertical-fixtures-v0/src/validation.rs:880-889 | The position is that of the first matching event, and absent iff none matches |
| FixtureProjection.RetryAcceptsIffRetried | crates/platform-vertical-fixtures-v0/src/validation.rs:849-878 | The retry check accepts iff there are a Cancelled row and a Completed row of different operations, both with attempt ids and different ones, with the same correlation id that is present, such that some event of the first precedes every event of the second |
| FixtureManifest.ValidateManifest | crates/platform-vertical-fixtures-v0/src/validation.rs:93-150 | Accepts iff the declarative manifest spec holds |
| FixtureManifest.ValidateCase | crates/platform-vertical-fixtures-v0/src/validation.rs:606-638 | Accepts iff the declarative case spec holds |
| FixtureManifest.ValidateFixtureArtifact | crates/platform-vertical-fixtures-v0/src/validation.rs:646-658 | Accepts iff the identity is acceptable and a path is given exactly for checked-in artifacts |
| FixtureManifest.ValidatePrerequisite | crates/platform-vertical-fixtures-v0/src/validation.rs:961-965 | Accepts iff the id is safe and allowed and the identity acceptable |
| FixtureManifest.ValidateSource | crates/platform-vertical-fixtures-v0/src/validation.rs:640-644 | Accepts iff repository id, commit and tree are acceptable |
| FixtureManifest.RequireFindsIt | crates/platform-vertical-fixtures-v0/src/validation.rs:1012-1030 | Looking only at the first prerequisite of a name decides whether the case declares it, given unique names |
| FixtureManifest.RowPrerequisitesDecided | crates/platform-vertical-fixtures-v0/src/validation.rs:967-1010 | The per-row prerequisite table is decided by those lookups |
| FixtureEvidence.ValidateObservation | crates/platform-vertical-fixtures-v0/src/validation.rs:161-214 | Accepts iff the declarative observation spec holds |
| FixtureEvidence.ValidateExecution | crates/platform-vertical-fixtures-v0/src/validation.rs:190-203 | Accepts iff nothing ran over the network, a model-free row ran on fixtures and a real row locally |
| FixtureEvidence.BoundIffPermuted | crates/platform-vertical-fixtures-v0/src/validation.rs:891-915 | Equal lengths and every expected prerequisite found mean the observed prerequisites are a permutation of the case's, and conversely |
| FixtureEvidence.LookupInUnique | crates/platform-vertical-fixtures-v0/src/validation.rs:901-905 | The collected map answers membership exactly when names are unique |
| FixtureEvidence.AuthenticateExactPrerequisites | crates/platform-vertical-fixtures-v0/src/validation.rs:917-959 | Accepts iff token names are well formed and unique and the tokens are a permutation of those of the exact-external prerequisites |
| FixtureEvidence.TokensBiject | crates/platform-vertical-fixtures-v0/src/validation.rs:935-957 | Accepted tokens are exactly those of the exact-external prerequisites, one each |
| FixtureEvidence.VerifyPrerequisiteChunks | crates/platform-vertical-fixtures-v0/src/validation.rs:474-517 | The streamed check answers exactly what the whole artifact would, whatever the chunks |
| FixtureEvidence.CutsAreInvisible | crates/platform-vertical-fixtures-v0/src/validation.rs:466-469 | Cutting a chunk in two or inserting empty chunks changes nothing |
| FixtureEvidence.TokenMeansAuthentic | crates/platform-vertical-fixtures-v0/src/validation.rs:1119-1133 | A token is earned iff the declaration is well formed and the bytes have its length, a 64-bit number, and its hash; it names that prerequisite and identity |
| FixtureBaseline.ValidateBaseline | crates/platform-vertical-fixtures-v0/src/validation.rs:314-337 | Accepts iff manifest and observation are valid, the case exists and binds, the tokens match, the source agrees and the bytes are the frozen projection the observation shows |
| FixtureBaseline.CompareCandidate | crates/platform-vertical-fixtures-v0/src/validation.rs:408-444 | The same for a candidate, with its own authenticated source of the same repository |
| FixtureBaseline.ValidateCaseBinding | crates/platform-vertical-fixtures-v0/src/validation.rs:530-585 | Accepts iff ids and omissions agree, prerequisites are a permutation and, in State rows, so are the durable states with their baselines |
| FixtureBaseline.BindStates | crates/platform-vertical-fixtures-v0/src/validation.rs:546-583 | The State-row loop accepts iff the reported (state, schema, before) triples are a permutation of the declared ones |
| FixtureBaseline.CompareProjection | crates/platform-vertical-fixtures-v0/src/validation.rs:587-604 | Accepts iff the bytes authenticate and decode to the observation's projection |
| FixtureBaseline.StateRowsCreateNothing | crates/platform-vertical-fixtures-v0/src/validation.rs:546-583 | No accepted State row carries a `Created` disposition, and each `before` is the declared baseline |
| FixtureBaseline.EveryDeclaredStateIsReported | crates/platform-vertical-fixtures-v0/src/validation.rs:546-583 | Every declared state is reported, in equal number |
| FixtureBaseline.AcceptedProjectionsAgree | crates/platform-vertical-fixtures-v0/src/validation.rs:408-444 | A baseline and a candidate accepted for one case have equal projections, prerequisites and tokens up to order, unless the hash confuses the two byte strings |
| FixtureBaseline.ValidateRowBaselines | crates/platform-vertical-fixtures-v0/src/validation.rs:351-393 | Accepts iff each manifest case has its one accepted baseline; every complaint has its cause, and the final set comparison never fails |
| FixtureBaseline.KnownCasesAreAllCases | crates/platform-vertical-fixtures-v0/src/validation.rs:387-391 | Pigeonhole: as many distinct known cases as the manifest has are all of them |
| FixtureBaseline.EveryCaseHasOneBaseline | crates/platform-vertical-fixtures-v0/src/validation.rs:351-393 | An accepted row covers each case exactly once |
| FixtureLock.ValidateLock | crates/platform-vertical-fixtures-v0/src/validation.rs:222-304 | Accepts iff every vertical has one entry with a digest of its own and one authenticated manifest stream; every complaint has its cause, and the entry-count, missing-entry and class/revision branches never come |
| FixtureLock.ValidateEntries | crates/platform-vertical-fixtures-v0/src/validation.rs:237-267 | Accepts iff entries list each vertical once with distinct digests; a missing-verticals complaint lists exactly the missing ones |
| FixtureLock.CheckStream | crates/platform-vertical-fixtures-v0/src/validation.rs:269-292 | One stream is accepted iff it is locked and its vertical is new; complaints say what is wrong with these bytes, so the dead branches stay dead |
| FixtureLock.CompareWithEntry | crates/platform-vertical-fixtures-v0/src/validation.rs:278-291 | The exact conditions of the two inner refusals, which no accepted lock meets |
| FixtureLock.ValidateStreams | crates/platform-vertical-fixtures-v0/src/validation.rs:269-303 | Accepts iff the streams are the locked manifests, one per vertical; the complaint lists exactly the missing ones |
| FixtureLock.NothingMissingMeansPermuted | crates/platform-vertical-fixtures-v0/src/validation.rs:259-267 | A list without repetitions that misses no vertical has all eighteen |
| FixtureLock.StreamOrderIsIrrelevant | crates/platform-vertical-fixtures-v0/src/validation.rs:222-304 | The order of the streams does not matter |
| FixtureLock.EighteenOfEach | crates/platform-vertical-fixtures-v0/src/validation.rs:222-304 | Acceptance forces eighteen entries and eighteen streams |
| FixtureLock.EveryEntryHasOneStream | crates/platform-vertical-fixtures-v0/src/validation.rs:269-292 | Every entry authenticates exactly one stream |
| FixtureLock.StreamDigestsDiffer | crates/platform-vertical-fixtures-v0/src/validation.rs:246-257 | Accepted streams hash to pairwise different digests |
| FixtureLock.LockDeterminesManifests | crates/platform-vertical-fixtures-v0/src/validation.rs:222-304 | Two lists of streams accepted under one lock are permutations of each other, unless the hash confuses a stream of one with another of the other |

## Left out

- Real threads, timeouts and poisoned locks: a lock section is one atomic step, and a poisoned lock is recovered by the code itself.
- Clients of the bridge that misbehave: dropping an operation early, a second command, never receiving the release or never permitting the exit. The model's clients send one command, receive one release and permit one exit.
- SupervisorLiveness.EveryMaximalRunCloses: the environment's reserve calls, shutdowns, publications, client quiesces and spurious wakeups are finite budgets; safety holds for all budgets, termination needs them finite.
- SupervisorProgress.RecordIsFrozen: covers the stretch during which one attempt owns the record, as the bridge keys records by operation id only.
- SupervisorProgress.RecordHoldsLatestPublished: the bridge keys records by operation id only, so the statement covers the stretch during which one attempt owns the record.
- ShutdownWitness waiting (`wait_started`, `try_complete`, `wait`): channel plumbing around one outcome.
- RegistryAdapter.ReferenceAdapter.Shutdown: states the case without calls between its two sections; RegistryRuns.ShutdownReportsTheTruth covers calls in between.
- ReferenceAttemptHierarchyAdapter: a smaller registry of the same kind.
- The `run_*_suite` and `assert_*` drivers, coverage and envelope suites: finite scripts over the adapters.
- Publication adapters other than the reference one: the runner is generic, the model fixes the reference adapter, one destination per adapter.
- PublicationHistories.AtMostOneFailurePerFault: needs as many free stage numbers as retries; at the last `u64` stage number the runner panics, which PublicationEndings.RunIsItsEnding states exactly.
- Error texts: service errors carry their fixed text, but the fixture, lock and summary validators report a constructor per field instead of field-name strings; where the code gives two faults the same field, the model tells them apart.
- ServiceId, OperationId and digest constructors, serde deserialisation with its own validation, schema files and checked-in fixtures.
- FixtureManifest.ValidateCase: character-level checks and replay recipes are parameters, as for the whole manifest.
- FixtureManifest.ValidateManifest: character-level checks of identifiers, commits, paths, arguments, environment and authority names are parameters, and replay recipes are one parameter.
- FixtureEvidence.ValidateObservation: the evidence claim's own fields and the fixed Loom fact table are parameters.
- FixtureEvidence.VerifyPrerequisiteChunks: the hash is a function of all bytes so far; its incremental state is not modelled.
- SHA-256 collisions: lemmas that need two byte strings not to collide say so in their `requires`.
- `privacy.rs`, `capability.rs`, `evidence.rs`, `lifecycle.rs` of the contracts crate: shallow field checks.

# A verified model of the people-counter control plane

The repository's hard part is a control plane over several separately written Delta tables: work items move through
register, claim, heartbeat, seal, commit, recover, abandon, replay, quarantine and reconcile, under leases and fences,
behind a durable lock that never expires, while a Gold reader looks at four of the tables without the lock.  Beside it are a
crash-replayed log of worker commands, a greedy scheduler with an approximation bound, a bundle writer with a reader that
recounts its claims, and three smaller loops.  This project models those parts in Dafny and proves what they promise, over
every run, every interleaving and every crash point.

## How the project is laid out

| part | modules |
|---|---|
| helpers | `Wrappers` (options and results), `Ordering` (ordered enumerations of finite sets, insertion, lookups, multisets) |
| control store | `ControlTables` (rows), `ControlSpec` (what each operation does to the tables, as functions), `ControlStore` (the store as a class whose methods load rows, loop over them and replace tables, each proved to end exactly where its specification says) with its loops in `ClaimLoops`, `LeaseLoops`, `RecoveryLoops`, `AuditLoops`, `CommitLoops`, and with `ClaimSelection` and `LeaseAdmission` (which work a claim takes, and whether it fits the lease), and what that means for the request in `ClaimRules` |
| each operation in columns | `ControlEffects` (what an accepted operation leaves in every column), `ControlRefusals` (exactly when it is accepted, and the error otherwise), both said without the functions of `ControlSpec` |
| its promises | `ControlInvariant`, `ControlBatches`, `ControlPublishing` (the invariant, kept by every operation), `ControlRuns` (any sequence of operations), `ControlTheorems`, `ControlBudget`, `ControlProvenance`, `LeaseTheorems` (the promises over whole runs), `ControlClient` (performing operations on the store is taking the steps of a run) |
| reader, lock and torn reads | `GoldReader` (the checks on one set of snapshots), `WriterSystem` (any number of processes, one lock step or one table replacement at a time, crashes anywhere), `TornReads` (what holds in every interleaving), `WriterProgress` (a writer left alone gets its work done) |
| worker commands | `WorkerEvents` (the planners and their replay safety), `EventEffects` (what each kind of command leaves in the two rows and exactly when it is taken, without the planners), `EventLog` (one-at-a-time reference, the batching drain), `EventRuns` (the state machine over any run), `CrashDrain` (the drain stopped between any two writes and begun again) |
| partition planner | `LoadBalance` (Graham's bounds on assignments, also used for lease admission), `PartitionPlanner` (the sort and the least-loaded loop) |
| definition bundles | `Tokens` (substitution and its inverse), `DefinitionBundle` (writer, reader, directory), `BundleRules` (what is accepted, in the fields of definitions and metadata), `BundleAgreement` (what writer and reader agree on) |
| smaller loops | `ResumableUpload`, `Workload`, `Placement` |

## Modelling decisions

* Tables keyed by a unique column are maps; publications are a sequence because their append order is observed; a sequence
  that only enumerates a set is compared as a set.
* Times are integers and no theorem about the control store needs the clock to be monotone: every operation takes its own
  arbitrary `now`.  Durations are reals.
* A digest is the content it was computed from.  Generated ids are new: a claim's batch and attempt ids are parameters that
  occur in no table.
* What an operation does is said twice, once as a function, which the proofs over runs unfold, and once as a relation between
  the columns before and after, which the methods promise and which does not mention that function.
* The methods of `ControlStore.Store` ask only that references between tables resolve, so their error branches stay
  reachable; that every reachable state also meets the full invariant is a lemma about the specification functions.
* In the writer system an operation is chosen at its first step, and the tables it will leave are those its specification
  gives for the tables it read; its table replacements then happen one at a time in the source's order.  A raised callback
  and a crash both leave the process stopped with the lock held.
* A worker command's planner returns whole target rows, so "the stored row already has these values" is equality.

## Where the code does not do what one might expect

* `abandon_failed_claim` returns work to READY even when its attempts are used up, so a work item can be attempted more
  often than its budget.  `ControlBudget.BudgetCanBeExceeded` is such a run: register with a budget of one, claim, abandon,
  claim again.  `ControlBudget.BudgetKeptIff` says exactly when it does not happen: a work item stays within its budget
  throughout a run if and only if no step abandons it with its attempts used up, which an operator can see before the call.
* A positive target of at most a billionth of a second yields a manifest without items, which its own constructor refuses
  (`Workload.TinyTargetIsRefused`).  `Workload.Build` succeeds exactly when the target is above the tolerance and the source
  ids are distinct.
* The check for overlapping token sources looks only for a source inside one that sorts after it
  (`Tokens.OverlapCheckIsOneSided`); sources that pass it are free of each other exactly when none is inside one that sorts
  before it (`Tokens.SubstringFreeIff`).  The check is enough to make the match at any place unique (`Tokens.MatchesAreUnique`), and
  the round trip needs neither.
* The bundle reader counts a token's placeholders in every part, the writer only where the token applies, so a definition
  can be written that cannot be read back, and its directory then refuses every later write
  (`BundleAgreement.UnreadableIsWritten`).  `BundleAgreement.WriteThenRead` gives the exact condition on the definition, and
  `BundleAgreement.RewriteIffReadable` says that later writes are accepted under the same condition.
* If the local file changes between the upload's two passes, a normal return need not leave the remote object equal to the
  file: `ResumableUpload.ChangedFileCompletes` returns normally with other bytes than were expected.  The contract of
  `ResumableUpload.Upload` says exactly when it is equal: when the file still begins with the bytes that were kept.
* A worker command stopped between its two writes is completed later only if the clock allows it.  A heartbeat whose lease
  runs out in between is rejected, with its attempt row changed and its work row not (`WorkerEvents.HeartbeatGetsStuck`);
  `WorkerEvents.StuckHalfway` says exactly which commands this happens to and when, `CrashDrain.StoppedHalfway` that no
  uninterrupted drain leaves such tables.
* The number of workers a claim is admitted for does not look at whether one instance has the CPUs a task needs: two
  instances of one core count as a worker for tasks of two CPUs (`LeaseAdmission.UnhostableWorker`).
  `LeaseAdmission.HostedIff` says that all the workers can be hosted exactly when one instance has those CPUs.  A profile
  built from discovered executors always has them (`LeaseAdmission.BuildProfile`); one made by hand need not.

## Model

| member | source | states |
|---|---|---|
| ClaimLoops.FirstRequests | src/people_counter/fabric_control_store.py:311-350 | a repeated id is refused exactly when its content differs; otherwise the first request of each id is kept, in order |
| ControlStore.Store.constructor | src/people_counter/fabric_control_store.py:229-253 | a new store holds no rows |
| ControlStore.Store.RegisterMany | src/people_counter/fabric_control_store.py:311-434 | accepted exactly for requests with sound budgets and durations, of the release insisted on, that agree with each other and with known items; known rows are kept, each new item gets a ready row from its first request with every column given, and the reply tells each item's row in the order of the first requests |
| ControlStore.Store.Claim | src/people_counter/fabric_control_store.py:436-654 | takes the oldest ready work whose time has come, in scope and of the release insisted on, of the runtime that has the oldest: the longest beginning that is done in time, stated with the speed, factor and margin of the profile, or without one of the caller; every error with its cause, and BadArgument exactly for unsound arguments; the rows of the lease column by column |
| ControlStore.Store.HeartbeatProcess | src/people_counter/fabric_control_store.py:693-736 | taken exactly from a live claim whose attempts, each listed once, hold their work; batch, attempts and the works they hold then have one expiry, no earlier than the old one and than now plus the extension, and equal to one of the two; nothing else changes |
| ControlStore.Store.SealBatch | src/people_counter/fabric_control_store.py:738-828 | sealing a leased batch records each output's path, digest, outcome and records on its own attempt and nothing else; sealing again is accepted, and changes nothing, exactly for the outputs recorded |
| ControlStore.Store.CommitBatch | src/people_counter/fabric_control_store.py:830-913 | each success is published under the path and digest it recorded and its work points to it; the work of any other attempt is dead if its attempts are used up, else ready from now; sequences follow the earlier ones without a gap in work-id order; the reply is the new sequences |
| ControlStore.Store.AbandonFailedClaim | src/people_counter/fabric_control_store.py:915-987 | accepted exactly for a named, unsealed claim that holds its work and has produced nothing; its works are ready again from now under a higher fence with the operator's note, its attempts and batch expired |
| ControlStore.Store.Recover | src/people_counter/fabric_control_store.py:989-1032 | work whose lease has run out is dead if its attempts are used up, else ready, from now, its active attempt expired with that outcome and its batch expired; the report counts the rows that became ready and dead; nothing else changes |
| ControlStore.Store.RecoverExact | src/people_counter/fabric_control_store.py:1034-1233 | one exhausted claim is recovered: its work dead and unleased from now, its batch and attempt expired, every other row and column as it was |
| ControlStore.Store.Replay | src/people_counter/fabric_control_store.py:1235-1285 | unleased work is ready again as the next generation, its budget raised to hold the attempts added and no further, its pointer and sequence cleared, and the request recorded |
| ControlStore.Store.Quarantine | src/people_counter/fabric_control_store.py:1287-1357 | every expected item is dead with the operator's note, or is left as it is if it carries that note already; all or none |
| ControlStore.Store.Reconcile | src/people_counter/fabric_control_store.py:1359-1433 | findings are open exactly for broken pointers and expired leases, with their first and last sighting; findings not seen again are closed once |
| ControlEffects.RegisterEffect | src/people_counter/fabric_control_store.py:352-434 | known rows stay; each new item has a ready row from its first request, every column given; the reply tells each item's row in the order of the first requests |
| ControlEffects.ClaimEffect | src/people_counter/fabric_control_store.py:538-654 | each claimed item is leased at its next fence to a new attempt that records it and no output; a new batch lists the items in order, with one member row each; all share one expiry |
| ControlEffects.HeartbeatEffect | src/people_counter/fabric_control_store.py:693-736 | batch, attempts and held works get one expiry, the later of the old one and now plus the extension |
| ControlEffects.SealEffect | src/people_counter/fabric_control_store.py:785-826 | each output's attempt is sealed with its path, digest, outcome and records; no other attempt changes |
| ControlEffects.CommitEffect | src/people_counter/fabric_control_store.py:846-913 | each success is published as recorded and pointed to, the work of every other attempt is dead or ready by its budget, and the new sequences follow the old ones in work-id order |
| ControlEffects.AbandonEffect | src/people_counter/fabric_control_store.py:950-985 | held works are ready from now at their next fence with the operator's note, the attempts and the batch expired |
| ControlEffects.RecoverEffect | src/people_counter/fabric_control_store.py:989-1032 | lapsed work is dead or ready by its budget, its active attempt and due batches expired; the counts are those of the rows by what they became |
| ControlEffects.QuarantineEffect | src/people_counter/fabric_control_store.py:1311-1345 | every expected item is dead with the note, from now unless it carried it; no other item changes |
| ControlEffects.ReconcileEffect | src/people_counter/fabric_control_store.py:1364-1433 | a finding is open exactly for a broken pointer or an expired lease, first seen when it first was; any other is closed once |
| ControlRefusals.RegisterAccepts | src/people_counter/fabric_control_store.py:311-387 | exactly when a registration is accepted, a bad argument, or in conflict |
| ControlRefusals.HeartbeatAccepts | src/people_counter/fabric_control_store.py:693-729 | exactly when a heartbeat is accepted and when each error is raised: an envelope that lists an attempt twice loses the lease |
| ControlRefusals.SealAccepts | src/people_counter/fabric_control_store.py:746-812 | exactly when a batch is sealed, sealed again, or refused with each error |
| ControlRefusals.CommitAccepts | src/people_counter/fabric_control_store.py:830-866 | exactly when a batch is committed, answered again, or refused with each error |
| ControlRefusals.AbandonAccepts | src/people_counter/fabric_control_store.py:928-975 | exactly when a claim is given back, and when it already was |
| ControlRefusals.AbandonErrors | src/people_counter/fabric_control_store.py:928-975 | which error is raised otherwise, and why a lease counts as lost |
| ControlRefusals.RecoverExactAccepts | src/people_counter/fabric_control_store.py:1052-1186 | exactly when a claim is recovered, already was, or is refused with each error |
| ControlRefusals.QuarantineAccepts | src/people_counter/fabric_control_store.py:1296-1342 | exactly when all items are marked; otherwise the error is that of the first item that may not be |
| ClaimSelection.ChooseRuntime | src/people_counter/fabric_control_store.py:486-520 | the runtime with enough eligible work whose oldest item is oldest, smaller key on a tie; none only if no runtime has enough |
| ClaimSelection.TakeOldest | src/people_counter/fabric_control_store.py:520-535 | the oldest items in queue order, as many as allowed |
| ClaimSelection.AdmissiblePrefix | src/people_counter/sjd_control.py:2272-2308 | the largest queue-ordered prefix whose projected makespan fits the lease, refused exactly when the minimum does not fit |
| ClaimRules.SettingsFound | src/people_counter/sjd_control.py:2169-2254 | settings are found exactly for a sound named profile that no given value differs from, or for three given values without a peak; the lease-budget error is exactly a peak of more than a sound profile's instance has left |
| ClaimRules.SettingsNumbers | src/people_counter/sjd_control.py:2208-2254 | the settings are the profile's speed, factor and margin and its number of workers, or those given and one worker |
| ClaimRules.FitsIffInTime | src/people_counter/sjd_control.py:2272-2296 | fitting the lease is the greedy makespan, at the request's own speed, factor and margin, ending before the lease does |
| ClaimRules.InTimeCanBeDone | src/people_counter/sjd_control.py:2272-2308 | work done in time can be shared out so that every worker's load, divided by the speed and multiplied by the factor, plus the margin, is less than the lease |
| ClaimRules.HeadsAgree | src/people_counter/fabric_control_store.py:520-526 | which work is oldest is determined: of two heads of one queue the shorter begins the longer |
| ClaimRules.OutcomesExclude | src/people_counter/fabric_control_store.py:478-537 | a claim is granted, refused or comes to nothing, for one reason only |
| LeaseAdmission.HostedIff | src/people_counter/sjd_control.py:2208-2232 | the workers are the most that instances and pooled cores allow; all can be hosted exactly when one instance has the CPUs of a task |
| LeaseAdmission.BuildProfile | src/people_counter/sjd_process.py:190-287 | a profile is built exactly from reviewed executors with room for a task whose placements are safe; all its workers can be hosted |
| LeaseAdmission.UnhostableWorker | src/people_counter/sjd_control.py:2208-2219 | a profile made by hand that is admitted with a worker no instance can host |
| LeaseAdmission.LptMakespan | src/people_counter/sjd_control.py:2256-2269 | the loop computes the largest load of placing the items longest first, each on the least-loaded worker |
| LeaseAdmission.MakespanNearBest | src/people_counter/sjd_control.py:2256-2269 | the makespan is within 4/3 - 1/(3m) of that of any other sharing-out of the items |
| LeaseTheorems.RefusedNeedsMostOfTheLease | src/people_counter/sjd_control.py:2289-2303 | after any run, a claim refused for its lease: however the fewest items are shared out, some worker's load takes at least 3m/(4m - 1) of what the lease leaves after the margin, at the request's own speed and factor |
| CommitLoops.CommitOne | src/people_counter/fabric_control_store.py:864-904 | an attempt is processed exactly when it is sealed and still holds its work |
| CommitLoops.Publish | src/people_counter/fabric_control_store.py:868-889 | the guard against a non-monotonic sequence never fires |
| CommitLoops.CommitRows | src/people_counter/fabric_control_store.py:846-904 | the loop over attempts ends in the specified rows, or finds that some attempt lost its work |
| CommitLoops.SortSequences | src/people_counter/fabric_control_store.py:836-843 | a committed batch's sequences in ascending order |
| ControlInvariant.RegisterKeeps | src/people_counter/fabric_control_store.py:311-434 | registering keeps the invariant |
| ControlPublishing.ClaimKeeps | src/people_counter/fabric_control_store.py:538-654 | claiming keeps the invariant: leases, fences, budgets, membership |
| ControlBatches.HeartbeatKeeps | src/people_counter/fabric_control_store.py:693-736 | a heartbeat keeps batch, attempts and works on one expiry |
| ControlBatches.SealKeeps | src/people_counter/fabric_control_store.py:738-828 | sealing moves the batch and all its attempts together |
| ControlPublishing.CommitKeeps | src/people_counter/fabric_control_store.py:830-913 | committing keeps the invariant, publications and pointers included |
| ControlBatches.AbandonKeeps | src/people_counter/fabric_control_store.py:915-987 | abandoning keeps the invariant and releases the whole batch |
| ControlBatches.RecoverKeeps | src/people_counter/fabric_control_store.py:989-1032 | recovering keeps the invariant at any clock reading |
| ControlBatches.RecoverExactKeeps | src/people_counter/fabric_control_store.py:1034-1233 | exact recovery keeps the invariant |
| ControlInvariant.ReplayKeeps | src/people_counter/fabric_control_store.py:1235-1285 | replaying keeps the invariant, clearing the pointer with the status |
| ControlInvariant.QuarantineKeeps | src/people_counter/fabric_control_store.py:1287-1357 | quarantining keeps the invariant |
| ControlInvariant.ReconcileKeeps | src/people_counter/fabric_control_store.py:1359-1433 | reconciling touches findings only |
| ControlRuns.StepKeeps | src/people_counter/fabric_control_store.py:311-1433 | every operation, successful or raising, keeps the invariant |
| ControlRuns.RunKeeps | src/people_counter/fabric_control_store.py:311-1433 | every run keeps the invariant |
| ControlRuns.RunEvolves | src/people_counter/fabric_control_store.py:436-1285 | over any run claims are never rewritten, finished rows are frozen, publications only grow, later attempts outrank every earlier fence |
| ControlClient.Perform | src/people_counter/fabric_control_store.py:311-1433 | performing an operation on the store is the step of a run that it stands for, and keeps the invariant |
| ControlClient.PerformClaim | src/people_counter/fabric_control_store.py:436-654 | a claim is one step of a run or nothing; what it takes is the oldest waiting work of a runtime and can be shared out so that every load ends the margin before the lease, at the request's own numbers |
| ControlClient.PerformAll | src/people_counter/fabric_control_store.py:311-1433 | any run can be carried out on a new store and ends in that run's tables |
| ControlTheorems.OneLiveAttempt | src/people_counter/fabric_control_store.py:538-654 | at most one attempt of a work item can still publish, and it shares the work's fence and expiry |
| ControlTheorems.FencesIncrease | src/people_counter/fabric_control_store.py:538-546 | an attempt claimed later has a strictly higher fence |
| ControlTheorems.TerminalForever | src/people_counter/fabric_control_store.py:976-1028 | terminal attempts and finished batches never change |
| ControlTheorems.ExpiredIsFenced | src/people_counter/fabric_control_store.py:693-845 | heartbeat, seal and commit on an expired batch fail in every later state at every clock reading |
| ControlTheorems.RecoverAllOrNone | src/people_counter/fabric_control_store.py:989-1032 | recovery takes back all of a batch, attempts and works included, or leaves all of it |
| ControlTheorems.SequencesAreConsecutive | src/people_counter/fabric_control_store.py:852-889 | publication sequences are exactly 1..n in append order |
| ControlTheorems.OnePublicationPerGeneration | src/people_counter/fabric_control_store.py:868-898 | publications of a work item are at most its generations, counting the present one only if it succeeded; pointer and sequence are set exactly on success |
| ControlTheorems.BatchPublishesTogether | src/people_counter/fabric_control_store.py:852-913 | a committed batch has published exactly its successes, any other batch nothing |
| ControlTheorems.CommitIsIdempotent | src/people_counter/fabric_control_store.py:836-843 | repeating a commit after any later operations returns the original reply and changes nothing |
| ControlProvenance.SealAgain | src/people_counter/fabric_control_store.py:757-781 | once sealed, a batch is sealed again, at any time and without effect, by the same outputs in any order and by no others |
| ControlProvenance.SealThenCommit | src/people_counter/fabric_control_store.py:785-913 | sealed and committed in time, a batch publishes exactly its successful outputs under their own paths and digests; the work of the others is dead or ready by its budget |
| ControlProvenance.PublishedWasPassed | src/people_counter/fabric_control_store.py:738-889 | after any run, whatever is published was passed to some seal of the run as a success of that work, attempt and batch under that path and digest |
| ControlBudget.BudgetStep | src/people_counter/fabric_control_store.py:957-1005 | a step takes a work item out of its budget exactly if it abandons it with its attempts used up |
| ControlBudget.BudgetKeptIff | src/people_counter/fabric_control_store.py:957-1005 | a work item is within its budget in every state of a run exactly if no step abandons it with its attempts used up |
| ControlBudget.AttemptBudget | src/people_counter/fabric_control_store.py:957-1005 | attempts exceed the budget by at most the abandons made with the attempts used up, strictly less while the item can be claimed; the fence counts attempts and abandons |
| ControlBudget.BudgetCanBeExceeded | src/people_counter/fabric_control_store.py:976-982 | a run that attempts a work item with a budget of one twice |
| ControlTheorems.NoBrokenPointer | src/people_counter/fabric_control_store.py:1364-1390 | no reachable pointer is reported broken |
| ControlTheorems.RecoverThenReconcileIsQuiet | src/people_counter/fabric_control_store.py:989-1433 | reconciling right after recovering at the same instant leaves no open finding |
| GoldReader.ReadVisible | src/people_counter/fabric_gold.py:130-184 | raises exactly when some pointer has no row to show for it; otherwise returns exactly the rows to show, each once, in publication order |
| GoldReader.CheckedIffShows | src/people_counter/fabric_gold.py:143-176 | a pointer passes exactly when its attempt has succeeded for that work in a committed batch and the last publication of both carries the sequence, path, digest and batch recorded |
| GoldReader.ReaderAcceptsAtomicStates | src/people_counter/fabric_gold.py:143-170 | on any state the store can reach the reader never raises and sees exactly what the pointers name |
| WriterSystem.LockStep | src/people_counter/fabric_control.py:147-239 | every step of every process keeps the lock invariant |
| WriterSystem.SysStep | src/people_counter/fabric_control.py:211-239 | every step, table replacement, crash or operator clear keeps the tables on one sequential run |
| WriterProgress.UncontendedWriter | src/people_counter/fabric_control.py:158-239 | a new writer that finds the lock free and is left alone carries out its whole operation and leaves the lock free; one whose operation raises stops with the lock held and changes nothing else |
| TornReads.MutualExclusion | src/people_counter/fabric_control.py:147-181 | at most one process stands between acquiring and clearing, and it is the stored owner |
| TornReads.TimeoutAndReleaseAreSafe | src/people_counter/fabric_control.py:158-209 | a timed-out process does not own the lock, and release verification never fails even if a successor acquires first |
| TornReads.OnlyTheOwnerActs | src/people_counter/fabric_control.py:183-239 | only the stored owner changes tables or clears the row |
| TornReads.AtomicStatesAreSequential | src/people_counter/fabric_control_store.py:1506-1508 | at every moment the work table is that of a state reached by a sequential run |
| TornReads.TornReadsLinearise | src/people_counter/fabric_gold.py:130-184 | four snapshots at arbitrary moments give exactly the rows of the one atomic state whose work table was read, or an error, and the error exactly when the publications fall short of one of its pointers |
| TornReads.BatchesAreSeenWhole | src/people_counter/fabric_gold.py:143-184 | an accepted read shows nothing of an uncommitted batch, and of a batch's successes exactly those their works still point to: all but the replayed or republished ones |
| TornReads.RefusedOnlyMidCommit | src/people_counter/fabric_control_store.py:905-910 | that error needs a commit that has moved its pointers and not yet written its publications |
| WorkerEvents.TargetsIgnoreTheClock | src/people_counter/fabric_events.py:338-489 | the clock decides acceptance only, never what a command changes |
| EventEffects.CommandLeaves | src/people_counter/fabric_events.py:326-489 | what each kind of accepted command leaves in every column of the two rows: a failure dead-letters, retries after 1, 2, 4, ... minutes and at most an hour, or fails for good; heartbeats never shorten a lease |
| EventEffects.AcceptedIffTaken | src/people_counter/fabric_events.py:289-489 | a command is accepted exactly when it is of the item and the execution and its kind is taken from the lease, statuses and times of the two rows |
| WorkerEvents.HeartbeatReplays | src/people_counter/fabric_events.py:338-357 | a heartbeat replayed from either crash point makes the same change or none, and is acknowledged for good once applied |
| WorkerEvents.UpdateReplays | src/people_counter/fabric_events.py:360-380 | an attempt update is replay-safe and touches no work row |
| WorkerEvents.FailureReplays | src/people_counter/fabric_events.py:397-422 | a failure is replay-safe, its outcome and delay included |
| WorkerEvents.ReleaseReplays | src/people_counter/fabric_events.py:425-468 | a release lowers the attempt count exactly once however often it is replayed |
| WorkerEvents.CommandReplays | src/people_counter/fabric_events.py:471-489 | every command is replay-safe from each crash point at any later time |
| WorkerEvents.StuckHalfway | src/people_counter/fabric_events.py:579-601 | stopped after the attempt write, a command that changes both rows is rejected later exactly when the clock is behind it or it is a heartbeat whose lease has run out |
| WorkerEvents.StuckUnacknowledged | src/people_counter/fabric_events.py:579-601 | stopped after both writes, a command is rejected later exactly when it is a claim or an update that does not finish the attempt, out of its time |
| WorkerEvents.HeartbeatGetsStuck | src/people_counter/fabric_events.py:338-357 | a heartbeat that changes both rows and is rejected once its lease has run out |
| EventLog.Drainer.constructor | src/people_counter/fabric_events.py:492-503 | the stored tables and receipts a drain starts from |
| EventLog.Drainer.ApplyEvent | src/people_counter/fabric_events.py:579-601 | an event is applied exactly if its command is valid, newer than those acknowledged, and taken; its two rows are then as its kind leaves them and no other row changes; otherwise nothing does |
| EventLog.Drainer.Drain | src/people_counter/fabric_events.py:604-625 | the first unacknowledged events, as many as the limit, are applied one after another, each as its kind leaves its rows; receipts written in groups give the tables, outcomes, receipt order and counts of acknowledging each at once |
| EventLog.DrainApplies | src/people_counter/fabric_events.py:617-623 | holding one more receipt back keeps the held commands on pairwise different works and attempts and agrees with the reference |
| EventLog.HighestIgnores | src/people_counter/fabric_events.py:523-528 | receipts of other works or attempts do not change the staleness check |
| EventLog.NewestIffHigher | src/people_counter/fabric_events.py:523-528 | a sequence is above the highest acknowledged exactly when it is above every acknowledged one of the same work, attempt and execution |
| EventLog.PendingIsFirst | src/people_counter/fabric_events.py:504-514 | what is pending are the first unacknowledged events in inbox order, as many as the limit |
| EventRuns.ColumnsStaySound | src/people_counter/fabric_events.py:174-234 | whatever is drained, attempts hold values of the right kind and range in every column, and no error without a category and a type |
| EventRuns.ErrorsComeFromFailures | src/people_counter/fabric_events.py:174-195 | heartbeats and updates never record an error, and heartbeats never a completion |
| EventRuns.RunsStayInStep | src/people_counter/fabric_events.py:302-489 | over any events a leased work shares its owner's active status, or the owner succeeded and the work is writing or done |
| EventRuns.CommitIsFinal | src/people_counter/fabric_events.py:383-394 | no later command changes a committed work item or its succeeded attempt |
| CrashDrain.DecidesAgain | src/people_counter/fabric_events.py:586-596 | deciding again over rows not, partly or wholly changed gives the reference's decision |
| CrashDrain.NeverRepeated | src/people_counter/fabric_events.py:604-613 | with unique ids the duplicate check of the drain never fires |
| CrashDrain.MoveKeeps | src/people_counter/fabric_events.py:579-625 | every write, flush, crash and restart keeps receipts and tables on the reference run |
| CrashDrain.CrashesDoNotShow | src/people_counter/fabric_events.py:579-625 | drains stopped anywhere and begun again acknowledge a beginning of the reference's receipts, and reach its tables once all are acknowledged |
| CrashDrain.DrainingAgainCompletes | src/people_counter/fabric_events.py:604-625 | wherever earlier drains stopped, one more left alone ends in exactly the tables and receipts of a drain never stopped |
| CrashDrain.UnacknowledgedAreApart | src/people_counter/fabric_events.py:604-625 | commands applied but not acknowledged concern pairwise different works and attempts, and every other row is the reference's |
| CrashDrain.SameVerdictIff | src/people_counter/fabric_events.py:586-596 | two clock readings give a command one verdict exactly when both are in its window: after its creation and, where it needs it, before its lease ends |
| CrashDrain.StoppedHalfway | src/people_counter/fabric_events.py:589-596 | a command stopped between its writes and then rejected leaves tables that no uninterrupted decision leaves |
| LoadBalance.ListBound | src/people_counter/fabric_executor_production.py:312-314 | `m` times any load is at most the total and `m - 1` largest jobs |
| LoadBalance.NoneIdle | src/people_counter/fabric_executor_production.py:301-314 | no partition stays empty when there are at least as many rows |
| LoadBalance.LargestFirstBound | src/people_counter/fabric_executor_production.py:304-314 | largest first: no load exceeds 4/3 - 1/(3m) of the largest load of any other assignment |
| PartitionPlanner.Place | src/people_counter/fabric_executor_production.py:302-315 | the loop computes the greedy assignment, lowest index on ties, each partition in placing order |
| PartitionPlanner.SharingIsAssignment | src/people_counter/fabric_executor_production.py:293-315 | any other sharing-out of the same rows costs what some assignment costs |
| PartitionPlanner.PlanLargestCostFirst | src/people_counter/fabric_executor_production.py:293-315 | the errors, the partition count, conservation of rows, no empty partition, both bounds against every other plan |
| Tokens.Substitute | src/people_counter/fabric_definition_bundle.py:234-246 | the substitution loop produces the tokenised text and counts every replacement |
| Tokens.CountsHits | src/people_counter/fabric_definition_bundle.py:544-552 | counting placeholders in the output gives the number put in, if the text held none |
| Tokens.RoundTrip | src/people_counter/fabric_definition_bundle.py:204-246 | undoing the placeholders restores the text, if it held none |
| Tokens.StandsIffSurvives | src/people_counter/fabric_definition_bundle.py:234-246 | the output holds the placeholder of a token that is not put in exactly when one of the input's is met whole by the substitution |
| Tokens.NothingToDo | src/people_counter/fabric_definition_bundle.py:219-224 | a part without a source value is left alone |
| Tokens.MatchesAreUnique | src/people_counter/fabric_definition_bundle.py:193-200 | accepted sources cannot match differently at one place |
| Tokens.SubstringFreeIff | src/people_counter/fabric_definition_bundle.py:193-200 | no source is inside a different one exactly when the check passes and none is inside one that sorts before it |
| Tokens.OverlapCheckIsOneSided | src/people_counter/fabric_definition_bundle.py:193-200 | a source inside one that sorts before it is accepted |
| DefinitionBundle.TokenizeParts | src/people_counter/fabric_definition_bundle.py:204-261 | refused exactly when a source value is in a part that is not text; else the tokenised parts with the occurrences and parts of each token |
| DefinitionBundle.PrepareBundle | src/people_counter/fabric_definition_bundle.py:324-356 | the parts and metadata to write, or a refusal |
| DefinitionBundle.Directory.constructor | src/people_counter/fabric_definition_bundle.py:387-404 | an empty directory |
| DefinitionBundle.Directory.ReadBundle | src/people_counter/fabric_definition_bundle.py:492-574 | accepts exactly a directory whose files are those listed, with their contents and recounted tokens |
| DefinitionBundle.Directory.WriteBundle | src/people_counter/fabric_definition_bundle.py:387-426 | replaces an empty or readable directory, or refuses and leaves it alone |
| BundleRules.SafePathIff | src/people_counter/fabric_definition_bundle.py:66-84 | a part path is accepted exactly when it splits at its slashes into plain names |
| BundleRules.PreparesIff | src/people_counter/fabric_definition_bundle.py:96-356 | exactly sound definitions with sound, used replacements are prepared; the metadata says the format, the item type and each part's content and size |
| BundleRules.ReadsIff | src/people_counter/fabric_definition_bundle.py:492-574 | a bundle is read exactly when its metadata lists the files and counts every token as they stand |
| BundleRules.WritesIff | src/people_counter/fabric_definition_bundle.py:307-426 | a definition is written exactly when it can be prepared and the directory is empty or readable; the files are then the prepared parts and the metadata describes them |
| BundleAgreement.WritesExactly | src/people_counter/fabric_definition_bundle.py:405-423 | afterwards the files are exactly the tokenised parts, nothing stale |
| BundleAgreement.WriteThenRead | src/people_counter/fabric_definition_bundle.py:492-574 | what was written reads back as the tokenised parts exactly when the substitution leaves standing, in no part of the definition, a placeholder of a token that does not apply there |
| BundleAgreement.CleanDefinitionIsReadable | src/people_counter/fabric_definition_bundle.py:185-191 | a definition without out-of-scope placeholders can always be read back |
| BundleAgreement.HarmlessReadIffClean | src/people_counter/fabric_definition_bundle.py:492-574 | if no source value has a brace or is inside a placeholder, it reads back exactly when no part of the definition holds a placeholder of a token that does not apply there |
| BundleAgreement.RewriteIffReadable | src/people_counter/fabric_definition_bundle.py:307-321 | a written directory accepts a later acceptable definition exactly when what it holds can be read back |
| BundleAgreement.UnreadableIsWritten | src/people_counter/fabric_definition_bundle.py:387-426 | a definition that is written, cannot be read back, and blocks every later write |
| BundleAgreement.PartsAreRecoverable | src/people_counter/fabric_definition_bundle.py:204-261 | undoing each part's tokens restores the definition's bytes |
| ResumableUpload.ReadPrefix | src/people_counter/adls.py:165-174 | reads the first bytes in pieces of any size, fewer only at the end of the file |
| ResumableUpload.Begin | src/people_counter/adls.py:152-188 | keeps the remote object exactly when the file begins with it |
| ResumableUpload.Send | src/people_counter/adls.py:189-208 | keeps remote equal to the kept bytes followed by the file up to the offset, and sends no kept byte |
| ResumableUpload.Upload | src/people_counter/adls.py:139-216 | a normal return, a cut-off and every refusal, each with what it leaves behind; after a normal return the remote object is the file exactly when the file still begins with the kept bytes |
| ResumableUpload.ChangedFileCompletes | src/people_counter/adls.py:189-216 | an upload of a changed file that returns normally with other bytes than were expected |
| ResumableUpload.UploadRepeatedly | src/people_counter/adls.py:139-216 | cut off any number of times, the upload of an unchanged file completes |
| Workload.Check | src/people_counter/fabric_benchmark.py:641-675 | the constructor accepts exactly the valid manifests; its uniqueness check never fires |
| Workload.SameIdSameContent | src/people_counter/fabric_benchmark.py:616-626 | equal work ids mean the same repetition of the same source in manifests of the same header and source contents |
| Workload.Fill | src/people_counter/fabric_benchmark.py:792-811 | the round-robin loop ends, its items are valid, even and minimal |
| Workload.Build | src/people_counter/fabric_benchmark.py:770-820 | passes its own validation exactly for distinct ids and a target above the tolerance; repetitions differ by at most one; without its last item it falls short |
| Workload.TinyTargetIsRefused | src/people_counter/fabric_benchmark.py:770-820 | a positive target with a distinct source that is refused |
| Placement.SafeThreadBudget | src/people_counter/cpu_runtime.py:81-111 | the greatest thread count that fits every runnable executor however workers are packed, and at least the task's CPUs; the budget is an executor's own, none having fewer threads, or as many on fewer cores |
| Placement.CeilingDecides | src/people_counter/fabric_executor_inventory.py:352-372 | comparing slots is the same as every permitted task count fitting in memory |
| Placement.PlacementSafe | src/people_counter/fabric_executor_inventory.py:312-387 | accepts exactly the inventories on which every permitted placement fits each executor's own memory |
| Placement.PlanTaskWidth | src/people_counter/fabric_executor_inventory.py:390-441 | accepted exactly when there is a slot, the caps are at least one and, where a size was measured, every permitted placement is safe; the planned count is the least of slots and caps, and what is planned fits together |

## Left out

* ControlStore.Store.Claim: the envelope's admission block and the reply's envelope path and digests are not modelled.
* LeaseAdmission.BuildProfile: the profile's planned task count, heartbeat and allocation flags are not modelled.
* LeaseAdmission.LptMakespan: durations are reals, so the rounding of repeated float additions is not modelled.
* TornReads.TornReadsLinearise: an operator clears the lock only of a stopped writer that has written all of its operation's tables or none; clearing a half-written one is manual repair outside the protocol.
* CrashDrain.CrashesDoNotShow: the inbox is fixed and its ids unique; rows appended while a drain is under way belong to a later inbox, and a work or attempt id that occurs in several table rows is not modelled.
* CrashDrain.DrainingAgainCompletes: each look at the clock gives a command the verdict of the reference clock; when two readings do, and what is left behind when they do not, is stated by CrashDrain.SameVerdictIff and CrashDrain.StoppedHalfway.
* EventLog.Drainer.ApplyEvent: the conditional table update and its readback are one write that succeeds or a stop of the drain; a lossy cast is such a stop.
* PartitionPlanner.PlanLargestCostFirst: durations are reals, so the rounding of repeated float additions is not modelled.
* Workload.Build: durations and the tolerance are reals; identities and digests are compared by content.
* Workload.Check: a manifest read back from JSON, and the shape of an item's id, are not modelled.
* DefinitionBundle.Directory.ReadBundle: symbolic links, operating-system errors and the canonical encoding of the metadata file are not modelled.
* DefinitionBundle.Directory.WriteBundle: symbolic links, empty directories, operating-system errors and base64 text are not modelled; canonical JSON is the value it encodes.
* ControlStore.Store.SealBatch: the shape of an output's records is not modelled, only that sealing again must repeat them.
* ControlStore.Store.Reconcile: a finding's free-text details are not modelled.
* Distinct rows of one key in a Delta table, which the store refuses to write.
* The claim envelope files on storage: a verified envelope is its contents, and the checks that read it back compare contents.
* Gold checkpoints, the refresh outbox and the Gold tables themselves: rewriting of single tables with one-branch checks.
* The worker client's submit loop, its waiting and its timeouts.
* Executor discovery polling, interval binning and statistics of the benchmark, native thread settings.
* Spark, Delta, notebook and Azure calls, JSON encoding, logging, sleeps, retries and readback lag.
* Deployment, REST, report and acceptance code.

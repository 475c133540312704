# bladedr: the state machines and arithmetic of the control plane, verified

This project models the engines of bladedr that hold real state or arithmetic, and proves what they promise.

- **Leased queues.** `LeaseProtocol` is the protocol that scan jobs and export deliveries share: workers that
  claim, renew, complete and fail records at the same time, crash, and trust their own clocks. `ScanJobs` and
  `Deliveries` give the store's records and operations and prove that every step of the real queues is a step of
  that protocol; fencing, single completion and the attempt bound follow for every run. `Responses` is the
  approval workflow with its execution lease: two-person control, and the exact condition under which two workers
  can execute one action at once.
- **Findings.** `Observations` holds the dedup index, reopening, retention and the count of sightings; `Findings`
  proves the invariants over runs in which scans, operators, retention and export workers act on one store.
  `Paging` is keyset paging.
- **The store itself.** `MemoryStore` is the in-memory store as a class whose methods update its maps. Its ghost
  history is a run of the modules above: each method ensures that the history grows by exactly the step it is, so
  that fencing, conservation and two-person control hold of the class. `Workers` is one iteration of each worker
  loop on it, proved to stay within the protocol.
- **The risk model's evaluation.** `RocAuc`, `NaiveBayes`, `GroupedFolds`, `CrossValidation`: each loop computes a
  plain mathematical definition, and the properties are proved of the definition.
- **The login limiter** (`LoginLimit`), **the sensor's retry buffer** (`EventBuffer`), **shell quoting**
  (`ShellQuoting`, against a lexer for the POSIX shell, sections 2.2 and 2.3), **the openssh-key-v1 container**
  (`OpenSshKey`) and **fleet correlation** (`CredentialReuse`).
- `Backoff`, `Sequences`, `Strings` and `Wrappers` are shared helpers.

Conventions. Times and durations are natural numbers of nanoseconds, and time 0 is Go's zero time; a clock reading
is a parameter. A mutex-protected store method is one atomic step. New ids are parameters. A call that is no step of
the protocol (an id that was drawn before, a claim by a worker that is still busy) ends the store's history, which
becomes `None`; the theorems about the store are about stores whose history goes on. A loop over a map visits the
keys in any order. `float64` is `real`. An error return is a `Result`, an `Option` or a boolean.
Operations whose effect is a record update are functions (`ScanJobs.Claimed`, `Responses.ApprovedBy`, ...); the
methods of the store are proved to apply them, and the lemmas about runs to be right about them.

Verify with `dafny verify dfyconfig.toml`.

Three properties a reader may expect hold only under a condition, which is proved exactly:

- Cross-validation on folds that could be formed gives predictions if and only if every fold leaves a row of each
  class to train on (`ScoresExactlyWhenBothClassesRemain`); groups of a single class guarantee that,
  groups of mixed class do not (`MixedGroupsCanFail`).
- A response action is executed by one worker at a time if and only if the configured timeout, together with the delay
  between the time a claim is stamped with and the start of its execution, is below the lease
  (`OverlapExactlyWhenTimeoutAndDelayReachLease`). The defaults leave one minute for that delay.
- The login limiter admits at most nine failures of an address per fifteen minutes if and only if logins of that
  address neither overlap nor succeed in that time (`NineExactlyWhenSequentialAndUnsuccessful`). The check and the
  failure are separate calls, and a success forgets the failures before it: c logins at once and r successes in the
  window are bounded by (r + 1)(4 + 5c) failures (`OverlappingLoginsAreBounded`), and without a bound on c
  (`BurstHasNoBound`) or on r (`SuccessesHaveNoBound`) there is none.

## Model

| member | source | states |
|---|---|---|
| `LeaseProtocol.StepKeepsInv` | internal/store/memory.go:630-691 | every claim, renewal, completion, failure, crash, retry and deletion, by any of the workers, keeps the invariant of the leased queue |
| `LeaseProtocol.AcceptedMeansUncontested` | internal/store/memory.go:653-691 | over every interleaving, a worker whose call the store accepts made the latest claim of the item: nobody claimed it since |
| `LeaseProtocol.StoredMeansValidated` | internal/scan/runner.go:169-173 | a result is stored only after an ownership renewal that found the worker's claim to be the latest |
| `LeaseProtocol.AtMostOneCompletion` | internal/store/memory.go:988-999 | no item accepts two completions, and it reads succeeded exactly when one was accepted |
| `LeaseProtocol.WaitingHasAttemptsLeft` | internal/scan/queue.go:161-173 | an item waits only with attempts below its maximum; it has an owner and a lease exactly while held |
| `LeaseProtocol.SettledIsFinal` | internal/store/memory.go:1032-1041 | success is final, and failure is final unless an operator retries the item |
| `LeaseProtocol.HeldSince` | internal/store/memory.go:653-691 | the same without history variables: behind every accepted call of a worker lies its claim step, and no claim of the item by anybody in between |
| `LeaseProtocol.StoredAfterCheck` | internal/scan/runner.go:169-173 | behind every stored result lie the worker's claim and a later renewal of it, with no claim of the item by anybody between the two |
| `LeaseProtocol.CompletedOnce` | internal/store/memory.go:664-676 | of two complete steps for one item at most one is accepted |
| `ScanJobs.RetryDelayIsCappedDoubling` | internal/scan/queue.go:161-173 | the clamped shift is invisible: the delay is min(5s * 2^(n-1), 5min) for every attempt count n >= 1 |
| `ScanJobs.StepRefines` | internal/store/memory.go:573-691 | every step of the scan-job queue is a step of the lease protocol on the abstracted records |
| `ScanJobs.StepKeepsOneActive` | internal/store/memory.go:573-603 | every step keeps at most one queued or running job per host |
| `ScanJobs.ReachableJobs` | internal/store/memory.go:573-691 | in every reachable store: one active job per host, worker id and lease exactly while running, a queued job has Attempts < MaxAttempts |
| `ScanJobs.AcceptedMeansUncontested` | internal/scan/queue.go:104-136 | fencing for scan jobs over whole runs |
| `ScanJobs.IngestedMeansValidated` | internal/scan/runner.go:144-173 | findings are ingested only after an ownership check that found the worker's claim to be the latest; a job is completed at most once, exactly when it reads succeeded |
| `ScanJobs.RunRefines` | internal/store/memory.go:573-691 | every run of the scan-job queue is a run of the lease protocol |
| `ScanJobs.HeldSince` | internal/store/memory.go:653-691 | behind every accepted call of a worker lies its claim of the job, and no claim of that job in between |
| `ScanJobs.IngestedAfterCheck` | internal/scan/runner.go:144-173 | a worker that stores findings has claimed the job and then checked its ownership, with no claim of the job in between |
| `ScanJobs.FinishedIsFinal` | internal/store/memory.go:664-691 | a succeeded or failed job record never changes again |
| `ScanJobs.ClaimedExactlyWhenDue` | internal/store/memory.go:630-651 | over whole runs, an idle worker's claim gets a job exactly when the time set by the latest step that touched it (enqueued, leased until, retry at) has come and no such job is older |
| `ScanJobs.ServedExactlyWhenDue` | internal/store/memory.go:630-651 | a claim is refused exactly when no job's time has come |
| `ScanJobs.RetryWaits` | internal/store/memory.go:676-691 | after a failed attempt the job is not claimed before its retry time, and from then on, while it waits, no claim is refused |
| `ScanJobs.AttemptsCountClaims` | internal/store/memory.go:630-651 | in every reachable store a job's attempts are the claims made of it |
| `Deliveries.RetryDelayIsCappedDoubling` | internal/export/worker.go:123-132 | the delay is min(30s * 2^(n-1), 1h) for every attempt count n >= 1 |
| `Deliveries.StepRefines` | internal/store/memory.go:935-1041 | every step of the outbox, including fan-out, target deletion and retry, is a step of the lease protocol |
| `Deliveries.ReachableDeliveries` | internal/store/memory.go:950-1042 | in every reachable outbox: no delivery without its target, owner and lease exactly while delivering, a queued delivery has attempts left, sent exactly when one completion was accepted |
| `Deliveries.AcceptedMeansUncontested` | internal/store/memory.go:988-1014 | fencing for deliveries over whole runs |
| `Deliveries.RunRefines` | internal/store/memory.go:935-1041 | every run of the outbox is a run of the lease protocol |
| `Deliveries.HeldSince` | internal/store/memory.go:988-1014 | behind every accepted completion, failure or renewal of a worker lies its claim of the delivery, and no claim of it in between |
| `Deliveries.SettledStep` | internal/store/memory.go:1032-1041 | a sent delivery, and a dead one nobody retries, stays as it is; deliveries disappear exactly with their target |
| `Deliveries.SentIsFinal` | internal/store/memory.go:988-1041 | over whole runs a sent delivery never changes while it is there |
| `Deliveries.ClaimedExactlyWhenDue` | internal/store/memory.go:950-975 | over whole runs, an idle worker's claim gets a delivery exactly when its target is enabled, the time set by the latest step that touched it has come, and no such delivery is older |
| `Deliveries.ServedExactlyWhenDue` | internal/store/memory.go:950-975 | a claim is refused exactly when no such delivery's time has come |
| `Deliveries.RetryWaits` | internal/store/memory.go:1001-1014 | after a failed attempt the delivery is not made again before its retry time, and from then on, while it waits and its target is enabled, no claim is refused |
| `Deliveries.FanOutAddsOne` | internal/store/memory.go:752-763 | an upsert adds exactly one delivery for each enabled target |
| `Responses.TwoPersonControl` | internal/store/memory.go:1478-1530 | over whole runs: approved, running and finished actions were approved, never rejected, and by someone other than the requester unless self-approval is configured; started exactly when running, succeeded or failed |
| `Responses.OnlyAuthorisedExecute` | internal/scan/response.go:263-284 | whatever a worker executes is authorised in that sense |
| `Responses.DecisionsStand` | internal/store/memory.go:1478-1567 | the requester never changes, a decision stands, and rejected, succeeded and failed records never change |
| `Responses.AcceptedMeansUncontested` | internal/store/memory.go:1532-1567 | over whole runs, a worker whose renewal or report the store accepts made the latest claim of the action |
| `Responses.ClaimedExactlyWhenDue` | internal/store/memory.go:1508-1530 | over whole runs, an idle worker's claim gets an action exactly when it is approved and unclaimed, or the lease its latest claim or renewal gave has ended, and no such action is older |
| `Responses.NoTwoWithinTheirLeases` | internal/store/memory.go:1508-1541 | no two workers execute one action while each is within the lease of its own claim, whatever delays and renewals there are |
| `Responses.NoTwoExecute` | internal/scan/response.go:263-276 | if executions begin at most delay after the stamp of their claim and end by their timeout, and timeout + delay < lease, no two workers execute one action at once |
| `Responses.OverlapExactlyWhenTimeoutAndDelayReachLease` | internal/scan/response.go:263-276 | for each configuration and delay, two workers can execute one action at once if and only if timeout + delay >= lease |
| `Responses.DefaultsAreSafeExactlyWhen` | internal/scan/response.go:231-244 | the defaults (3min lease, 2min timeout) are safe if and only if executions begin less than a minute after the stamp of their claim; a lease of at most 2min, or a timeout of at least 3min, set alone is never safe; any configuration is safe if and only if timeout plus delay falls short of the lease, either one defaulted when not positive |
| `Observations.AbsentFromPreviousScan` | internal/store/memory.go:739-750 | the latest-start loop answers whether some other completed scan of the host started after the finding was last seen |
| `Observations.UpsertKeepsIndexExactlyWhen` | internal/store/memory.go:693-734 | an upsert keeps the dedup index equal to a search by host and key if and only if the pair is known or the id is not in use |
| `Observations.UpsertStores` | internal/store/memory.go:693-734 | an upsert writes the one record of the detection's pair, open again exactly if the finding comes back, or a new one with what is left out filled in, and no other record |
| `Observations.ActionsMean` | internal/store/disposition.go:8-25 | which actions are accepted and what they make of a finding: a false positive is always assessed as one, a resolved finding is confirmed or marked inconclusive |
| `Observations.TakenExactlyWhen` | internal/store/memory.go:1334-1357 | retention takes exactly the closed findings not seen for the given time, and the scans begun before it |
| `Observations.UnlistingKeepsIndex` | internal/store/memory.go:1336-1346 | archiving closed findings in any order takes exactly their entries out of the index |
| `Observations.UpsertAddsOneSighting` | internal/store/memory.go:699-734 | an upsert adds one to the total of Count, wherever it lands |
| `Observations.ArchivingMovesSightings` | internal/store/memory.go:1329-1347 | what retention takes from the table is what it adds to the archive |
| `Findings.StepKeepsInv` | internal/store/memory.go:693-763 | scans, upserts, operators, retention and export workers, in any order, keep index, counts and times right |
| `Findings.KnownPairsAreStored` | internal/store/memory.go:700-702 | in a store kept by these steps, the record an index entry points to always exists |
| `Findings.UpsertContinuesExactlyWhen` | internal/store/memory.go:693-734 | an upsert is a step of these runs if and only if it brings no id of its own, its new ids were never drawn before, and the clock has not gone back |
| `Findings.IndexIsTheSearch` | internal/store/memory.go:699-734 | in every reachable store the dedup index is the search by (HostID, DedupKey), and no two observations share that pair |
| `Findings.SightingsConserved` | internal/store/memory.go:1329-1382 | live Count + archived Count + purged Count equals the number of upserts; without purging, live + archived does |
| `Findings.DeliveriesMatchUpserts` | internal/store/memory.go:752-763 | while a target stays enabled it gains exactly one delivery per upsert, whatever the workers do |
| `Findings.SteadyFindingsStayClosed` | internal/store/store.go:284-299 | a closed finding never reopens, whatever the gap between scans, if every completed scan of its host that started since it was last seen has stored it again; scans from before it was first seen do not matter |
| `Findings.SeenExactlyWhen` | internal/store/memory.go:693-735 | a finding counts as seen by a scan if and only if an earlier upsert of that scan stored it, under the pair's id or as a new finding |
| `Findings.ReopenedExactlyWhen` | internal/store/memory.go:699-714 | a detection of a known pair opens its finding if and only if it was closed, the window has passed, and a completed scan that did not store it started after it was last seen; score, severity, evidence and scan become the detection's, the count grows by one, verdict and first sighting stay |
| `Paging.ListIsUnique` | internal/store/memory.go:798-803 | the order by (LastSeen, ID) descending determines the list of a set of rows |
| `Paging.Sort` | internal/store/memory.go:798-803 | the sorted list of the rows, each once |
| `Paging.CursorSplitsList` | internal/store/memory.go:791-795 | the rows past a row's cursor are exactly the rows listed after it |
| `Paging.PageShowsNext` | internal/api/api.go:600-613 | a page shows the next rows of the list, and carries a cursor if and only if rows remain |
| `Paging.PagingIsComplete` | internal/api/api.go:594-613 | following cursors with any page size concatenates to the whole list in order, none lost or repeated, every page but the last full |
| `Paging.TraversalExists` | internal/api/api.go:594-613 | from any point of the list there is a sequence of pages that follows the cursors to the end |
| `MemoryStore.Memory.constructor` | internal/store/memory.go:45-69 | an empty valid store at the start of its history |
| `MemoryStore.Memory.CreateHost` | internal/store/memory.go:421-432 | the host is known under its own or a new id; the queue stays valid and moves by that protocol step |
| `MemoryStore.Memory.DeleteHost` | internal/store/memory.go:511-519 | the host is no longer known, or not found; the queue stays valid and moves by that protocol step |
| `MemoryStore.Memory.EnqueueScanJob` | internal/store/memory.go:573-603 | unknown host refused; an active job of the host returned unchanged; otherwise the defaulted job stored; one step of ScanJobs, which continues the history exactly for a new request |
| `MemoryStore.Memory.ClaimScanJob` | internal/store/memory.go:630-651 | an oldest job that is queued with its time come, or running on a lease that has ended, is claimed and nothing else changes, or there is none; one Claim step of ScanJobs |
| `MemoryStore.Memory.RenewScanJobLease` | internal/store/memory.go:653-662 | accepted exactly for the owner of a running job, who then made the latest claim; one Heartbeat or Validate step of ScanJobs |
| `MemoryStore.Memory.CompleteScanJob` | internal/store/memory.go:664-674 | accepted exactly for the owner of a running job, who then made the latest claim; one Complete step of ScanJobs |
| `MemoryStore.Memory.FailScanJob` | internal/store/memory.go:676-691 | accepted exactly for the owner of a running job, who then made the latest claim; one Fail step of ScanJobs |
| `MemoryStore.Memory.EnqueueExports` | internal/store/memory.go:752-763 | one new delivery for each enabled target, under the ids drawn for them, and no other change |
| `MemoryStore.Memory.UpsertObservation` | internal/store/memory.go:693-734 | the stored record, seen again or new, in terms of the detection; every other record as it was; the store stays valid if and only if the pair is known or the id is not in use; one Upsert step of Findings, which continues the history exactly when no id was drawn before |
| `MemoryStore.Memory.ListObservations` | internal/store/memory.go:765-808 | the list of matching rows past the cursor, cut at the limit |
| `MemoryStore.Memory.SetObservationStatus` | internal/store/memory.go:820-829 | the status written, or not found; index and outbox stay valid; one Assess step of Findings |
| `MemoryStore.Memory.SetObservationVerdict` | internal/store/memory.go:831-843 | the verdict written, or the error; index and outbox stay valid; one Assess step of Findings |
| `MemoryStore.Memory.ApplyObservationAction` | internal/store/memory.go:845-864 | the disposition written, or the error: unknown action, missing finding, resolving an unconfirmed one |
| `MemoryStore.Memory.CreateScan` | internal/store/memory.go:521-529 | the scan stored under its own or a new id; one StartScan step of Findings |
| `MemoryStore.Memory.UpdateScan` | internal/store/memory.go:531-539 | the scan replaced, or not found; the store stays valid, and its history moves by exactly the step that finishes that scan |
| `MemoryStore.Memory.AppendAudit` | internal/store/memory.go:1282-1297 | the newest five thousand events, the new one last, with its id and time filled in |
| `MemoryStore.Memory.ApplyRetention` | internal/store/memory.go:1329-1382 | which observations, scans and audit events move to the archive, the index without their entries, the purged archive and the four counts; one Retain step of Findings |
| `MemoryStore.Memory.CreateExportTarget` | internal/store/memory.go:889-902 | the target stored under its own or a new id with its timestamps; one SetTarget step of Deliveries |
| `MemoryStore.Memory.UpdateExportTarget` | internal/store/memory.go:924-933 | the target replaced and stamped, or not found; one SetTarget step of Deliveries |
| `MemoryStore.Memory.DeleteExportTarget` | internal/store/memory.go:935-948 | the target and exactly its deliveries are gone; one DeleteTarget step of Deliveries |
| `MemoryStore.Memory.ClaimExportDelivery` | internal/store/memory.go:950-975 | an oldest delivery of an enabled target that is queued with its time come, or under way on a lease that has ended, is claimed and nothing else changes, or there is none; one Claim step of Deliveries |
| `MemoryStore.Memory.RenewExportDeliveryLease` | internal/store/memory.go:977-986 | accepted exactly for the owner of a delivery under way, who then made the latest claim; one Renew step of Deliveries |
| `MemoryStore.Memory.CompleteExportDelivery` | internal/store/memory.go:988-999 | accepted exactly for the owner of a delivery under way, who then made the latest claim; one Complete step of Deliveries |
| `MemoryStore.Memory.FailExportDelivery` | internal/store/memory.go:1001-1014 | accepted exactly for the owner of a delivery under way, who then made the latest claim; one Fail step of Deliveries |
| `MemoryStore.Memory.RetryExportDelivery` | internal/store/memory.go:1032-1041 | accepted exactly for dead deliveries; one Retry step of Deliveries |
| `MemoryStore.Memory.CreateResponseAction` | internal/store/memory.go:1426-1445 | unknown host refused; otherwise the defaulted action stored |
| `MemoryStore.Memory.ApproveResponseAction` | internal/store/memory.go:1478-1491 | not pending, self-approval, or approved: the result and the whole new state |
| `MemoryStore.Memory.RejectResponseAction` | internal/store/memory.go:1495-1506 | accepted exactly while pending, for anyone; who, why and when are recorded and the host is never touched |
| `MemoryStore.Memory.ClaimResponseAction` | internal/store/memory.go:1508-1530 | an oldest approved or expired action is claimed and nothing else changes, or there is none; one Claim step of Responses |
| `MemoryStore.Memory.RenewResponseActionLease` | internal/store/memory.go:1532-1541 | accepted exactly for the owner, who then made the latest claim; then nobody can claim the action before the new lease ends, and anybody can after; one Renew step of Responses |
| `MemoryStore.Memory.CompleteResponseAction` | internal/store/memory.go:1543-1554 | accepted exactly for the owner, who then made the latest claim; the action has succeeded, is released, keeps who asked, who approved and when it started, and is never claimable again; one Report step of Responses |
| `MemoryStore.Memory.FailResponseAction` | internal/store/memory.go:1556-1567 | accepted exactly for the owner, who then made the latest claim; the action has failed, is released, keeps who asked, who approved and when it started, and is never claimable again; one Report step of Responses |
| `MemoryStore.JobsAreSound` | internal/store/memory.go:573-691 | in a store whose history follows the protocol: a queued job has attempts left, worker and lease are there exactly while running, and a job reads succeeded exactly when one completion was accepted |
| `MemoryStore.ResultsAreValidated` | internal/scan/runner.go:144-173 | in such a store every stored result followed an ownership check that found the claim to be the latest |
| `MemoryStore.StoreConservesSightings` | internal/store/memory.go:1329-1382 | live, archived and purged sightings of such a store add up to the upserts it served |
| `MemoryStore.DeliveriesAreSound` | internal/store/memory.go:950-1042 | every delivery of such a store belongs to a target, has attempts left while queued, and reads sent exactly when one completion was accepted |
| `MemoryStore.StoreKeepsTwoPersonControl` | internal/store/memory.go:1478-1530 | whatever such a store shows as approved or started was approved by a second person, unless self-approval is configured |
| `MemoryStore.ListPage` | internal/api/api.go:582-615 | the page for a cursor, refused exactly for an invalid cursor |
| `MemoryStore.FollowingPagesIsComplete` | internal/api/api.go:594-613 | on an unchanged valid store, following the cursors of the listing shows exactly the matching rows in order |
| `Workers.RunScanJob` | internal/scan/queue.go:104-136 | an undisturbed iteration takes an oldest claimable job and leaves it succeeded, failed, or queued again after the backoff; a free worker stays within the protocol |
| `Workers.RunDelivery` | internal/export/worker.go:107-133 | an undisturbed iteration leaves the delivery sent, dead, or queued again after the backoff; a free worker stays within the protocol |
| `Workers.RunResponse` | internal/scan/response.go:263-284 | an undisturbed iteration finishes the action, keeping who asked for it and who approved it; a free worker stays within the protocol |
| `RocAuc.AreaUnderROC` | internal/risk/model.go:996-1023 | the tie-averaged rank-sum loop returns exactly (pairs ranked right + half the tied pairs) / (P*N), and 0 without both classes |
| `RocAuc.RankTieGroup` | internal/risk/model.go:1003-1018 | each tie group adds its average rank once per positive |
| `RocAuc.AucIgnoresOrder` | internal/risk/model.go:996-1023 | AUC does not depend on input order |
| `RocAuc.AucInUnitInterval` | internal/risk/model.go:996-1023 | AUC lies in [0, 1] |
| `RocAuc.AucOfSwappedLabels` | internal/risk/model.go:996-1023 | swapping labels gives 1 - AUC when both classes are present |
| `RocAuc.PerfectExactlyWhenSeparated` | internal/risk/model.go:996-1023 | AUC is 1 if and only if every positive scores above every negative |
| `NaiveBayes.TrainWith` | internal/risk/model.go:479-500 | the loop builds exactly the count table of the labelled rows |
| `NaiveBayes.TrainingIgnoresOrder` | internal/risk/model.go:479-500 | the table does not depend on row order |
| `NaiveBayes.TotalsAgree` | internal/risk/model.go:479-500 | classFeat is the sum of featCount and vocab the union of its keys |
| `NaiveBayes.LikelihoodsSumToOne` | internal/risk/model.go:504-508 | over a non-empty vocabulary the smoothed likelihoods of a class sum to 1 |
| `NaiveBayes.Score` | internal/risk/model.go:527-557 | the fallback of an untrained model; for a trained one the rounded probability, in 0..100, and the five strongest contributions of known features, strongest first |
| `NaiveBayes.HiddenIsNoStronger` | internal/risk/model.go:551-556 | something is left out only when five are shown, and it is never further from zero than one that is shown |
| `NaiveBayes.ContributionsAreRatios` | internal/risk/model.go:536-550 | every known feature contributes under its name and nothing else does; e to a contribution is the ratio of the feature's two likelihoods |
| `NaiveBayes.ContributionsAddUp` | internal/risk/model.go:536-550 | the contributions add up to the log of the odds the score is computed from |
| `NaiveBayes.ScoreIsPosterior` | internal/risk/model.go:527-566 | the log-space computation equals the posterior under a flat prior |
| `NaiveBayes.OneOfEachScores` | internal/risk/model.go:479-566 | trained on one confirmed and one dismissed finding with a feature each, the model gives the confirmed one's feature two thirds and the other's one third |
| `NaiveBayes.NoEvidenceScoresHalf` | internal/risk/model.go:527-566 | with no known feature the probability is one half |
| `NaiveBayes.SwappedVerdictsComplementScore` | internal/risk/model.go:479-566 | training on the opposite verdicts turns p into 1 - p |
| `GroupedFolds.AssignFolds` | internal/risk/model.go:898-951 | the number of folds and the greedy assignment of whole groups, in an order that depends on the set of groups and the seed alone |
| `GroupedFolds.GroupsAreUnits` | internal/risk/model.go:898-909 | two rows share a group exactly when they are of one lab scene or one fleet host, or are the same row |
| `GroupedFolds.FoldCountIs` | internal/risk/model.go:910-929 | as many folds as asked for, unless a class occurs in fewer groups; none if that is below two |
| `GroupedFolds.GreedyChoice` | internal/risk/model.go:930-950 | each group goes to the first of the folds on which it makes the fewest pairs of rows of one class with what is placed there |
| `GroupedFolds.GreedyIsBalanced` | internal/risk/model.go:932-950 | with single-class groups the load counters of each class stay within the largest group of each other |
| `GroupedFolds.LoadsCountRows` | internal/risk/model.go:932-950 | the load counters are the numbers of rows of each label that the assignment puts on each fold |
| `GroupedFolds.RowsAreBalanced` | internal/risk/model.go:932-950 | with single-class groups, any two folds hold as many rows of a class, give or take the largest group |
| `GroupedFolds.GreedyFillsFolds` | internal/risk/model.go:932-950 | a fold lacks a class only while every group of that class has gone to a fold that lacked it |
| `GroupedFolds.EveryFoldHasBothClasses` | internal/risk/model.go:923-950 | with single-class groups and at least two folds every fold gets a row of each class |
| `CrossValidation.CrossValidate` | internal/risk/model.go:865-890 | for every row once, in fold order, a prediction whose probability comes from a model fitted to exactly the rows on other folds, none of them of the row's own unit, and whose label and rule are the row's; nil exactly when there are no folds or some model has one class |
| `CrossValidation.EveryRowOnce` | internal/risk/model.go:869-884 | every labelled row is predicted exactly once |
| `CrossValidation.PredictionsAreHeldOut` | internal/risk/model.go:870-889 | the same of the list of predictions itself: held-out probability, own label, own rule, each row once |
| `CrossValidation.OwnFoldDoesNotMatter` | internal/risk/model.go:870-889 | with the folds fixed, changing other rows of a fold never changes the predictions of its rows |
| `CrossValidation.NoLeak` | internal/risk/model.go:870-878 | rows of one lab scene or one fleet host are never on two folds |
| `CrossValidation.ScoresExactlyWhenBothClassesRemain` | internal/risk/model.go:866-882 | crossValidate succeeds if and only if every fold leaves a row of each class to train on |
| `CrossValidation.SingleClassGroupsAlwaysScore` | internal/risk/model.go:866-950 | with single-class groups and at least two folds crossValidate never returns nil |
| `CrossValidation.MixedGroupsCanFail` | internal/risk/model.go:880-882 | with groups of mixed class it can return nil although two folds were granted: a family of inputs |
| `LoginLimit.LoginLimiter.RetryAfter` | internal/api/loginlimit.go:34-43 | exactly the time until the lockout of the address ends, or 0, on the pruned map |
| `LoginLimit.LoginLimiter.RecordFailure` | internal/api/loginlimit.go:45-68 | the counter, lockout and last failure of the address; the rest unchanged but for pruning |
| `LoginLimit.LoginLimiter.ResetAddress` | internal/api/loginlimit.go:70-74 | from then on the address is answered 0 and its next failure counts as its first; every other address is as it was |
| `LoginLimit.LoginLimiter.Prune` | internal/api/loginlimit.go:77-87 | idle entries whose lockout has passed go, at most once a window |
| `LoginLimit.PruningIsInvisible` | internal/api/loginlimit.go:34-87 | every sequence of calls on a non-decreasing clock is answered as by a limiter that never prunes |
| `LoginLimit.AnswersAreCapped` | internal/api/loginlimit.go:34-68 | every answer is at most the cap |
| `LoginLimit.AnswersCountDown` | internal/api/loginlimit.go:34-43 | a check d after another, with no login of the address ending in between, is answered what is left of the first answer: 0 if and only if d is at least that |
| `LoginLimit.AnswerIs` | internal/api/loginlimit.go:34-68 | the answer is what is left of the lockout armed by the failures since the last success, counted back to the last gap of more than fifteen minutes |
| `LoginLimit.LockoutIs` | internal/api/loginlimit.go:59-66 | the n-th failure in a row locks out for min(30s * 2^(n-5), 15min) from the fifth on, and not at all before |
| `LoginLimit.CheckAdmitsLaterFailure` | internal/api/auth.go:213-236 | a check answered 0 still admits the failure recorded later, whatever calls come in between, successes of the address among them, that are not failures of it |
| `LoginLimit.SequentialLoginsAreGated` | internal/api/auth.go:213-258 | if logins of an address do not overlap, every failure is recorded in a state in which the check would still answer 0 |
| `LoginLimit.SequentialRunIsSpaced` | internal/api/loginlimit.go:45-74 | at every point of a run of such logins, the failures since the last success are at least the armed lockouts apart |
| `LoginLimit.OverlappingLoginsAreBounded` | internal/api/auth.go:213-258 | with at most c logins of an address under way at once, each checked in a call of its own before it fails or succeeds, and r successes in a closed fifteen-minute window, at most (r + 1)(4 + 5c) failures in that window, whatever the address did before |
| `LoginLimit.AtMostNineFailuresPerWindow` | internal/api/loginlimit.go:22-74 | logins that do not overlap record at most nine failures of one address in any closed fifteen-minute window in which none of them succeeds |
| `LoginLimit.NineExactlyWhenSequentialAndUnsuccessful` | internal/api/auth.go:213-258 | nine bounds every run with at most c logins of the address under way and every window with at most r successes of it if and only if c = 1 and r = 0, or there are no logins at all (c = 0) |
| `LoginLimit.SuccessesHaveNoBound` | internal/api/auth.go:256-258 | for every m there are logins that do not overlap, m of them successful, with 4m failures at one instant |
| `LoginLimit.BurstHasNoBound` | internal/api/auth.go:213-236 | for every m there are m overlapping logins that put m failures into one window |
| `LoginLimit.SpacedRunExists` | internal/api/loginlimit.go:22-67 | conversely, every sequence of times that respects the lockouts is that of logins that neither overlap nor succeed |
| `LoginLimit.NineFailuresArePossible` | internal/api/loginlimit.go:22-67 | the bound of nine is met by logins that neither overlap nor succeed |
| `EventBuffer.Buffer.DropFirst` | cmd/bladedr-sensor/buffer.go:31-31 | compaction in place: the array begins with what followed the first n events |
| `EventBuffer.Buffer.Add` | cmd/bladedr-sensor/buffer.go:28-34 | the event appended and the oldest dropped past the cap |
| `EventBuffer.Buffer.Flush` | cmd/bladedr-sensor/buffer.go:39-54 | what was sent, in which chunks, what remains, and the delay |
| `EventBuffer.Buffer.TakeDropped` | cmd/bladedr-sensor/main.go:162-167 | the count since the last report, which is cleared |
| `EventBuffer.DelayIsCappedDoubling` | cmd/bladedr-sensor/buffer.go:47-47 | the delay is min(2s * 2^(k-1), 60s) for every streak k |
| `EventBuffer.DrainSendsFullChunks` | cmd/bladedr-sensor/buffer.go:43-51 | chunks of at most 500, all full but perhaps the one that empties the buffer; draining stops exactly at a failed send |
| `EventBuffer.NothingIsLost` | cmd/bladedr-sensor/buffer.go:28-54 | for every sequence of adds, flushes and reports with arbitrary failures: sent or dropped events in order, then pending, are everything added; pending is at most 10000; the drop counter is exact |
| `EventBuffer.DropsAndSendsAreJustified` | cmd/bladedr-sensor/buffer.go:28-42 | one event is dropped per add and only when the buffer is full; a flush before the armed delay does nothing |
| `EventBuffer.StreakCountsFailures` | cmd/bladedr-sensor/buffer.go:45-53 | the streak is the number of failed flushes since the last that emptied the buffer |
| `EventBuffer.FailureArmsDelay` | cmd/bladedr-sensor/buffer.go:45-48 | the failure after k others in a row arms min(2s * 2^k, 60s) |
| `EventBuffer.FlushTriesExactlyWhenDue` | cmd/bladedr-sensor/buffer.go:39-43 | a flush sends if and only if something is pending, the armed delay has passed and the first send succeeds |
| `EventBuffer.ArmedExactlyWhileFailing` | cmd/bladedr-sensor/buffer.go:45-53 | over every sequence of calls a delay is armed exactly while the last flush that tried has failed |
| `ShellQuoting.QuotedIsVerbatim` | internal/scan/ssh.go:527-527 | wherever the shell reads unquoted text, shellArg(s) adds exactly s to the current word, with nothing to expand |
| `ShellQuoting.QuotedIsOneWord` | internal/scan/ssh.go:527-527 | shellArg(s) is the one word s whatever follows after a blank |
| `ShellQuoting.UnquotingExactlyWhenNulFree` | internal/scan/ssh.go:527-527 | the shell undoes the quoting if and only if s has no NUL |
| `ShellQuoting.NestingIsUndone` | internal/scan/ssh.go:246-264 | n-fold sh -c quoting is undone by n shells |
| `ShellQuoting.WrapSudoPassesCommand` | internal/scan/ssh.go:511-524 | sudo's shell gets the whole command as one argument; the command text is the same for every password, which travels on stdin |
| `ShellQuoting.ProbeCommandPassesScripts` | internal/scan/ssh.go:246-264 | for root, passwordless and password accounts: the words the shells read, in which sudo's shell gets the privileged script and the user's the locked one, each as one argument of its sh -c; the password goes to stdin only |
| `OpenSshKey.JoinLines` | internal/probe/credentials_parse.go:122-129 | the trimmed lines after the first, up to the end marker, joined |
| `OpenSshKey.NextExactlyWhen` | internal/probe/credentials_parse.go:136-146 | a field is read if and only if the bytes begin with an RFC 4251 string, and it is that string |
| `OpenSshKey.PublicExactlyWhen` | internal/probe/credentials_parse.go:130-157 | the parser accepts exactly the encodings of containers, and returns the blob and whether the cipher is other than none |
| `OpenSshKey.ParseContainer` | internal/probe/credentials_parse.go:130-157 | the field-by-field reader computes that, with every index inside the buffer |
| `OpenSshKey.OpenSSHPrivateKey` | internal/probe/credentials_parse.go:121-164 | the whole parser |
| `OpenSshKey.ParsingUndoesWriting` | internal/probe/credentials_parse.go:121-164 | a container in base64 wrapped at any width parses back to its blob; encrypted exactly when the cipher is not none |
| `OpenSshKey.KeyExactlyWhen` | internal/probe/credentials_parse.go:121-164 | a file is taken for a key if and only if what its lines carry decodes to a container |
| `OpenSshKey.LayoutDoesNotMatter` | internal/probe/credentials_parse.go:122-129 | the same for any line breaks and blanks around the lines |
| `CredentialReuse.TakeInventory` | internal/scan/reuse.go:25-39 | fleet-only categories leave the digest, authorized keys stay, no item is lost |
| `CredentialReuse.Index` | internal/scan/reuse.go:50-75 | the index lists, under exactly the ids somebody holds, exactly their holders |
| `CredentialReuse.Others` | internal/scan/reuse.go:78-91 | the sorted names of the other hosts |
| `CredentialReuse.EntryExactlyWhen` | internal/scan/reuse.go:54-63 | an item is read as account, id and state if and only if its text spells them, colon by colon; an item without a colon is skipped |
| `CredentialReuse.AccountsExactlyWhen` | internal/scan/reuse.go:64-68 | the accounts listed for an id are exactly those that the text of some item gives it |
| `CredentialReuse.FirstStateIs` | internal/scan/reuse.go:59-67 | the state is that of the first item whose text names the id |
| `CredentialReuse.HoldsExactlyWhen` | internal/scan/reuse.go:54-65 | a host holds an id if and only if the text of one of its items gives it to an account |
| `CredentialReuse.ApplyCredentialReuse` | internal/scan/reuse.go:109-205 | the findings computed through the indexes are those defined on the inventories, each credential judged once; the score is 4 per shared key, 9 per shared hash or copied key, 11 or 5 per key that grants access, and at most 40 |
| `CredentialReuse.FindingFields` | internal/scan/reuse.go:161-198 | what a finding lists: its id, the accounts here, the points of its rule, and the first eight names of the other hosts |
| `CredentialReuse.AlsoOnNamesHosts` | internal/scan/reuse.go:78-91 | the names listed are those of exactly the other hosts that hold the id, ascending |
| `CredentialReuse.HostsWithIsExact` | internal/scan/reuse.go:161-198 | hosts_with is exactly the number of hosts holding the id (of other hosts authorizing it, for a private key that grants access) |
| `CredentialReuse.ReportedExactlyWhen` | internal/scan/reuse.go:161-198 | when each kind of finding is raised, in terms of the hosts that hold the credential |
| `CredentialReuse.SharingIsSymmetric` | internal/scan/reuse.go:78-91 | a scan of A lists B for a credential if and only if a scan of B would list A |

## Left out

- ScanJobs.ReachableJobs: attempts of a running job are not bounded, because a job whose lease expires is claimed
  again without a look at MaxAttempts (internal/store/memory.go:630-651); only queued jobs have attempts left.
- ScanJobs.StepRefines: jobs enter as Queue.Enqueue makes them, without an id or a status of the caller's choice.
- LeaseProtocol.AcceptedMeansUncontested: worker ids are unique and each worker runs one claim at a time, as the
  queues arrange; two processes sharing an id are outside the model.
- Responses.TwoPersonControl: actions enter as the API makes them, pending; CreateResponseAction itself would store
  any status handed to it. The playbook, its parameters and the dry-run flag do not affect the workflow and are not fields.
- Responses.NoTwoExecute: assumes one clock for all workers, and executions that end by their timeout. The source does
  not enforce the latter: the SSH handshake (ssh.NewClientConn, internal/scan/ssh.go:411) is not bounded by the context.
- Responses.NoTwoWithinTheirLeases: a renewal that shortens a lease, which the store would accept and the response queue
  never asks for, is not among the steps.
- Findings.SteadyFindingsStayClosed: observations enter without an id of the caller's choice, as scanner and API make them.
- Findings.SightingsConserved: the number of upserts and of purged sightings are history kept by the model, not by the store.
- LoginLimit.OverlappingLoginsAreBounded: calls reach the limiter in the order of their clock readings, which
  requests that read the clock before they wait for the mutex need not do; a success, which hands the limiter no
  time, counts as of the latest reading before it.
- MemoryStore.Memory.ApplyRetention: archived records carry the record itself instead of its JSON, and no id of their own.
- MemoryStore.Memory.UpsertObservation: the ids drawn are required to be fresh among live deliveries only, as nothing in
  the store could tell more; the history goes on exactly when they were never drawn before.
- MemoryStore.Memory.CreateHost: a host is its id; creation time and connection details do not affect the queue.
- MemoryStore.Memory.ListObservations: the substring search is an arbitrary predicate on the observation.
- MemoryStore.Memory.ClaimScanJob: the claim methods return the key with the record; sorting candidates by creation
  time and taking the first is finding an oldest one, with ties broken arbitrarily.
- MemoryStore.ListPage: the cursor's JSON and base64 form is an opaque bijection.
- NaiveBayes.Score: the feature extractor is an arbitrary function; contributions of equal strength may come in any order.
- NaiveBayes.ScoreIsPosterior: log and exp are functions with the usual laws, and arithmetic is exact; float64 rounding,
  overflow and NaN are not modelled.
- GroupedFolds.AssignFolds: sorting and the seeded shuffle are one function from the set of keys to a listing of it;
  group keys are a datatype instead of prefixed strings.
- CrossValidation.CrossValidate: fitting and scoring are parameters, instantiated with training by TrainsWith.
- EventBuffer.Buffer.Flush: the outcome of the i-th send of a flush is a parameter; the array has its full capacity from
  the start, where a Go slice grows.
- ShellQuoting.ProbeCommandPassesScripts: the locked and the privileged probe script are parameters, and the text around
  them is given word by word; operators of two characters are two tokens, and reserved words, expansions and redirections
  are recognised as tokens but not executed.
- OpenSshKey.OpenSSHPrivateKey: base64, public-key parsing and hashing are functions the caller supplies; the round trip
  asks only that decoding undoes this encoding.
- OpenSshKey.ParseContainer: indices are unbounded integers. In Go `4+n` is computed in uint32, so a field of length
  2^32-4 or more in a buffer of over 4 GiB would wrap; callers read at most 32 KiB
  (internal/probe/collect_linux.go:2423).
- CredentialReuse.ApplyCredentialReuse: titles, severities, technique ids and the storing of findings are not modelled, and every
  upsert is taken to succeed, so that each finding scores.
- CredentialReuse.HostsWithIsExact: one inventory per host, which SaveInventory ensures by keying on the host.
- The other prediction metrics, evaluate's thresholds and reasons, and the feature substrings: many branches, no deep property.
- Hosts, collections, schedules, rules, credentials, users, sessions, sensor tokens, baselines and audit paging: key-value plumbing.
- PostgreSQL, HTTP, SSH dialling, the probe's collectors, CEL rules, Docker and Tetragon are not part of this model.
- ResponseQueue and Queue goroutines, tickers and context cancellation appear only as the interleaved steps they cause.

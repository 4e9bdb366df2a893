# PatchBoard: verified protocols

PatchBoard is a Go program that updates Windows software through WinGet,
Chocolatey and the Microsoft Store. Behind its user interface runs a set of small
concurrent and transactional protocols. This project models them in Dafny and
proves what they keep over every run, whatever fails and whoever interferes.

- **Jobs** (`JobModel`, `JobScheduler`, `JobSystem`, `JobTheorems`, `JobOrder`,
  `JobOutcomes`): the operation job scheduler. Each locked section is one method of
  a class, proved against a function on scheduler values; runs are sequences of such
  sections by any number of callers, the runner and shutdown.
- **Inventory** (`InventoryModel`, `InventoryService`, `InventoryTheorems`,
  `InventoryOutcomes`): background and synchronous refreshes racing under generation
  numbers, the queued flag, and the chained Store scan loop.
- **Store evidence** (`StoreModel`, `StoreReconcile`, `StoreTheorems`,
  `StoreCliParse`, `StoreCliReadings`, `StoreCliObserve`, `StoreCliRuns`,
  `StoreSanitize`, `StorePlan`, `StorePipeline`, `StoreHysteresis`, `StoreRows`,
  `StoreFalseAlarm`, `StoreProjection`, `StoreAuthorisation`): from provider output
  to an assessment per package family, retention across incomplete scans, and what
  the package list may offer.
- **Store repository** (`StoreRepoModel`, `StoreRepoTheorems`, `StoreRetention`,
  `StoreRepository`, `StoreMigration`): generation files beside an atomically
  replaced, checksummed pointer, and the temporary files that unfinished writes
  leave among them; any file operation may fail and the process may die after any of
  them.
- **End to end** (`StoreEndToEnd`, `StoreLeftovers`, `StoreProvenance`): any number
  of migrations, loads, scans and crashes, then one projection.
- **Self-update** (`SelfUpdateModel`, `SelfUpdate`, `SelfUpdateTheorems`): replace,
  health check, commit or roll back, with a failure possible at every step.
- **Buffers** (`LogEntries`, `LogRingModel`, `LogRing`, `LogRingTheorems`,
  `LogBufferModel`, `LogBuffer`, `OutputTail`, `ConsoleText`, `ConsoleWords`,
  `Utf8`, `Utf8Runes`): the log ring with its entry and byte budgets, the routing of
  entries to rings, the bounded output tail and how console bytes are read as text.
- **Retries** (`RetryModel`, `RetryTheorems`, `RetrySteps`): package actions and
  WinGet upgrade plans against arbitrary command results.

Objects whose methods update fields are classes; their methods are proved against
functions on plain values, and the theorems are about those functions over whole
runs. Where an in-place operation can be cut short, the class collects every state
a crash could leave (`hazards`), and the method's contract speaks of all of them.
Which file operations fail is chosen freely, unless the object is `reliable`.

## Where the code does not do what it seems to promise

Each of these has a lemma with a concrete or general counterexample, and a lemma
that says exactly when the promise holds.

- The log ring is not first-in first-out: growing while the oldest entry is not in
  the first slot puts the new entry before older ones (`OrderCanBreak`,
  `RingIsAQueueExactlyWhenAligned`).
- An incomplete scan "retains a previous positive" without asking whether the
  previous assessment was positive: scans that only failed, or one that failed after
  another found the package current, show it as available (`FailuresBecomeAvailable`,
  `CurrentBecomesRetainedAvailable`, `ShownAvailableIsBackedExactlyWhen`).
- A start that passed the lifecycle test before shutdown can leave another job
  queued with no runner (`StrandedJobIsReachable`, `RefusedLaunchStrands`).
- A package action cancelled right after a successful source update reports the
  source update's success as its own (`CancelledUpdateReportsSuccess`,
  `SuccessIsTheCommandsOwn`).
- A failed self-update of a missing executable installs whatever a leftover ".bak"
  holds and says "restored previous executable" (`StaleBackupIsInstalled`,
  `EndsSafeExactlyWhen`, `RestoredIsOldExactlyWhen`).
- An update that only names its family, beside a product ID that a provider verified,
  loses its executable target when it is stored (`StoringDisarmsFamilyOffer`,
  `StoredKeepsTargetExactlyWhen`).
- Two published rows for one family that the inventory lacks make the package
  updatable (`RepeatedRowAuthorisesAbsentPackage`,
  `AddedUpdatableExactlyWhenRepeated`).
- Streaming output and bounding it in one go differ below the limit when the output is
  not valid UTF-8 or a word of it is mended, and without a limit
  (`StreamingAgreesWithBounding`). A tail cut inside a rune is shown whole as
  Windows-1252 (`CutRuneChangesTheWholeTail`), and so is a chunk of live output
  (`LiveAgreesExactlyWhen`).
- Migrating two old files of one scan can leave a pointer with the wrong digest
  (`OlderTwinBreaksThePointer`, `NewestOldIsCommitted`), and then the load that migrates
  fails where later ones recover (`FirstLoadAgreesExactlyWhen`).
- With two generations of one scan, retention can change what a recovery finds
  (`PrunedTwinChangesTheLoad`, `TwinsAroundExist`, `PruneLeavesLoadsUnchanged`).
- A crash between writing a temporary file and renaming it leaves a generation that
  counts and is never removed: there is no bound on how many (`CrashesPileUp`,
  `CrashesHaveNoBound`, `RetentionIsExact`).
- A query of a category's log reports a gap that is none when the missing IDs went to
  other categories, and misses one when nothing is live (`AlignedQueries`).

## Model

| member | source | states |
|---|---|---|
| JobScheduler.PackageKeysOverlap | internal/updater/operation_job.go:190-207 | true exactly when some non-blank key occurs on both sides after trimming |
| JobScheduler.Scheduler.FindDuplicate | internal/updater/operation_job.go:153-170 | returns the newest incomplete job that excludes the request, and none exactly when there is none |
| JobScheduler.Scheduler.PendingCount | internal/updater/operation_job.go:209-219 | the number of queue entries whose job is incomplete |
| JobScheduler.Scheduler.Start | internal/updater/operation_job.go:71-136 | accepts exactly requests that nothing excludes and that find fewer than 25 pending; otherwise nothing changes; a runner is launched exactly when none was active |
| JobScheduler.Scheduler.LaunchFailure | internal/updater/operation_job.go:125-133 | withdraws the refused job alone, wherever pruning has left it |
| JobScheduler.Scheduler.PopNext | internal/updater/operation_job.go:240-320 | consumes the queue up to the first job that is neither withdrawn nor cancelled by the context |
| JobScheduler.Scheduler.SetStatus | internal/updater/operation_job.go:402-408 | a published status raises the job's and the scheduler's revision and nothing else |
| JobScheduler.Scheduler.Finish | internal/updater/operation_job.go:461-464 | refines the section that ends a job, whose outcomes are JobOutcomes.FinishedJobEnds |
| JobScheduler.Scheduler.Cancel | internal/updater/operation_job.go:466-487 | a queued job is cancelled at once, a running one is asked to stop, a completed one is left alone |
| JobScheduler.Scheduler.CancelForShutdown | internal/updater/operation_job.go:489-507 | every incomplete job is withdrawn or asked to stop, in whatever order the map is visited |
| JobScheduler.Scheduler.Prune | internal/updater/operation_job.go:509-556 | refines the history rule below |
| JobScheduler.Scheduler.RetainedIds | internal/updater/operation_job.go:509-541 | the two downward passes find exactly the jobs the history rule keeps |
| JobScheduler.Scheduler.ExistingQueueIds | internal/updater/operation_job.go:558-566 | the queue without the numbers of dropped jobs |
| JobScheduler.Scheduler.Snapshot | internal/updater/operation_job.go:445-459 | statuses, revision and queue depth are read together, after pruning |
| JobSystem.ApplyPreservesInv | internal/updater/operation_job.go:71-136 | every locked section, by any caller, keeps the invariant |
| JobSystem.RunPreservesInv | internal/updater/operation_job.go:240-320 | so does every interleaving |
| JobTheorems.ReachableStatesAreSafe | internal/updater/operation_job.go:71-136 | in every reachable state: no repetition in the queue, a queued job stands in it exactly once, one job at most runs and the only runner executes it, job numbers in range, at most 25 pending, no two live jobs exclude each other, and before shutdown a queued job has a runner |
| JobTheorems.StepAdvances | internal/updater/operation_job.go:221-230 | every section leaves what clients see alone or raises the revision |
| JobTheorems.EqualRevisionsEqualViews | internal/updater/http_job_handlers.go:180-195 | along any run, equal revisions mean equal job lists and pending counts |
| JobTheorems.ObserverIsNeverStale | internal/updater/http_job_handlers.go:180-195 | a client that re-reads only when the revision moved always shows the current list |
| JobTheorems.OverForever | internal/updater/operation_job.go:322-330 | a job that is over stays over in every continuation and is never executed |
| JobTheorems.CancelledWhileQueuedNeverRuns | internal/updater/operation_job.go:466-487 | a job cancelled while queued is never executed afterwards |
| JobTheorems.ExecutedAtMostOnce | internal/updater/operation_job.go:240-320 | a job that left the queue and is not being executed never will be again |
| JobTheorems.RefusedLaunchStrands | internal/updater/operation_job.go:125-133 | the clean-up of a refused launch leaves a job queued without a runner exactly when another job was queued |
| JobTheorems.StrandedJobIsReachable | internal/updater/operation_job.go:71-136 | a concrete run that strands a job after shutdown |
| JobOrder.JobsRunInOrder | internal/updater/operation_job.go:240-320 | in every run the queue stands in submission order and every executed job was submitted after all executed before it |
| JobTheorems.PruneKeepsExactlyTheHistory | internal/updater/operation_job.go:509-566 | past its size guard pruning keeps exactly the incomplete jobs, the newest completed of each type and the 25 newest completed; order of the queue kept; revision raised exactly when something went; idempotent |
| JobOutcomes.FinishedJobEnds | internal/updater/operation_job.go:298-315 | a finished job that was running or refreshing ends cancelled exactly if that was asked, else failed exactly if it has an error or a failing result, else succeeded; other states, and an earlier finish time, are kept; its packages go once it is over; no other job changes |
| JobOutcomes.ExecutedJobEnds | internal/updater/operation_job.go:240-320 | so ends, in every reachable state, the job a runner executes, pruning included, and the runner goes on |
| JobOutcomes.PruneKeepsStatuses | internal/updater/operation_job.go:509-556 | a job is dropped only once it has ended and 25 later ones have; the others keep their statuses |
| JobOutcomes.SubmittedJobWaits | internal/updater/operation_job.go:71-123 | a request that conflicts with no unfinished job and finds fewer than 25 pending waits, queued and untouched, at the end of the queue under the next number; any other changes nothing |
| JobOutcomes.CancelledJobEnds | internal/updater/operation_job.go:466-487 | cancelling withdraws a queued job at once, asks a running one to stop, and leaves any other as it was |
| JobOutcomes.ShutdownEndsJobs | internal/updater/operation_job.go:489-507 | shutdown withdraws every queued job and asks every other unfinished one to stop |
| JobOutcomes.ShutdownCountsJobs | internal/updater/operation_job.go:489-507 | and raises the revision once for each, and once more at most for what pruning drops |
| JobOutcomes.RefusedJobEnds | internal/updater/operation_job.go:125-133 | a refused launch withdraws its own job alone and leaves the runner inactive |
| JobOutcomes.RunnerDrainsTheQueue | internal/updater/operation_job.go:240-296 | the runner takes up the first queued job that nobody cancelled; all before it, or all there are once the application ends, end cancelled |
| JobOutcomes.ClientsSeeEveryJob | internal/updater/operation_job.go:445-459 | in every reachable state clients are shown every job with its status, in order of submission, and the number of queued jobs that have not ended |
| InventoryService.Inventory.Refresh | internal/updater/app_inventory.go:11-43 | refines the request section, whose outcomes are InventoryOutcomes.RequestLaunchesExactlyWhen |
| InventoryService.Inventory.BeginSync | internal/updater/app_inventory.go:91-110 | a synchronous refresh takes the next generation and clears the queued flag |
| InventoryService.Inventory.Publish | internal/updater/app_inventory.go:58-85 | a result replaces the cache exactly when its generation is still current |
| InventoryService.Inventory.PrepareQueued | internal/updater/app_inventory.go:226-247 | a queued forced request becomes the next generation |
| InventoryService.Inventory.BeginScan | internal/updater/app_inventory.go:268-293 | at most one scan loop, with one follow-up owed to forced requests that arrive while it runs |
| InventoryService.Inventory.ScanFinished | internal/updater/app_inventory.go:304-348 | the loop goes round again exactly when a follow-up is owed and the context lives |
| InventoryTheorems.RunPreservesInv | internal/updater/app_inventory.go:11-43 | every interleaving of refreshes, scans, cancellations and shutdown keeps the protocol's invariant, contexts found done or not yet after shutdown began |
| InventoryTheorems.LoadingMeansOneCurrentRefresher | internal/updater/app_inventory.go:26-42 | in every reachable state loading holds exactly while one refresher of the current generation is in flight, and at most one scan loop is alive |
| InventoryTheorems.OnlyTheCurrentRefresherPublishes | internal/updater/app_inventory.go:47-66 | a stale refresher never touches the cache |
| InventoryTheorems.PublishedGenerationsIncrease | internal/updater/app_inventory.go:96-126 | along any run the published generation never goes back |
| InventoryTheorems.NoForcedRefreshIsLost | internal/updater/app_inventory.go:11-43 | until a cancellation or shutdown a forced request is queued, or in the hands of a current refresher that begins collecting afterwards, or answered by the cache, synchronous refreshes notwithstanding |
| InventoryTheorems.CancellationDropsExactlyTheCurrent | internal/updater/app_inventory.go:58-66 | a cancelled refresh drops an owed request exactly when it was the current one and the cache is older |
| InventoryTheorems.ForcedPublishOwesAScan | internal/updater/app_inventory.go:268-293 | publishing a forced refresh asks for a scan that begins later |
| InventoryTheorems.NoForcedScanIsDropped | internal/updater/app_inventory.go:304-348 | until shutdown a forced scan is followed up or was answered by a pass that began after it |
| InventoryOutcomes.RequestLaunchesExactlyWhen | internal/updater/app_inventory.go:11-43 | a request launches a refresh exactly if none is loading and it is forced, nothing was ever fetched, or more than 90 seconds have passed since; otherwise nothing changes, but that a forced request while loading is queued |
| InventoryOutcomes.ExpiredCacheIsRefreshed | internal/updater/app_inventory.go:11-43 | in every run the first unforced request after the window, with nothing loading, puts a refresher of a new generation in flight |
| InventoryOutcomes.ExpiryRunsFromTheLastFetch | internal/updater/app_inventory.go:58-85 | the window runs from the last publication |
| InventoryOutcomes.SyncTakesOver | internal/updater/app_inventory.go:91-110 | a synchronous refresh takes the next generation over from any other and clears the queue |
| InventoryOutcomes.DroppedRefreshEndsLoading | internal/updater/app_inventory.go:26-66 | a refused or cancelled refresh ends loading exactly if it was the current one |
| InventoryOutcomes.DroppedScanOwesNothing | internal/updater/app_inventory.go:304-312 | a dropped scan is over, and its follow-up with it |
| InventoryOutcomes.ScanStartsExactlyWhen | internal/updater/app_inventory.go:268-293 | a scan starts exactly if scans are enabled, none runs, and it is forced, or 300 seconds have passed since a publication and 45 since a failure; a forced one while one runs is followed up |
| InventoryOutcomes.PassSetsTheWindows | internal/updater/app_inventory.go:304-348 | a pass that ends sets the window its result calls for, and goes round again exactly if a follow-up is owed and the context lives |
| InventoryOutcomes.PublishedPassHoldsOff | internal/updater/app_inventory.go:268-348 | after a published pass no unforced scan starts for 300 seconds |
| StoreCliParse.ParseUpdates | internal/updater/store_cli_catalog_provider.go:675-810 | one pass over the lines and the verdict refine the fold below |
| StoreCliParse.CompleteCoverageIsSound | internal/updater/store_cli_catalog_provider.go:675-871 | complete coverage means no failed or unrecognised line, nothing contradicting "no updates found", at least the announced number of offers, a family and a product in every offer, and every family and product named in the output in some offer |
| StoreCliParse.CompleteExactlyWhen | internal/updater/store_cli_catalog_provider.go:764-810 | coverage is complete exactly when, beside that, every record was well formed |
| StoreCliReadings.OffersAreRead | internal/updater/store_cli_catalog_provider.go:675-871 | no offer is made up: each field of each offer was read from some line, complete listing or not |
| StoreCliReadings.CompleteCoverageKeepsDetails | internal/updater/store_cli_catalog_provider.go:835-871 | a complete listing loses no version it names, and no remark that an update does not apply |
| StoreCliReadings.ListingsReadBack | internal/updater/store_cli_catalog_provider.go:675-810 | whatever offers are printed record by record, fields in any order and repeated at will, each record ended by a blank line or by the next one's other name, are read back in order and in full, and the listing is complete exactly if there are any |
| StoreCliReadings.ConfusedRecordsAreDropped | internal/updater/store_cli_catalog_provider.go:847-871 | a record that gives two versions yields no offer and counts as malformed |
| StoreCliObserve.ObserveFamilies | internal/updater/store_cli_catalog_provider.go:70-214 | the provider's loops refine the run below |
| StoreCliObserve.HealthyRunDecidesEveryFamily | internal/updater/store_cli_catalog_provider.go:70-214 | a healthy run has, for every product-like family of the scan's user, a negative exactly when no offer names it and an offer otherwise |
| StoreCliObserve.ObservedRunsAreSane | internal/updater/store_cli_catalog_provider.go:70-214 | whatever the listing, the run passes sanitising unchanged |
| StoreCliObserve.OfferIsSane | internal/updater/store_cli_catalog_provider.go:138-182 | an applicable offer becomes an exact offer for its own family |
| StoreCliRuns.ObservedHealthExactlyWhen | internal/updater/store_cli_catalog_provider.go:70-214 | a run is unsupported exactly without the command, healthy exactly with nothing to ask about or a complete listing understood to the last offer, else incomplete; it hints at updates exactly if the listing announced some |
| StoreCliRuns.RunsReportTheListing | internal/updater/store_cli_catalog_provider.go:125-214 | everything in a run reports an offer, with its product ID, its version and the family as update ID, or denies one, the latter in healthy runs alone; mappings come from offers too |
| StoreCliRuns.OffersAreReported | internal/updater/store_cli_catalog_provider.go:125-182 | every offer that names a family of the scan is reported and mapped, whatever becomes of the listing |
| StoreCliRuns.ListedUpdateIsAvailable | internal/updater/store_update_model.go:233-326 | the only offer a listing has for a family is reconciled to an available update with the listing's product and version exactly unless it is marked inapplicable |
| StoreSanitize.SanitizeRun | internal/updater/store_scan_pipeline.go:750-791 | the filtering passes refine the run below |
| StoreSanitize.DowngradeForBlockingObservations | internal/updater/store_scan_pipeline.go:793-810 | a healthy run is downgraded exactly when some observation blocks |
| StoreSanitize.SanitizeMakesSane | internal/updater/store_scan_pipeline.go:750-810 | the result is sane and passes snapshot validation, exactly sane runs are left alone, and sanitising is idempotent |
| StoreSanitize.HealthyExactlyWhen | internal/updater/store_scan_pipeline.go:750-810 | the result is healthy exactly when the provider said so and everything it returned was in scope, verified and unblocking |
| StoreSanitize.SanitizeKeepsWhatBelongs | internal/updater/store_scan_pipeline.go:750-791 | every observation of the scan and its user and every mapping verified in it is kept, attributed and dated where it was not, and nothing else |
| StoreSanitize.SanitizedHealth | internal/updater/store_scan_pipeline.go:750-810 | the health left: failed with any foreign evidence, incomplete if none was reported or if healthy beside blocking evidence, else as reported |
| StoreSanitize.PreparedAddsStandIns | internal/updater/store_scan_pipeline.go:331-387 | an unhealthy run but WinRT discovery's gains one stand-in for each family owed evidence that it said nothing about, of the kind its health calls for and the latest time known; any other is left as sanitised |
| StoreSanitize.SynthesizeMissingObservations | internal/updater/store_scan_pipeline.go:341-387 | the two loops refine the run below |
| StoreSanitize.SecondPassChangesNothing | internal/updater/store_scan_pipeline.go:331-337 | after sanitise and synthesise the second sanitise finds nothing to do |
| StoreSanitize.UnhealthyRunsCoverEveryFamily | internal/updater/store_scan_pipeline.go:341-387 | every unhealthy run but WinRT discovery's has an observation for every resolved product-like family of the scan's user |
| StoreSanitize.GapsAlwaysBlock | internal/updater/store_scan_pipeline.go:351-385 | every added observation blocks, and health is the sanitised run's |
| StoreSanitize.ScanCompletionStatus | internal/updater/store_scan_pipeline.go:830-846 | incomplete exactly when a mandatory run, or the only run, was not healthy |
| StoreSanitize.PublishedExactlyWhen | internal/updater/store_scan_pipeline.go:830-865 | a scan whose inventory has no ID, or has trouble and no families, fails; any other completes exactly with all runs healthy but optional ones that are not the only one; published is a scan that did not fail and has families or completed |
| StoreSanitize.CurrentNeedsEveryRequiredProvider | internal/updater/store_scan_pipeline.go:830-846 | a package is called current only if the inventory and all required providers were healthy and each of them returned an authoritative negative for it |
| StoreSanitize.RequiredKeysAre | internal/updater/store_scan_pipeline.go:1048-1071 | required are exactly the providers of the scan with a key, other than the inventory and the four optional ones |
| StoreReconcile.ReconcileStoreUpdate | internal/updater/store_update_model.go:233-359 | one pass over the observations refines the decision that the theorems below state on the evidence as a set |
| StoreTheorems.FiledUnder | internal/updater/store_update_model.go:93-101 | evidence is filed under its provider's ID, or else its backend, or else its name |
| StoreTheorems.StateDependsOnTheEvidenceSet | internal/updater/store_update_model.go:233-359 | the state is a function of the set of observations and the set of required providers, given without passes or orders |
| StoreTheorems.OrderDoesNotMatter | internal/updater/store_update_model.go:233-359 | reordering or repeating reports never changes the state |
| StoreTheorems.AvailableExactlyWhen | internal/updater/store_update_model.go:314-326 | available exactly when exact offers exist, nothing healthy contradicts them and they agree |
| StoreTheorems.CurrentExactlyWhen | internal/updater/store_update_model.go:332-359 | current exactly when the scan completed, every required provider returned a negative and no evidence says otherwise |
| StoreTheorems.CurrentMeansOnlyNegatives | internal/updater/store_update_model.go:332-359 | current means a completed scan of the user in which every observation of the package is a healthy authoritative negative, and there is one |
| StoreTheorems.AvailableTargetIsExact | internal/updater/store_update_model.go:422-533 | the target merged from agreeing offers is itself exact for the identity |
| StoreTheorems.AvailableMeansExecutable | internal/updater/store_update_model.go:159-167 | available means a verified, dated target for this very package with an ID to execute, any product ID among them seven to thirty-two capitals and digits |
| StoreTheorems.AvailableSaysWhatWasOffered | internal/updater/store_update_model.go:422-533 | the product ID and version of an available update are blank exactly if every offer's are, and otherwise the only ones offered; its update ID is the family's own if some offer has it, and otherwise the only other one; all else is that of the offer whose description sorts first |
| StoreTheorems.AssessmentsQuoteTheirGround | internal/updater/store_update_model.go:233-359 | any other assessment repeats the versions and target of the first observation of the class that decided it, disagreeing offers leaving no target; an unknown one may say nothing |
| StorePlan.MappingReusable | internal/updater/store_scan_pipeline.go:683-710 | an earlier mapping is trusted again exactly for the unchanged package, within fourteen days, by the same version of a known provider |
| StorePlan.ReuseEarlierMappings | internal/updater/store_scan_pipeline.go:666-681 | the pass over a published, not recovered snapshot finds the last reusable mapping of each identity, and any other snapshot lends none |
| StorePlan.AttachFingerprints | internal/updater/store_scan_pipeline.go:712-735 | the pass in place fills exactly the blank fingerprints of mappings whose family is known |
| StorePlan.StampedIsReusableExactlyWhen | internal/updater/store_scan_pipeline.go:683-735 | a mapping stamped with its package's fingerprint is reusable for that package exactly while it is fresh and its provider known and of the same version |
| StorePlan.StampedThenReusedExactlyWhen | internal/updater/store_scan_pipeline.go:683-735 | a mapping stamped when a package looked one way is reusable when it looks another way exactly while fresh, of a known provider of the same version, and with name, architecture and kind unchanged, and publisher where both are known |
| StorePlan.LastOneServes | internal/updater/store_scan_pipeline.go:666-681 | of several reusable mappings of one identity the last is taken, and none exactly if there is none |
| StorePlan.ResolvePositives | internal/updater/store_scan_pipeline.go:467-486 | each offer without a target gets one from an earlier mapping, or has its family planned |
| StorePlan.SortedFamilies | internal/updater/store_scan_pipeline.go:518-525 | exactly the planned families, in strictly increasing key order, in whatever order the map is visited |
| StorePlan.PlanExactWork | internal/updater/store_scan_pipeline.go:449-528 | refines the plan below; a deep scan plans every family owing evidence |
| StorePlan.CheckedExactlyWhen | internal/updater/store_scan_pipeline.go:467-509 | a family's state is checked exactly when the aggregate listing hints at updates or denies some, when it updates unattended and a provider that is not optional failed, or when it is offered an update no earlier mapping completes; it is asked about exactly then and where mappings are wanted and it has none |
| StorePlan.DoubtSweepsEveryFamily | internal/updater/store_scan_pipeline.go:487-517 | a hint at updates or an aggregate negative has every family asked about, and with mappings wanted so has every family without a reusable one |
| StorePlan.NoOfferIsDropped | internal/updater/store_scan_pipeline.go:467-486 | a healthy offer without a target leads to an exact check of its family, or to the same offer completed with an earlier mapping's target |
| StorePlan.ReusedRunIsSound | internal/updater/store_scan_pipeline.go:618-681 | reused mappings yield a run that passes snapshot validation though nobody sanitises it; each of its observations is exact and completes an offer of this scan with a mapping lent by a valid published snapshot |
| StorePipeline.VerifiedProductIds | internal/updater/store_scan_pipeline.go:1012-1046 | an identity's product IDs conflict exactly when two of its verified mappings differ beyond case; otherwise the first one is its product ID |
| StorePipeline.ReconcileScan | internal/updater/store_scan_pipeline.go:924-989 | the loop over families produces each product-like family's row in order |
| StorePipeline.NormalizeExactTargets | internal/updater/store_scan_repository.go:191-231 | rows whose executable target is not their own lose it, in place |
| StoreHysteresis.RetractionVetoNeverFires | internal/updater/store_scan_pipeline.go:991-1010 | the healthy-retraction veto can never fire when retention applies |
| StoreHysteresis.StaleRowIsInherited | internal/updater/store_scan_pipeline.go:940-962 | a stale row comes from an incomplete scan and repeats the observation time of the previous row |
| StoreHysteresis.StaleRowsKeepTheirAge | internal/updater/store_scan_pipeline.go:924-989 | across any history of scans a retained row stays stale and keeps the observation time of its last fresh assessment, and no published scan since then completed |
| StoreHysteresis.FreshRowIsSound | internal/updater/store_scan_pipeline.go:963-986 | a fresh row says available exactly when the scan's evidence does and the verified product IDs agree, and is then executable |
| StoreRows.RowIsStaleExactlyWhen | internal/updater/store_scan_pipeline.go:924-962 | a row is carried over exactly if the scan did not complete, there was a row before, and the evidence leaves the state unknown, current or inapplicable |
| StoreRows.StaleRowsCarryOver | internal/updater/store_scan_pipeline.go:940-962 | it then repeats the earlier row's version, target, IDs, age and applicability, with the installed version found now |
| StoreRows.FreshRowsRepeat | internal/updater/store_scan_pipeline.go:963-986 | a fresh row repeats its assessment and shows a verified product ID where that has none; verified product IDs that disagree turn an available update into a conflict with nothing to execute |
| StoreRows.StoredTargets | internal/updater/store_scan_repository.go:191-231 | a stored row keeps an executable target exactly if its IDs are the target's, and then shows those |
| StoreRows.StoredKeepsTargetExactlyWhen | internal/updater/store_scan_repository.go:191-231 | an available row keeps its target in storage exactly if some offer names a product or no provider verified one, and then shows what was offered |
| StoreRows.StoringDisarmsFamilyOffer | internal/updater/store_scan_repository.go:209-231 | for any package, an offer by the family's name beside a verified product ID is available and executable when scanned, and has nothing left to execute once stored |
| StoreHysteresis.ShownAvailableIsBackedExactlyWhen | internal/updater/store_scan_pipeline.go:940-962 | over any history, a row shown as available has an offer of the scan that last assessed it afresh behind it exactly when that scan's own row said available |
| StoreFalseAlarm.FailuresBecomeAvailable | internal/updater/store_scan_pipeline.go:940-962 | after any number of scans whose required provider failed, with runs prepared and status given as in the pipeline, the package is unknown after the first and shown as available from the second on |
| StoreFalseAlarm.CurrentBecomesRetainedAvailable | internal/updater/store_scan_repository.go:100-106 | a package that a completed scan found current is shown as available, stale, after one scan that failed |
| StoreRepository.Repository.LoadUsable | internal/updater/store_scan_file_repository.go:405-458 | returns the decodable files, temporary ones included, the first in directory order of each scan ID; only undecodable files may have been renamed away, and where no file operation fails, all of them that are not JSON and not oversized have been |
| StoreRepository.Repository.LatestOf | internal/updater/store_scan_file_repository.go:934-947 | finds the newest published generation, and none exactly when there is none |
| StoreRepository.Repository.Recover | internal/updater/store_scan_file_repository.go:327-344 | returns that generation flagged as recovered |
| StoreRepository.Repository.LoadLatest | internal/updater/store_scan_file_repository.go:273-325 | follows the pointer, falls back or fails as the loading theorems below say |
| StoreRepository.Repository.Prune | internal/updater/store_scan_file_repository.go:660-694 | removes only the files of proper name of scans beyond the newest 50 and other than the current one, all of them when it succeeds; so does every prefix of its removals; it succeeds where no file operation fails |
| StoreRepository.Repository.Persist | internal/updater/store_scan_file_repository.go:137-223 | wherever it stops, the pointer commits to what it did before or to the new scan, and to the new one only if that is later; every readable file is as it was, unless fifty scans overtook it; success means the scan is stored, and success as published that it is committed and later than what a load found; a load that fails ends it with that fault; invalid and duplicate scans are refused; where no file operation fails nothing else keeps an admitted scan from being stored and retention from being applied |
| StoreRepository.Repository.Commit | internal/updater/store_scan_file_repository.go:177-210 | the generation file, the pointer and the withdrawal of an unpointed file each keep that |
| StoreRepository.Repository.WriteAtomically | internal/updater/store_scan_file_repository.go:581-614 | a temporary file, torn or whole, is written and renamed; every failure leaves nothing or that temporary file |
| StoreRepository.Repository.Downgrade | internal/updater/store_scan_file_repository.go:651-658 | overwriting in place, possibly torn, commits nothing else |
| StoreRetention.RetentionIsExact | internal/updater/store_scan_file_repository.go:660-694 | a completed pruning leaves exactly the 50 newest scans, the one to keep, and the scans beyond them that are listed from temporary files; a file that became usable was hidden by a removed one of its scan |
| StoreRetention.KeptExactlyWhen | internal/updater/store_scan_file_repository.go:660-694 | a completed pruning leaves a scan's file exactly if fewer than fifty scans started later, a load needs it, or it is a temporary file |
| StoreRepoTheorems.StoredDecodes | internal/updater/store_scan_file_repository.go:546-579 | what is written decodes to itself |
| StoreRepoTheorems.QuarantineChangesNothing | internal/updater/store_scan_file_repository.go:438-448 | quarantining undecodable files changes neither what is committed nor what a load returns |
| StoreRepoTheorems.UnflaggedComesThroughThePointer | internal/updater/store_scan_file_repository.go:374-403 | a result that is not flagged as recovered came through a pointer whose digest, scan ID, start time and user match the generation read |
| StoreRepoTheorems.LoadFailsExactlyWhen | internal/updater/store_scan_file_repository.go:273-325 | a load fails exactly if the pointer or the pointed file is locked, or that file has the recorded digest and is of a newer schema or another user, each with its own fault; otherwise it follows the pointer, or finds a recovered snapshot or nothing |
| StoreRepoTheorems.CommittedExactlyWhen | internal/updater/store_scan_file_repository.go:346-403 | the pointer is followed exactly to a file that is there, decodes to a valid snapshot of the user, and has the digest, scan and start recorded; all of it is found |
| StoreRepoTheorems.FallbackIsTheNewest | internal/updater/store_scan_file_repository.go:327-344 | a load that neither fails nor follows the pointer finds the published generation that started last, flagged as recovered, or nothing exactly if there is none |
| StoreRepoTheorems.AcceptedExactlyWhen | internal/updater/store_scan_file_repository.go:460-498 | a listing uses exactly the files of at most 16 MiB that decode to a valid snapshot of the user |
| StoreRepoTheorems.FirstTwinCounts | internal/updater/store_scan_file_repository.go:405-458 | of two files of one scan a temporary one counts before a generation, and otherwise the one that comes first |
| StoreRepoTheorems.LoadedSpeaksForTheUser | internal/updater/store_scan_repository.go:150-189 | whatever a load finds is about that user and one scan, down to the last observation and row |
| StoreRepoTheorems.PruneKeepsCommitted | internal/updater/store_scan_file_repository.go:660-694 | pruning never removes the pointed generation |
| StoreRepoTheorems.PruneLeavesLoadsUnchanged | internal/updater/store_scan_file_repository.go:660-694 | pruning leaves the next load as it was exactly if the load follows the pointer, or fails over a file still there, or rests on a recovery and no removed file hid a newer one of its scan |
| StoreRetention.PrunedTwinChangesTheLoad | internal/updater/store_scan_file_repository.go:660-694 | a full repository with two files of one scan where pruning changes the recovered result |
| StoreRetention.TwinsAroundExist | internal/updater/store_scan_file_repository.go:660-694 | such a repository |
| StoreRepoTheorems.PublicationIsAtomic | internal/updater/store_scan_file_repository.go:137-223 | on every disk that persisting can leave behind a load finds the committed snapshot or the new one; if none was committed, the new one, a recovered one, none, or a failure |
| StoreRepoTheorems.NewFileCommitsNothingElse | internal/updater/store_scan_file_repository.go:177-190 | a generation file alone commits nothing, except through a dangling pointer that already names exactly that file |
| StoreMigration.Migration.MigrateOldLayout | internal/updater/store_scan_file_repository.go:773-848 | copies the decodable old files in directory order, keeps the last file per scan ID for its digest, and points at the newest published one; every state on the way is a prefix of the copies, perhaps with the temporary file of the next; where no file operation fails it finishes |
| StoreMigration.InterruptionLeavesAtMostALeftover | internal/updater/store_scan_file_repository.go:773-848 | interrupted anywhere and run again, migration ends where an uninterrupted one would, except for at most one temporary file, and commits the same |
| StoreMigration.PointersAreWrittenLast | internal/updater/store_scan_file_repository.go:825-848 | a repository with a pointer of any kind is left alone; another gets one at the end and not before, recording the newest published old scan that was not itself recovered |
| StoreMigration.NewestOldIsCommitted | internal/updater/store_scan_file_repository.go:825-848 | afterwards something is committed exactly when the last old file with the newest one's scan ID is what stands in its generation file, and that file is committed |
| StoreMigration.OneFilePerScanIsCommitted | internal/updater/store_scan_file_repository.go:825-848 | with one file per scan ID the newest old snapshot is committed exactly unless another content stood in its place |
| StoreMigration.OlderTwinBreaksThePointer | internal/updater/store_scan_file_repository.go:798-845 | two old files of one scan, the older one last: nothing is committed, the load that migrates fails, and the next finds at most the older one, recovered |
| StoreMigration.Migration.LoadLatest | internal/updater/store_scan_file_repository.go:293-312 | a load without a pointer migrates first and then follows the pointer or fails; without one it recovers |
| StoreMigration.FirstLoadAgreesExactlyWhen | internal/updater/store_scan_file_repository.go:293-312 | the load that migrates finds what later loads will, exactly if no old file is pointed at, or the last old file of the newest scan is what stands in its generation file, or that file is locked |
| StoreMigration.CopiesAreNamed | internal/updater/store_scan_file_repository.go:817-822 | migrated files are named after their scans, as persisting expects |
| StoreProjection.EvaluateFreshness | internal/updater/store_assessment_freshness.go:25-80 | fresh exactly when published, not recovered, not stale, both ages at most two hours and both versions known and equal |
| StoreAuthorisation.FreshExactlyWhen | internal/updater/store_assessment_freshness.go:25-80 | the same spelt out, with two hours in figures |
| StoreAuthorisation.FamilyNameComesFrom | internal/updater/store_update_api.go:134-153 | which of its names a package is filed under |
| StoreAuthorisation.FamilyNamesLookLike | internal/updater/store_update_api.go:155-168 | what passes for a family name: no space or slash, one inner underscore or none and a dot |
| StoreProjection.ApplyPublishedAssessments | internal/updater/store_scan_inventory_adapter.go:194-229 | the pass over the rows refines the projection below |
| StoreAuthorisation.NoEvidenceNoUpdate | internal/updater/store_update_api.go:68-79 | a Store package without Store evidence is never updatable, with any override |
| StoreAuthorisation.OverlayAuthorisesExactly | internal/updater/store_scan_inventory_adapter.go:271-307 | a projected row makes its package updatable exactly when it is an available, exact, fresh offer for the installed version and nothing else bars it |
| StoreAuthorisation.OverlaidShows | internal/updater/store_scan_inventory_adapter.go:271-307 | a package shows the state, scan, IDs and offered version of the row laid over it; an executable target and an update exactly while the row is fresh; an available version only with an update or one pending |
| StoreAuthorisation.OverlayFrame | internal/updater/store_scan_inventory_adapter.go:271-307 | support, backend, capabilities and the family it is filed under follow, and its other names stay |
| StoreAuthorisation.BarsAreObstacles | internal/updater/store_update_api.go:43-102 | a bar names something that stands in the way of an update, and without one nothing does |
| StoreAuthorisation.PackagesShowTheLastRow | internal/updater/store_scan_inventory_adapter.go:194-229 | after all rows an inventory package shows the last one of its family, and is as it was without one |
| StoreAuthorisation.AddedPackagesShowTheirFamilies | internal/updater/store_scan_inventory_adapter.go:203-218 | each family the inventory lacks gets exactly one package, which shows the last row of the family |
| StoreAuthorisation.NewPackageIsTheFamily | internal/updater/store_scan_inventory_adapter.go:239-269 | a package that a row brings along is the family itself, at the version the scan found or else the family's |
| StoreAuthorisation.NewPackageIsInert | internal/updater/store_scan_inventory_adapter.go:239-269 | a package added by the projection is stale and not updatable |
| StoreAuthorisation.UpdatableExactlyWhenAuthorised | internal/updater/store_scan_inventory_adapter.go:194-229 | a Store package of the inventory is updatable exactly when the last row filed under its family authorises it, repeated rows or not |
| StoreAuthorisation.AddedUpdatableExactlyWhenRepeated | internal/updater/store_scan_inventory_adapter.go:207-218 | some package the projection added is updatable exactly when a family absent from the inventory has two rows of which the last authorises the package the first one added |
| StoreAuthorisation.AddedNeverUpdatable | internal/updater/store_scan_inventory_adapter.go:239-269 | with one row per family no added package is updatable |
| StoreAuthorisation.OtherManagersUntouched | internal/updater/store_scan_inventory_adapter.go:197-201 | packages of other managers are left alone |
| StoreAuthorisation.RepeatedRowAuthorisesAbsentPackage | internal/updater/store_scan_inventory_adapter.go:207-227 | a repeated row makes a package updatable that the inventory never had |
| StoreEndToEnd.CarryOut | internal/updater/store_scan_file_repository.go:137-223 | carrying out migrations, loads and scans, each to its end or up to a crash after any file operation, makes exactly the runs the end-to-end theorems are about |
| StoreEndToEnd.FilesAreKnown | internal/updater/store_scan_file_repository.go:137-223 | in every reachable repository each file holds an old file, a scan, or nothing that decodes, and generation files are named after their scans |
| StoreEndToEnd.ReachableIdsAreUnique | internal/updater/store_scan_file_repository.go:164-172 | without old files no scan ID ever occurs twice, temporary files included |
| StoreEndToEnd.LoadsDoNotFail | internal/updater/store_scan_file_repository.go:273-325 | no load of a reachable repository fails |
| StoreEndToEnd.LoadedWasPersisted | internal/updater/store_scan_file_repository.go:273-344 | whatever a load finds, committed or recovered, is an earlier scan's snapshot or an old file's |
| StoreEndToEnd.PruningIsInvisible | internal/updater/store_scan_file_repository.go:660-694 | over any run without old files, pruning never changes the next load and leaves at most 51 scans beside exactly the surplus scans of temporary files |
| StoreEndToEnd.LoadsMoveAtomically | internal/updater/store_scan_file_repository.go:137-223 | from scan to scan an unrecovered load result is kept or replaced by the new, later snapshot |
| StoreEndToEnd.CommittedWasPersisted | internal/updater/store_scan_file_repository.go:137-223 | over any series of migrations, scans and crashes, what is committed was persisted by one of the scans or is an old file |
| StoreEndToEnd.CommittedOnlyMovesForward | internal/updater/store_scan_file_repository.go:927-932 | and never goes back in (start, scan ID) order once something is committed |
| StoreEndToEnd.RowAuthorisesExactlyWhen | internal/updater/store_update_api.go:43-102 | a stored row of a published scan authorises an update exactly if the scan assessed it afresh, its evidence offers an executable one, it completed within two hours, and the installed version is known, the one assessed and not pinned |
| StoreEndToEnd.UpdatesAreBackedByEvidence | internal/updater/store_scan_inventory_adapter.go:194-307 | if a Store package of the inventory is offered for update, one scan, completed within two hours, offered the update for exactly its user, family and installed version, uncontradicted, and the product ID, update ID and version shown are the ones offered; or the loaded snapshot is an old file |
| StoreLeftovers.CrashesPileUp | internal/updater/store_scan_file_repository.go:581-614 | scans that all crash before the renaming are such a run, leave as many usable generations, and no pruning removes any |
| StoreLeftovers.CrashesHaveNoBound | internal/updater/store_scan_file_repository.go:684-692 | for every number there are so many such scans |
| StoreProvenance.RowsHaveOrigins | internal/updater/store_scan_pipeline.go:924-989 | over any run in which scans fall back on what loads return, every row stems, through incomplete scans alone, from a fresh assessment with the same observation time, available exactly if that scan's evidence says so, or from an old file |
| StoreProvenance.LoadedRowsHaveOrigins | internal/updater/store_scan_repository.go:100-106 | so does every row that a load returns, committed or recovered |
| SelfUpdate.Updater.ReplaceExecutable | internal/updater/self_update_apply.go:119-178 | the bytes swapped in are the bytes whose digest was checked; every other end leaves the executable alone |
| SelfUpdate.Updater.ReplaceWithRetry | internal/updater/self_update_apply_windows.go:422-431 | retries sharing violations until the deadline, and nothing else |
| SelfUpdate.Updater.RestoreBackup | internal/updater/self_update_apply_windows.go:375-420 | puts the backup back in one step and then drops it |
| SelfUpdate.Updater.RollBack | internal/updater/self_update_apply_windows.go:361-373 | reports "restored" exactly when restoring succeeded |
| SelfUpdate.Updater.Apply | internal/updater/self_update_apply_windows.go:293-327 | in every state it passes through the executable is the old one or a checked one, and until the health check was answered the backup holds the old one, if there was something to fall back on |
| SelfUpdate.AttemptsKeepOrReplace | internal/updater/self_update_apply_windows.go:422-431 | failed attempts leave executable and backup alone; a successful one installs a checked image and backs the old one up |
| SelfUpdateTheorems.OutcomesTellTheTruth | internal/updater/self_update_apply_windows.go:293-373 | what each reported outcome says about executable and backup |
| SelfUpdateTheorems.OutcomeExactlyWhen | internal/updater/self_update_apply_windows.go:293-373 | every outcome and exactly when it comes about: with a restart, success only after the new executable was started and acknowledged; a fault at any of these rolls back |
| SelfUpdateTheorems.AttemptSucceedsExactlyWhen | internal/updater/self_update_apply.go:119-178 | a replacement succeeds exactly if the digest is right and no step fails |
| SelfUpdateTheorems.AttemptsEndAt | internal/updater/self_update_apply_windows.go:422-431 | attempts go on exactly while they end in sharing violations before the deadline; the last one decides and installs what was staged then |
| SelfUpdateTheorems.FailedImageIsSetAside | internal/updater/self_update_apply_windows.go:375-420 | a rollback sets the image it takes out aside, and no temporary file of the transaction stays in use |
| SelfUpdateTheorems.StraysAreCounted | internal/updater/self_update_apply.go:119-178 | each attempt that fails on its temporary file and cannot remove it leaves one behind, and nothing else does |
| SelfUpdateTheorems.RestoredIsOldExactlyWhen | internal/updater/self_update_apply_windows.go:361-373 | "restored previous executable" is true exactly when there was one |
| SelfUpdateTheorems.NothingWrongMeansUpdated | internal/updater/self_update_apply_windows.go:293-327 | without faults a verified update ends installed and reported as such |
| SelfUpdateTheorems.EndsSafeExactlyWhen | internal/updater/self_update_apply_windows.go:293-420 | whatever fails, the update ends with the old or a checked executable exactly when there was one to begin with, or no leftover backup, or one that passes the check |
| SelfUpdateTheorems.StaleBackupIsInstalled | internal/updater/state_store_replace_windows.go:31-32 | a missing executable beside a leftover backup ends with the leftover installed |
| Utf8.ValidTail | internal/updater/command_output_tail.go:67-84 | trimming leading invalid bytes and converting the rest is just dropping the invalid bytes |
| Utf8.ToValidIsValid | internal/updater/command_output_tail.go:67-84 | what is kept is valid UTF-8, and valid text is kept whole |
| Utf8Runes.RunesAreForms | internal/updater/command_output_tail.go:67-84 | a string starts with a rune of some size exactly when it starts with the UTF-8 form of that size of some code point |
| Utf8Runes.ValidIsText | internal/updater/command_output_tail.go:67-84 | valid strings are what sequences of code points are written as |
| Utf8Runes.OnlyInvalidBytesAreDropped | internal/updater/command_output_tail.go:67-84 | after a valid part exactly a byte that starts no rune is dropped |
| ConsoleText.RepairMojibake | internal/updater/command_output_encoding.go:24-58 | the loop over runes mends exactly the words the function below mends |
| ConsoleText.DecodedIsValid | internal/updater/command_output_encoding.go:14-22 | decoding yields valid UTF-8, however the bytes were cut |
| ConsoleText.DecodedIsOutputExactlyWhen | internal/updater/command_output_encoding.go:14-83 | decoding leaves bytes alone exactly when they are valid UTF-8 with no word to mend; valid text without a marker never has one |
| ConsoleText.UnreadUndoes | internal/updater/command_output_encoding.go:84-219 | reading bytes as Windows-1252 can only be undone to these bytes |
| ConsoleWords.MendedExactlyWhen | internal/updater/command_output_encoding.go:60-82 | a word is mended exactly when it carries a marker and is the Windows-1252 reading of valid UTF-8 that scores at least three better; it becomes that |
| ConsoleWords.MarkersAreBytes | internal/updater/command_output_encoding.go:24-58 | valid text has a marker exactly where 0xC3 is followed by 0x82, 0x83 or 0xA2 |
| ConsoleWords.WordsAreMendedAlone | internal/updater/command_output_encoding.go:24-58 | words are mended one by one and white space between them stays |
| ConsoleText.LiveAgreesExactlyWhen | internal/updater/command_log.go:657-679 | valid output without a marker reads the same chunk by chunk as in one go exactly when no chunk ends inside a rune |
| LogEntries.EntrySize | internal/updater/command_log.go:374-381 | the loop adds up the entry's size |
| LogEntries.ClampMeetsItsLimit | internal/updater/command_log.go:383-397 | clamping touches only the message, leaves what fits alone, and meets its limit whenever the other bytes leave 64 for the notice |
| LogEntries.SizeIsWhatIsWritten | internal/updater/command_log.go:374-381 | an entry takes up what it says, a separator for each category and 32 bytes |
| LogEntries.CutTellsWhatIsMissing | internal/updater/command_log.go:383-397 | a cut message is the valid part of what fits and tells in decimal how many bytes are missing from there on |
| LogRing.EntryRing.Append | internal/updater/command_log.go:506-538 | refines the ring value below, whatever slot is overwritten or added |
| LogRing.EntryRing.DropOldestEntry | internal/updater/command_log.go:540-558 | drops the oldest live entry and counts it |
| LogRing.EntryRing.EntriesInOrder | internal/updater/command_log.go:560-569 | walks the slots from the oldest on |
| LogRing.EntryRing.QueryEntries | internal/updater/command_log.go:571-594 | the scan for the first newer entry refines the query below |
| LogRingTheorems.EveryEntryIsAccountedFor | internal/updater/command_log.go:506-558 | for every sequence of appends, appended equals live plus dropped in entries and in bytes, and the live ones fit both budgets |
| LogRingTheorems.AppendEnqueuesExactlyWhen | internal/updater/command_log.go:522-532 | an append acts as on a bounded queue exactly unless it grows a ring whose oldest entry is not in the first slot |
| LogRingTheorems.RingIsAQueueExactlyWhenAligned | internal/updater/command_log.go:506-558 | the ring has been a bounded queue all along exactly when no append did that |
| LogRingTheorems.QueryNeverMisses | internal/updater/command_log.go:571-594 | a query never misses a newer live entry, in whatever order they are |
| LogRingTheorems.ClampedFits | internal/updater/command_log.go:506-512 | entries are cut to 16 KiB or the ring's smaller byte budget, and left alone if they fit |
| LogRingTheorems.RingsUseTheirBudgets | internal/updater/command_log.go:494-538 | what fits the budgets, 5000 entries and 2 MiB unless given, all stays, in order; beyond them what is live fits |
| LogRingTheorems.QueriesReportLosses | internal/updater/command_log.go:571-594 | a query reports exactly the entries and bytes the ring has lost, its oldest entry and the latest ID |
| LogRingTheorems.AlignedQueries | internal/updater/command_log.go:571-594 | on aligned runs a query returns exactly the newer live entries; a dropped newer entry is reported exactly unless nothing is live, and a gap without one exactly when the IDs before the oldest live entry are missing, never if IDs are consecutive |
| LogRingTheorems.OrderCanBreak | internal/updater/command_log.go:528-532 | a run after which a client is sent an entry it has seen |
| LogBufferModel.NormalizedCategories | internal/updater/command_log.go:244-264 | no category twice, "all" first, and every entry in one more |
| LogBufferModel.CategoriesAre | internal/updater/command_log.go:244-264 | the categories are exactly "all" and the names given, trimmed and in lower case, or "application" if there are none |
| LogBufferModel.CategoryRingsUseTheirBudgets | internal/updater/command_log.go:344-351 | a category keeps everything up to 2500 entries and 1 MiB, and no more |
| LogBufferModel.CategoryStreamsAreNumbered | internal/updater/command_log.go:294-328 | each category's ring receives its entries in increasing order of ID |
| LogBuffer.Buffer.AppendContext | internal/updater/command_log.go:294-328 | every ring holds what the ring of the entries of its category would hold, and IDs count up by one |
| LogBuffer.Buffer.CategoryQuery | internal/updater/command_log.go:415-428 | queries the ring of exactly that category's entries |
| OutputTail.Tail.Write | internal/updater/command_output_tail.go:26-51 | the tail is exactly the last bytes of everything written, and the others are counted |
| OutputTail.Tail.Text | internal/updater/command_output_tail.go:53-65 | the text depends on the concatenated output alone |
| OutputTail.Collect | internal/updater/command_output_tail.go:26-65 | however output is cut into chunks, the text is the same |
| OutputTail.LastOfConcat | internal/updater/command_output_tail.go:38-49 | the tail of a concatenation needs only the tail of its first part |
| OutputTail.BoundText | internal/updater/command_output_tail.go:112-119 | text over the limit is bounded as if streamed |
| OutputTail.StreamingAgreesWithBounding | internal/updater/command_output_tail.go:112-119 | streaming and one-shot bounding agree exactly when the output is over the limit, or is valid UTF-8 with no word to mend |
| OutputTail.CutRuneChangesTheWholeTail | internal/updater/command_output_tail.go:53-65 | a tail that starts inside a rune is shown whole as Windows-1252 |
| OutputTail.RetoldAgreesExactlyWhen | internal/updater/command_log.go:657-679 | for valid output without a marker, decoding chunk by chunk and then the tail again gives what decoding the raw tail gives exactly when no chunk ends inside a rune, wherever something is omitted; where nothing is, exactly when mending undoes the damage |
| OutputTail.RetainedBytesAreTheLast | internal/updater/command_output_tail.go:35-50 | every retained byte is the output's byte at the same distance from its end |
| RetryModel.RunAction | internal/updater/package_actions.go:156-204 | the source refresh and the retry loop refine the run below |
| RetryModel.Upgrading | internal/updater/package_winget_actions.go:138-189 | the plan's loop and fallbacks refine the run below |
| RetryModel.RetryIfNeeded | internal/updater/package_winget_actions.go:205-220 | retries with one more flag exactly when wanted, allowed and not cancelled |
| RetryTheorems.ActionsKeepTheShape | internal/updater/package_actions.go:156-204 | whatever the results, an action runs its command, refreshes the sources at most once, resets them only after that, retries at most twice more, and reports its last command's verdict |
| RetryTheorems.TraceBounds | internal/updater/package_actions.go:156-204 | so it runs at most six commands, its own first |
| RetryTheorems.SuccessIsTheCommandsOwn | internal/updater/package_actions.go:161-185 | an action reports another command's success exactly when its sources failed and it was cancelled right after the update that succeeded, or after the reset that succeeded where the update failed |
| RetryTheorems.ActionsGiveUpOnlyForGood | internal/updater/package_actions.go:156-204 | an action that nobody cancels fails only when its last result is not transient, its attempts are used up, or the sources cannot be refreshed |
| RetryTheorems.CancelledUpdateReportsSuccess | internal/updater/package_actions.go:163-168 | a failed command reported as successful |
| RetryTheorems.PlansAreBoundedAndConsented | internal/updater/package_winget_actions.go:138-220 | a plan calls at most five actions, stops at the first success, passes an include flag only with the matching consent, and installs by force only after a failed forced upgrade that itself reported a reason to repair |
| RetryTheorems.PlansGiveUpOnlyForGood | internal/updater/package_winget_actions.go:138-189 | a plan that nobody cancels fails only with nothing left to try: consent refused for what the output asks, repairs used up, or no repair asked for |
| RetrySteps.ActionsDoWhatIsDue | internal/updater/package_actions.go:156-204 | whatever the answers and wherever it is cancelled, an action runs exactly the commands due after the answers so far, until none is, and reports all answers together |
| RetrySteps.DueDecides | internal/updater/package_actions.go:156-204 | there is only one such sequence of commands |
| RetrySteps.PlansDoWhatIsDue | internal/updater/package_winget_actions.go:138-220 | a plan calls exactly the actions due: a retry with the flag asked for and consented to, then a forced upgrade, then the forced install; never after a cancellation, and it stops early only then |
| RetrySteps.SuccessAsksForNothing | internal/updater/package_winget_actions.go:167-220 | only a plan that failed asks for consent |

## Left out

- The HTTP API, event stream, tray, GUI, cookies and tokens: observers appear only as clients that compare revisions.
- Windows internals (ReplaceFileW, named pipes, process handles, WinRT, registry, ACLs): a file replacement either happens or changes nothing.
- JSON and SHA-256: a file holds an encoded snapshot or something that does not decode, and the digest is a function of the file's content.
- Case folding beyond ASCII: lower case is ASCII lower case.
- ConsoleText.RepairMojibake: the score that tells which reading of a word looks better is a parameter.
- 64-bit overflow of counters, IDs and sizes: numbers are unbounded.
- Diagnostic texts (run errors, observation diagnostics, evidence summaries, staleness reasons, package names): carried along by the code, never decided on.
- JobScheduler.Scheduler.SetStatus: job records are values in a map; a runner that keeps changing a record pruning has dropped is not seen by anyone and is not modelled.
- JobScheduler.Scheduler.Start: the package snapshot's unknown-version and pinned allowances and the rejected request's status text are not modelled.
- Exact Store CLI queries, WinRT discovery and WinGet's Store source: further providers whose runs enter the model as arbitrary provider runs.
- StorePlan.PlanExactWork: the counts of mappings reused, refreshed and rejected are not modelled; the packages updated unattended are given as a set of identities.
- StoreCliParse.ParseUpdates: lines arrive already classified; the phrase lists that classify them are not modelled.
- StoreProjection.ApplyPublishedAssessments: names, provider summaries and automatic-update preferences of packages are not modelled.
- StoreRepository.Repository.LoadUsable: other files than generations and temporary ones, the marks of recovery on single snapshots, and directories that cannot be listed, are not modelled.
- StoreRepository.Repository.LoadLatest: a file that cannot be read stays so for the whole call, and contexts that are done are not modelled; loads that migrate are StoreMigration.Migration.LoadLatest, and a step of their own in runs.
- StoreRepository.Repository.Persist: the migration it may begin with is a step of its own in runs; contexts that are done are not modelled.
- StoreCliObserve.ObserveFamilies: one instant stands for the clock readings of a run.
- LoadPreviousSnapshot and the marks it alone depends on: no production code calls it.
- StorePipeline.StoredForm: sorting a snapshot's lists before writing is not modelled; it matters only to rows that share an identity.
- StoreMigration.Migration.MigrateOldLayout: temporary files of the pointer, which lie among the old files and do not decode, are not modelled.
- StoreMigration.NewestOldIsCommitted: assumes that the digest tells the old files from other contents.
- InventoryService.Inventory.Publish: the inventory's contents, and the explicit candidates kept from a degraded refresh, are not modelled.
- LogBuffer.Buffer.AppendContext: rings per job, which work as category rings and are dropped with their jobs, are not modelled; a category ring is a value the class updates, not a shared object.
- RetryModel.RunAction: command output is the set of phrases it is searched for; phrases lost to output truncation or formed across two outputs are not modelled.
- SelfUpdate.Updater.Apply: downloading, parent-process handshakes, elevation and waiting times are outcomes the environment chooses.

# Verified model of the tender workflow and the data-repair loops

This project models, in Dafny, the parts of the repository that keep state across failures and
restarts, and proves what they promise. `dafny verify dfyconfig.toml` checks all of it.

**The tender workflow.** `TenderStore` is the SQLite repository: candidate rows and notices, both unique
by url, changed by four atomic statements, every one of which may fail. A run is a log of committed
writes, so a crash at any await leaves the state after a prefix of the log. `TaskPool` is the event loop:
jobs made of micro-steps, interleaved by an arbitrary schedule under a semaphore and a write lock, and
collected by the parent in any order. `ResumePending` (extraction of accepted candidates),
`ScreenPending` (the batch run over pending candidates) and `Revalidate` (review of stored notices) are
the three stages, written as methods over the repository object, as jobs of the pool, and as functions of
the replies of the language model and the web site. `Workflow` composes collecting and the three stages,
each of which can be skipped, and `DailyPipeline` is the older single-pass run. Replies (a value or an
exception) are inputs, so all statements hold for every combination of failures.

The main results: what each stage does to a candidate is read off the replies about it, and its counters off
the database it leaves; database, counters and errors of a stage do not depend on the schedule; no schedule
deadlocks or exceeds the width, and every one can be completed; a workflow run, aborted or not, ends clean
if and only if no candidate is in trouble, a condition read off the starting rows and the replies; after a
run that failed, aborted or was cut off at any moment, a full run in which only searches and batch reviews
fail ends clean if and only if no rejected candidate held a notice at that moment, which takes a cut between
the two writes of a revalidated item, or a deletion that was declined or failed; a notice never belongs to a
pending candidate at any moment of any run; and the counters of every run add up. Two facts that the
statements keep visible: a rejected candidate that already holds a notice is never repaired, because only
accepted rows are revalidated; and in the daily pipeline an error after a save counts the candidate as saved
and adds an error.

**The crawl.** `DateCrawl` proves when the early-stopping, shrinking, per-page deduplicating crawl equals
"fetch all pages, filter, deduplicate". Which urls it finds is settled exactly for any listing, the
returned list exactly where on each page the first row of a wanted url is wanted; the early stop loses
nothing under descending dates, however the announced page counts shrink the limit.

**Replication and repair.** `TableReplication` (recent copy, increments, history fill, sequences),
`WeatherRepair` (validated chunks and guarded replacement), `Checkpoint` (two append-only files and
crashes), `RequestCache` (answers stored by digest), `GapFill` (fill, rewrite, reload), `StationRegroup`
(stable regrouping that fills missing fields), `MonthTiles` (month ranges over the calendar).

**Two small cores.** `GraphMetrics` (bounds of the quality metrics, over the reals) and `ActiveContexts`
(normalisation, storage and budgets of a session's pinned documents).

Where a promise holds only under a condition, the exact condition is proved instead:

- `Workflow.CleanExactly`: which replies and which starting rows leave work over.
- `Workflow.RecoveryExactly`: a run cut off between the two writes of a rejected item
  (`Revalidate.CutBetweenWrites`) leaves a notice that no later run removes.
- `DateCrawl.SameUrlsExactly` and `DateCrawl.SameAsPlainExactly`: no url wanted only after the page where
  the crawl stops, or only behind an unwanted row of the same url on its page (`DateCrawl.PageLosesUrl`).
- `TableReplication.ReplicaAgreesExactly`: a row that changed or vanished after the last step that selected
  it, such as every updated message, stays stale.
- `TableReplication.ScansAllExactly`: sessions created at the same moment on both sides of a page's end.
- `TableReplication.CutOffPageExactly`: a page cut off after its session rows is never completed
  (`TableReplication.HoleExists`).
- `GapFill.NextMissingExactly`: a station whose only located row was overwritten by a duplicate drops out.
- `RequestCache.TransparentExactly`: requests with different answers must not share a digest.
- `ActiveContexts.OnePassIdempotentExactly`: a label cut right after a space needs a second pass
  (`ActiveContexts.OnePassIsNotEnough`).
- `ActiveContexts.BudgetExactly`: an empty document behind a full budget is refused.
- `MonthTiles.SplitMonths`: the loop steps out of the calendar only behind its last day.

## Model

| member | source | states |
|---|---|---|
| TenderStore.Repository.SaveCandidate | Bidding-Information-Crawling/src/tenders/repository.py:252-282 | inserts a pending row at the end of the table unless the exact url is known, reports whether it did, and touches nothing else; a fault changes nothing |
| TenderStore.Repository.UpdateCandidateDecision | Bidding-Information-Crawling/src/tenders/repository.py:284-301 | gives the row the status, reason and source of the decision, without effect on an unknown url or on anything else |
| TenderStore.Repository.SaveNotice | Bidding-Information-Crawling/src/tenders/repository.py:303-358 | stores the notice, keeping of an earlier one the columns the upsert does not name; nothing else changes |
| TenderStore.Repository.DeleteNotice | Bidding-Information-Crawling/scripts/revalidate_tender_notices.py:115-117 | removes exactly the notice of that url |
| TenderStore.AtApplyAll | Bidding-Information-Crawling/src/tenders/repository.py:284-358 | every url evolves by its own writes only, so a log acts cell by cell |
| TenderStore.EveryStepByUrl | Bidding-Information-Crawling/src/tenders/repository.py:252-358 | a crash during a log leaves, for each url, a prefix of that url's own writes |
| TaskPool.StepInv | Bidding-Information-Crawling/scripts/resume_pending_tenders.py:259-277 | one move of any worker keeps the pool invariant: each url shows exactly its job's committed writes, units are conserved, every job is collected at most once |
| TaskPool.WidthRespected | Bidding-Information-Crawling/scripts/resume_pending_tenders.py:259-274 | at every point of every schedule at most `width` jobs are inside the semaphore and at most one holds the lock |
| TaskPool.Progress | Bidding-Information-Crawling/scripts/revalidate_tender_notices.py:132-182 | no deadlock: until every task is collected some move is possible |
| TaskPool.RunLength | Bidding-Information-Crawling/scripts/resume_pending_tenders.py:276-278 | every schedule is finite: each move uses up one of the moves left |
| TaskPool.CanFinish | Bidding-Information-Crawling/scripts/resume_pending_tenders.py:258-299 | however the tasks were interleaved so far, the run can be completed |
| TaskPool.ScheduleIndependence | Bidding-Information-Crawling/scripts/resume_pending_tenders.py:258-299 | any finished schedule leaves the database of the sequential run and collects every task exactly once |
| TaskPool.CountersIndependence | Bidding-Information-Crawling/scripts/resume_pending_tenders.py:276-289 | counters and the multiset of errors are those of the sequential run, whatever the order of completion |
| TaskPool.CountTotals | Bidding-Information-Crawling/scripts/resume_pending_tenders.py:276-289 | saved, filtered and failed add up to the tasks, and there is one error per failure |
| TaskPool.TallyOfUrls | Bidding-Information-Crawling/scripts/resume_pending_tenders.py:278-289 | each counter is the number of urls whose task ended so |
| TaskPool.RunPool | Bidding-Information-Crawling/scripts/resume_pending_tenders.py:276-278 | the event loop over the shared repository ends in the sequential database with all tasks collected |
| ResumePending.RunResult.Record | Bidding-Information-Crawling/scripts/resume_pending_tenders.py:278-289 | one outcome moves exactly one counter and adds its error, if any |
| ResumePending.ProcessDetail | Bidding-Information-Crawling/scripts/resume_pending_tenders.py:189-218 | commits the decision and then the notice exactly as far as its awaits succeed, and reports success, filtering or the phase that failed |
| ResumePending.DetailOutcome | Bidding-Information-Crawling/scripts/resume_pending_tenders.py:197-218 | verdict and final row and notice of a task, read off its replies: a review that is not skipped has the last word, a skipped one leaves the first decision, and the notice is the extracted one |
| ResumePending.DetailJobWrites | Bidding-Information-Crawling/scripts/resume_pending_tenders.py:189-218 | the interleavable job commits what the coroutine commits |
| ResumePending.DetailTaskCell | Bidding-Information-Crawling/scripts/resume_pending_tenders.py:202-218 | however far a task got, a notice sits only on an accepted row; at its end the row is saved, rejected without notice, or still accepted and missing |
| ResumePending.DetailEveryStep | Bidding-Information-Crawling/scripts/resume_pending_tenders.py:258-299 | the notice invariants at every point of every schedule of the extraction stage |
| ResumePending.ConsumeOutcomes | Bidding-Information-Crawling/scripts/resume_pending_tenders.py:276-299 | the parent loop computes the counters and errors of the verdicts |
| ResumePending.RunAcceptedMissing | Bidding-Information-Crawling/scripts/resume_pending_tenders.py:258-310 | the stage with its workers: every loaded candidate ends as its replies and the skip flag have it, nothing else changes, and saved, filtered and failed are the numbers of loaded candidates that end with a notice, rejected, or still missing |
| ResumePending.DetailStageReplied | Bidding-Information-Crawling/scripts/resume_pending_tenders.py:197-218 | the same of the sequential database, per candidate |
| ResumePending.DetailStageCounters | Bidding-Information-Crawling/scripts/resume_pending_tenders.py:278-289 | the same of the counters |
| ResumePending.LoadsTheFirst | Bidding-Information-Crawling/scripts/resume_pending_tenders.py:81-101 | the first accepted candidates without a notice in the order of their ids, as many as the limit allows, and without a limit all of them |
| ResumePending.AcceptedMissingShrinks | Bidding-Information-Crawling/scripts/resume_pending_tenders.py:258-289 | the set of accepted candidates without a notice shrinks by exactly saved plus filtered |
| ResumePending.FailedOfferedAgain | Bidding-Information-Crawling/scripts/resume_pending_tenders.py:81-101 | every url whose task failed is offered by the next run |
| ScreenPending.ScreenOne | Bidding-Information-Crawling/scripts/resume_pending_tenders.py:318-332 | one candidate is decided by the batch answer or a single review, or named in one error |
| ScreenPending.ScreenOutcome | Bidding-Information-Crawling/scripts/resume_pending_tenders.py:319-332 | a decision of the batch goes before the single review, and the row takes over its status, reason and source; otherwise the candidate stays pending and the error names it |
| ScreenPending.BatchIs | Bidding-Information-Crawling/scripts/resume_pending_tenders.py:312-314 | the i-th candidate is reviewed in batch i / size |
| ScreenPending.PendingTheFirst | Bidding-Information-Crawling/scripts/resume_pending_tenders.py:58-78 | the same for the pending candidates that a run takes up |
| ScreenPending.RunBatch | Bidding-Information-Crawling/scripts/resume_pending_tenders.py:312-382 | screening of a batch and then extraction of what it accepted, with log and counters |
| ScreenPending.RunPending | Bidding-Information-Crawling/scripts/resume_pending_tenders.py:312-398 | the whole batch run: its log, total == saved + filtered + number of errors in a full run, the number reviewed, and counters that are what the database shows of the loaded candidates |
| ScreenPending.PendingCell | Bidding-Information-Crawling/scripts/resume_pending_tenders.py:312-371 | in a whole run each candidate ends as its own screening and, in a full run, its own extraction leave it |
| ScreenPending.PendingFollows | Bidding-Information-Crawling/scripts/resume_pending_tenders.py:312-371 | the same read off the replies: screened by its batch or singly, and in a full run an accepted candidate is extracted with or without a detail review |
| ScreenPending.PendingOther | Bidding-Information-Crawling/scripts/resume_pending_tenders.py:312-371 | every url that was not loaded keeps its row and notice |
| ScreenPending.RunTells | Bidding-Information-Crawling/scripts/resume_pending_tenders.py:323-371 | saved, filtered, detail failures and the other errors are the numbers of candidates that the database shows with a notice, rejected, accepted without a notice, and still pending, if none of them held a notice before |
| ScreenPending.FullRunConservation | Bidding-Information-Crawling/scripts/resume_pending_tenders.py:312-371 | after every batch the candidates so far are saved, filtered or named in exactly one error |
| ScreenPending.DetailMatches | Bidding-Information-Crawling/scripts/resume_pending_tenders.py:316-358 | extraction of the collected list is extraction of the accepted candidates of the batch, in order |
| ScreenPending.PendingOnly | Bidding-Information-Crawling/scripts/resume_pending_tenders.py:149-151 | the run writes to each candidate in exactly one batch, and only what that batch decides |
| ScreenPending.PendingEveryStep | Bidding-Information-Crawling/scripts/resume_pending_tenders.py:312-371 | wherever the run is cut off every notice belongs to an accepted candidate |
| Revalidate.ProcessItem | Bidding-Information-Crawling/scripts/revalidate_tender_notices.py:124-144 | commits the decision and the deletion of a rejected notice as far as they succeed |
| Revalidate.ReviewOutcome | Bidding-Information-Crawling/scripts/revalidate_tender_notices.py:124-144 | the final row and notice of an item, read off its replies: a stored review decides, and a rejected notice goes unless it is kept or resists deletion |
| Revalidate.UnlockedIsAllOrNothing | Bidding-Information-Crawling/scripts/revalidate_tender_notices.py:138-141 | outside the write lock an item has written nothing or everything |
| Revalidate.RunRevalidate | Bidding-Information-Crawling/scripts/revalidate_tender_notices.py:147-211 | for every schedule each loaded notice ends as its review has it and nothing else changes; accepted are the relevant reviews that were stored, rejected the irrelevant ones whose deletion did not fail, and reviewed == accepted + rejected + errors |
| Revalidate.ReviewCounters | Bidding-Information-Crawling/scripts/revalidate_tender_notices.py:183-193 | the two counters as numbers of urls with such replies |
| Revalidate.RevalidateEveryStep | Bidding-Information-Crawling/scripts/revalidate_tender_notices.py:132-144 | no notice of a pending candidate at any point; whenever the lock is free no notice became stale unless kept or its deletion failed |
| Revalidate.RevalidateStageCell | Bidding-Information-Crawling/scripts/revalidate_tender_notices.py:43-62 | each loaded url ends as its own review says, every other url is untouched |
| Revalidate.StaleExactly | Bidding-Information-Crawling/scripts/revalidate_tender_notices.py:132-144 | exactly which rejected candidates hold a notice afterwards |
| Revalidate.CutBetweenWrites | Bidding-Information-Crawling/scripts/revalidate_tender_notices.py:138-141 | four moves of one worker lead between its decision and its deletion, where a rejected candidate holds a notice |
| Workflow.SaveCandidates | Bidding-Information-Crawling/scripts/run_qianlima_tender_workflow.py:193-203 | saved counts the new rows, saved plus duplicates the candidates; a raising save stops it after its prefix |
| Workflow.CollectCandidates | Bidding-Information-Crawling/scripts/run_qianlima_tender_workflow.py:150-190 | total found == saved + duplicates, saved == new rows, errors == failed searches; a raising save aborts |
| Workflow.FoundExactly | Bidding-Information-Crawling/scripts/run_qianlima_tender_workflow.py:165-190 | what was found is what some search returned |
| Workflow.SearchErrorsAre | Bidding-Information-Crawling/scripts/run_qianlima_tender_workflow.py:165-190 | the errors are the searches that raised |
| Workflow.CollectedCell | Bidding-Information-Crawling/scripts/run_qianlima_tender_workflow.py:193-203 | known rows and notices stay; an unknown url gets a pending row for the first candidate with it |
| Workflow.ScreenStageFollows | Bidding-Information-Crawling/scripts/run_qianlima_tender_workflow.py:206-221 | screening in the workflow, read off the replies of the batch and of the single review |
| Workflow.DetailStageFollows | Bidding-Information-Crawling/scripts/run_qianlima_tender_workflow.py:224-239 | with detail review before extraction that review decides, otherwise the candidate stays accepted; the notice is the extracted one |
| Workflow.RevalidateStageFollows | Bidding-Information-Crawling/scripts/run_qianlima_tender_workflow.py:242-250 | the review of a stored notice decides, and a rejected one is deleted unless notices of rejected candidates are kept |
| Workflow.WorkflowStats | Bidding-Information-Crawling/scripts/run_qianlima_tender_workflow.py:100-147 | each number is the size of its set of rows and notices: candidates by status, accepted ones without and rejected ones with a notice; the three leftover numbers are zero exactly when the database is clean |
| Workflow.StatsReport | Bidding-Information-Crawling/scripts/run_qianlima_tender_workflow.py:113-145 | the same of the numbers by themselves |
| Workflow.StatsClean | Bidding-Information-Crawling/scripts/run_qianlima_tender_workflow.py:113-145 | the same, and the statuses partition the candidates |
| Workflow.CleanExactly | Bidding-Information-Crawling/scripts/run_qianlima_tender_workflow.py:253-296 | with any stages skipped, any failures, and a raising save that ends the run, what the run leaves is clean if and only if no candidate is in trouble |
| Workflow.FullRunEndsClean | Bidding-Information-Crawling/scripts/run_qianlima_tender_workflow.py:206-296 | a full run that no save aborts and in which only searches and batch reviews fail, deleting rejected notices, ends clean |
| Workflow.FullRunCleansExactly | Bidding-Information-Crawling/scripts/run_qianlima_tender_workflow.py:206-296 | such a run ends clean if and only if no rejected candidate held a notice at its start |
| Workflow.RetryEndsClean | Bidding-Information-Crawling/scripts/run_qianlima_tender_workflow.py:206-296 | after a run that aborted or ended with whatever failures, but neither kept nor failed to delete a rejected notice, such a full run ends clean |
| Workflow.RecoveryExactly | Bidding-Information-Crawling/scripts/run_qianlima_tender_workflow.py:253-296 | after a run cut off at any moment such a full run ends clean if and only if no rejected candidate held a notice at that moment; none did before revalidation, nor during it while the write lock was free, if no reply keeps a rejected notice or fails to delete it |
| Workflow.StaleNoticeSurvives | Bidding-Information-Crawling/scripts/revalidate_tender_notices.py:51-51 | a rejected candidate that holds a notice keeps it through every run, aborted ones included |
| Workflow.NoticesAtEveryMoment | Bidding-Information-Crawling/scripts/run_qianlima_tender_workflow.py:253-296 | an invariant between "notices are accepted" and "notices are decided" holds at every write and every move of the first three stages, and the weaker one during revalidation |
| Workflow.NoticeOwners | Bidding-Information-Crawling/scripts/run_qianlima_tender_workflow.py:253-296 | no notice of a pending candidate at any moment; every notice accepted until revalidation starts |
| Workflow.RunWorkflow | Bidding-Information-Crawling/scripts/run_qianlima_tender_workflow.py:253-296 | the staged run over the shared repository: the state it leaves when it ends or aborts, clean exactly without trouble; the returned statistics are the sizes of the sets they name; aborted exactly by a failing save |
| DailyPipeline.ProcessOne | Bidding-Information-Crawling/src/tenders/pipeline.py:134-194 | commits and counts one candidate according to where its awaits fail, an error after the save included |
| DailyPipeline.FateIs | Bidding-Information-Crawling/src/tenders/pipeline.py:134-194 | the fate of a new candidate and its error, read off the replies in the order of its awaits |
| DailyPipeline.ItemOutcome | Bidding-Information-Crawling/src/tenders/pipeline.py:134-183 | its final row and notice, read off the replies: a stored rejection by the detail review has the last word, and the notice is the extracted one |
| DailyPipeline.NewItemOutcome | Bidding-Information-Crawling/src/tenders/pipeline.py:134-183 | the same for every new candidate of a search result, with a batch decision before the single one |
| DailyPipeline.SaveNew | Bidding-Information-Crawling/src/tenders/pipeline.py:118-130 | the new candidates are those whose save inserted a row; duplicates and failed saves are counted |
| DailyPipeline.SaveEventsAre | Bidding-Information-Crawling/src/tenders/pipeline.py:118-130 | a save that raises is an error and a known url a duplicate |
| DailyPipeline.InitialDecisions | Bidding-Information-Crawling/src/tenders/pipeline.py:196-223 | the decisions of all batches, later ones overriding, one error with its offset per failed batch |
| DailyPipeline.DecisionsLast | Bidding-Information-Crawling/src/tenders/pipeline.py:196-223 | the decision under a key is the one of the last batch that has one |
| DailyPipeline.BatchesAre | Bidding-Information-Crawling/src/tenders/pipeline.py:196-223 | without a batching client no batch is reviewed, with one as many as cover the candidates |
| DailyPipeline.RunDaily | Bidding-Information-Crawling/src/tenders/pipeline.py:85-113 | log and counters of the run; total == duplicates + filtered + saved + detail failures + lost before saving, indexed <= saved |
| DailyPipeline.Conservation | Bidding-Information-Crawling/src/tenders/pipeline.py:115-194 | every settled candidate is in one counter or lost; every error has one cause; an error after a save counts twice |
| DailyPipeline.CountersAre | Bidding-Information-Crawling/src/tenders/pipeline.py:95-194 | each counter is the number of its events |
| DailyPipeline.ErrorsReported | Bidding-Information-Crawling/src/tenders/pipeline.py:95-194 | every exception is reported under its own heading |
| DailyPipeline.DailyConservation | Bidding-Information-Crawling/src/tenders/pipeline.py:95-194 | the same over whole runs, against the number of candidates found |
| DailyPipeline.DailyEveryStep | Bidding-Information-Crawling/src/tenders/pipeline.py:134-183 | at every await every notice belongs to an accepted candidate, if so at the start |
| DailyPipeline.DailyFates | Bidding-Information-Crawling/src/tenders/pipeline.py:115-194 | at the end each candidate's row and notice are what its counter says |
| DateCrawl.DedupeCandidates | Bidding-Information-Crawling/src/tenders/qianlima_client.py:628-637 | the loop computes the first-occurrence dedupe |
| DateCrawl.DedupeKeys | Bidding-Information-Crawling/src/tenders/qianlima_client.py:628-637 | no key is lost, none is left twice |
| DateCrawl.DedupeKeepsFirst | Bidding-Information-Crawling/src/tenders/qianlima_client.py:628-637 | exactly the items whose key no earlier item has are left |
| DateCrawl.ParseResponse | Bidding-Information-Crawling/src/tenders/qianlima_client.py:58-98 | the usable rows of a page and no others, deduplicated |
| DateCrawl.FilterDedupe | Bidding-Information-Crawling/src/tenders/qianlima_client.py:405-422 | filtering a deduplicated page is deduplicating the filtered page if and only if the first row of every wanted url is wanted |
| DateCrawl.SeenFlagIsIrrelevant | Bidding-Information-Crawling/src/tenders/qianlima_client.py:455-465 | the second stop test is implied by the first |
| DateCrawl.SearchViaApi | Bidding-Information-Crawling/src/tenders/qianlima_client.py:377-431 | the loop returns the dedupe of the kept rows up to its last page, all of the wanted date and of different urls, or the exception of a request it makes |
| DateCrawl.LastPageExactly | Bidding-Information-Crawling/src/tenders/qianlima_client.py:386-431 | which page is the last: every earlier one has rows, does not lie before the wanted date, and is within the limit in force |
| DateCrawl.LimitIsLeast | Bidding-Information-Crawling/src/tenders/qianlima_client.py:400-404 | the limit in force is the least of the page limit and the positive counts announced so far |
| DateCrawl.PlainIs | Bidding-Information-Crawling/src/tenders/qianlima_client.py:405-431 | the plain crawl returns notices of the wanted date on those pages, one for every url that has one |
| DateCrawl.SameAsPlainExactly | Bidding-Information-Crawling/src/tenders/qianlima_client.py:377-431 | where that holds on every page, stopping after page m equals the plain crawl of n pages if and only if every url wanted later is wanted before |
| DateCrawl.SameUrlsExactly | Bidding-Information-Crawling/src/tenders/qianlima_client.py:377-431 | for any listing, it finds the urls of the plain crawl if and only if each of them is wanted at its first row on one of the first m pages |
| DateCrawl.PageLosesUrl | Bidding-Information-Crawling/src/tenders/qianlima_client.py:405-422 | a page on which the crawl loses a wanted url |
| DateCrawl.CompleteCrawlIsPlain | Bidding-Information-Crawling/src/tenders/qianlima_client.py:377-431 | with descending dates, no early empty page and that agreement of the pages it stops within the pages that the shrinking limit allows and returns the plain crawl of all of them, whatever counts the pages announce |
| DateCrawl.SteadyHorizon | Bidding-Information-Crawling/src/tenders/qianlima_client.py:386-400 | with one announced count these are min(limit, count) pages, or limit pages if it is not positive or missing |
| DateCrawl.BoundedCrawlIsPlain | Bidding-Information-Crawling/src/tenders/qianlima_client.py:386-431 | a crawl with a page bound equals the plain crawl of those pages |
| TableReplication.ReplicaAgreesExactly | deploy/postgres/backfill_session_tables.py:147-193 | after the recent copy and any number of increments of a source that changes as it likes, the copy agrees with the source if and only if no row was changed or deleted there after the last step that selected it |
| TableReplication.CopiedWhenLastTaken | deploy/postgres/backfill_session_tables.py:147-193 | the copy holds exactly the rows that some step selected, each as the source had it at the last such step |
| TableReplication.DeltaIdempotent | deploy/postgres/backfill_session_tables.py:163-192 | listing a table twice changes nothing more |
| TableReplication.ReplicaFollows | deploy/postgres/backfill_session_tables.py:147-193 | after the recent copy and any number of increments of a source whose changes are stamped later than the increment, the copy agrees with the source and holds every row copied or changed since |
| TableReplication.MessagesFrozen | deploy/postgres/backfill_session_tables.py:168-176 | a copied message is never refreshed |
| TableReplication.Destination.FixSequences | deploy/postgres/backfill_session_tables.py:139-144 | both sequences are set to the largest id, at least 1 |
| TableReplication.Destination.CmdRecent | deploy/postgres/backfill_session_tables.py:147-160 | each listed table holds exactly its recent rows, by scope column, by active session or all of them; the next ids are free; it raises only when a table is listed twice |
| TableReplication.Destination.CmdDelta | deploy/postgres/backfill_session_tables.py:163-193 | each listed table takes over the rows changed after the given time, the messages above its largest id, the versions of active sessions, or all rows, and keeps every other row; no id is inserted twice, the next ids are free |
| TableReplication.Destination.CmdHistory | deploy/postgres/backfill_session_tables.py:196-232 | however each query orders sessions created at the same moment: all rows of the scanned sessions that were missing are filled in, nothing else is written, and nothing at all when none was missing |
| TableReplication.ScansAllExactly | deploy/postgres/backfill_session_tables.py:198-205 | every run scans every session, and each once, if and only if no two sessions created at the same moment stand on both sides of a page's end |
| TableReplication.HistoryCopiesExactly | deploy/postgres/backfill_session_tables.py:206-229 | a source row is written if and only if its session was scanned and missing; every other row is unchanged |
| TableReplication.OwnedIs | deploy/postgres/backfill_session_tables.py:210-229 | the history fill takes the rows with the session id, and board versions by the session of their board |
| TableReplication.CompleteExactly | deploy/postgres/backfill_session_tables.py:196-230 | every session of the cutoff is present afterwards if and only if each was present before or scanned |
| TableReplication.SecondRunIsEmpty | deploy/postgres/backfill_session_tables.py:206-209 | a second run finds nothing missing among the sessions that the first one scanned |
| TableReplication.CutOffPageExactly | deploy/postgres/backfill_session_tables.py:206-229 | after a cut-off page and a finished rerun a row of it equals the source if and only if its table came before the cut, or the session rows did not, or the copy held it like that before |
| TableReplication.HoleExists | deploy/postgres/backfill_session_tables.py:206-229 | a source and a cut after which the rerun finds nothing missing and a message is never copied |
| WeatherRepair.ValidateRecords | backend/scripts/repair_openmeteo_history.py:12-18 | accepts exactly complete records with heights, and tells the two failures apart |
| WeatherRepair.EachHourOnce | backend/scripts/repair_openmeteo_history.py:12-16 | equal counts and equal time sets mean every hour exactly once and nothing else |
| WeatherRepair.ValidatedTogether | backend/scripts/repair_openmeteo_history.py:63-67 | adjacent validated stretches are validated together |
| WeatherRepair.ChunkStartIs | backend/scripts/repair_openmeteo_history.py:55-66 | the k-th chunk starts k weeks after the start |
| WeatherRepair.ChunksTile | backend/scripts/repair_openmeteo_history.py:57-66 | every instant lies in at most one chunk, none longer than seven days |
| WeatherRepair.ChunkOf | backend/scripts/repair_openmeteo_history.py:57-66 | every instant of the range lies in a chunk |
| WeatherRepair.FetchRange | backend/scripts/repair_openmeteo_history.py:55-67 | succeeds exactly when every chunk does, and then the whole-range validation holds |
| WeatherRepair.AllValidIs | backend/scripts/repair_openmeteo_history.py:57-66 | the chunk loop gets through exactly when every chunk is answered by complete records with heights |
| WeatherRepair.WeatherTable.InsertBatches | backend/scripts/repair_openmeteo_history.py:85-86 | the batches of 168 insert every record and never hit an existing row |
| WeatherRepair.WeatherTable.Repair | backend/scripts/repair_openmeteo_history.py:31-87 | succeeds exactly under its checks; otherwise the table is as others left it, else the window of the place, widened by the shift in hours before the start, holds exactly the records and all else is unchanged |
| Checkpoint.Backfill.constructor | backend/scripts/fetch_surrounding_weather_2026.py:57-71 | a process rebuilds the last-write-wins index of the rows file and the set of done jobs |
| Checkpoint.ReplayIs | backend/scripts/fetch_surrounding_weather_2026.py:62-71 | the index holds the row of the last line about a city, time and station |
| Checkpoint.Backfill.FinishJob | backend/scripts/fetch_surrounding_weather_2026.py:82-92 | performs exactly the file operations of a job, in the order rows, job, flush rows, flush done |
| Checkpoint.LinesAre | backend/scripts/fetch_surrounding_weather_2026.py:82-89 | the rows that are written are those of the wanted cities with a station and a time |
| Checkpoint.Backfill.Work | backend/scripts/fetch_surrounding_weather_2026.py:77-95 | performs exactly the operations of the run, and its index is the replay of the flushed file |
| Checkpoint.CrashIsSound | backend/scripts/fetch_surrounding_weather_2026.py:82-92 | after any operation, whatever a crash leaves: each job in the done file has all its rows in the rows file |
| Checkpoint.SoundForever | backend/scripts/fetch_surrounding_weather_2026.py:57-92 | the same over any number of processes and crashes |
| RequestCache.CachedClient.Post | backend/scripts/backfill_zhiliao_month.py:41-56 | returns the stored answer without posting, or posts, stores atomically and returns; a failure stores nothing |
| RequestCache.PostsExactly | backend/scripts/backfill_zhiliao_month.py:41-52 | a call posts if and only if no earlier call stored an answer under its digest, and returns nothing only when posting fails |
| RequestCache.AnsweredOnce | backend/scripts/backfill_zhiliao_month.py:44-52 | once answered, every later call for the request returns the same answer without posting |
| RequestCache.CachedEqualsUncached | backend/scripts/backfill_zhiliao_month.py:41-56 | against a fixed service the answers are those of the uncached client |
| RequestCache.TransparentExactly | backend/scripts/backfill_zhiliao_month.py:42-56 | this holds for all call sequences if and only if requests that share a digest share their answer |
| GapFill.LoadCity | backend/scripts/era5_gapfill_weather_2026.py:47-69 | last row per station and hour, coordinates of the first row that has some |
| GapFill.StationsAre | backend/scripts/era5_gapfill_weather_2026.py:61-68 | the coordinates of a station are those of its first usable line with some |
| GapFill.FillKeepsAndCounts | backend/scripts/era5_gapfill_weather_2026.py:145-178 | loaded rows stay, only absent station-hours are filled, filled plus still missing equals missing |
| GapFill.MergedIs | backend/scripts/era5_gapfill_weather_2026.py:145-178 | exactly which rows are written: loaded ones, and archive values for missing hours at the coordinates of the station |
| GapFill.ReloadIsMerged | backend/scripts/era5_gapfill_weather_2026.py:178-184 | loading the written file gives exactly the merged rows |
| GapFill.NextMissingExactly | backend/scripts/era5_gapfill_weather_2026.py:47-69 | the next run misses what is still missing if and only if every station concerned has a loaded row with coordinates or another missing hour that the archive fills; never more |
| GapFill.CleanFileRoundTrip | backend/scripts/era5_gapfill_weather_2026.py:126-184 | without duplicate rows the next missing set is exactly the still-missing set |
| GapFill.StationLost | backend/scripts/era5_gapfill_weather_2026.py:61-68 | a duplicate row without coordinates makes a station and its gaps disappear |
| GapFill.FillCity | backend/scripts/era5_gapfill_weather_2026.py:129-197 | writes the merged rows exactly when something is missing, with counters that add up |
| StationRegroup.OnlyMissingFields | backend/scripts/update_station_geo_info_v2.py:117-146 | a missing field becomes the database's value if it has one, and nothing else changes; updating twice is updating once |
| StationRegroup.RegroupingUnique | backend/scripts/update_station_geo_info_v2.py:151-173 | ascending cities with their stations in order determine the output |
| StationRegroup.RegroupedIsPermutation | backend/scripts/update_station_geo_info_v2.py:151-213 | no station is lost or duplicated |
| StationRegroup.CountersAreFilledFields | backend/scripts/update_station_geo_info_v2.py:199-205 | each counter is the number of blank fields that disappeared |
| StationRegroup.CountersAre | backend/scripts/update_station_geo_info_v2.py:178-205 | the counters count the stations known by name and the blank fields with a value in the database |
| StationRegroup.RunAgainChangesNothing | backend/scripts/update_station_geo_info_v2.py:148-213 | a second run on the output changes neither rows nor order and fills nothing |
| StationRegroup.StationGeoUpdater.ProcessByCity | backend/scripts/update_station_geo_info_v2.py:148-213 | the output is the stable regrouping of the updated stations, the counters those of the input |
| MonthTiles.OrdinalOrder | backend/scripts/backfill_observed_weather_daily.py:63-73 | day numbers follow the calendar order, leap years included |
| MonthTiles.NextOrdinal | backend/scripts/backfill_observed_weather_daily.py:73-73 | the next day has the next number |
| MonthTiles.Gregorian | backend/scripts/backfill_observed_weather_daily.py:63-73 | years have 365 or, by the Gregorian rule, 366 days, and 400 years 146097 |
| MonthTiles.FirstAndLast | backend/scripts/backfill_observed_weather_daily.py:63-73 | the calendar runs from day 1 to day 3652059 |
| MonthTiles.SplitMonths | backend/scripts/backfill_observed_weather_daily.py:62-73 | consecutive ranges within months from start to end; it steps past the calendar only behind its last day |
| MonthTiles.EachDayOnce | backend/scripts/backfill_observed_weather_daily.py:62-73 | every day of the interval lies in exactly one range, and no other day in any |
| GraphMetrics.F1Between | backend/scripts/evaluate_scene_graph.py:32-33 | F1 lies between the smaller and the larger of precision and recall |
| GraphMetrics.ScoreIs | backend/scripts/evaluate_scene_graph.py:48-54 | precision is the share of predictions that match, recall the share of gold elements |
| GraphMetrics.F1Counts | backend/scripts/evaluate_scene_graph.py:48-54 | F1 is twice the matches over the two sizes, also with an empty side |
| GraphMetrics.ScoreBounds | backend/scripts/evaluate_scene_graph.py:28-54 | all lie between 0 and 1, and both are 1 only for a perfect prediction |
| GraphMetrics.TypeAccuracyBounds | backend/scripts/evaluate_scene_graph.py:55-73 | type accuracy stays between 0 and 1 whatever type the lookup keeps for a name with several |
| GraphMetrics.TypeAccuracyIs | backend/scripts/evaluate_scene_graph.py:55-73 | with one type per predicted name it is the share of the shared names that match |
| GraphMetrics.ReportBounds | backend/scripts/evaluate_scene_graph.py:66-79 | the bounds for the whole report |
| GraphMetrics.ReportIs | backend/scripts/evaluate_scene_graph.py:66-79 | each rate of the report is its count over its own total |
| GraphMetrics.EvaluateJsonl | backend/scripts/evaluate_scene_graph.py:91-117 | the union and sum of all records, or the number of the first malformed line |
| GraphMetrics.CollectedAre | backend/scripts/evaluate_scene_graph.py:100-109 | the collected entities and relations are those of some record |
| GraphMetrics.CollectedConcat | backend/scripts/evaluate_scene_graph.py:100-115 | the parts of a split file add up to the whole |
| ActiveContexts.NormalizeItems | backend/app/agent/active_contexts.py:148-169 | the normal form, or the first problem in order |
| ActiveContexts.NormalizedExactly | backend/app/agent/active_contexts.py:150-159 | the list is accepted if and only if every entry is an object of a known type with an id of 1 to 255 characters, and the first that is not says why |
| ActiveContexts.StripDropsSpaces | backend/app/agent/active_contexts.py:153-165 | stripping drops white space from both ends and nothing else |
| ActiveContexts.LabelIs | backend/app/agent/active_contexts.py:165-167 | the label is the stripped one up to 512 characters, and left out when that is empty |
| ActiveContexts.NormalizedIsNormal | backend/app/agent/active_contexts.py:148-169 | distinct type and id pairs, trimmed ids of at most 255 characters, labels of at most 512 |
| ActiveContexts.NormalizedKeepsFirst | backend/app/agent/active_contexts.py:160-168 | exactly the first occurrence of every pair is kept |
| ActiveContexts.OnePassIdempotentExactly | backend/app/agent/active_contexts.py:165-167 | one pass is a fixed point if and only if no first entry of a pair has a label that is cut right after a space |
| ActiveContexts.OnePassIsNotEnough | backend/app/agent/active_contexts.py:165-167 | the entries whose label one pass leaves with a trailing space and a second pass changes |
| ActiveContexts.TwoPassesAreFixed | backend/app/agent/active_contexts.py:148-169 | two passes are |
| ActiveContexts.StoreReadIsTwoPasses | backend/app/agent/active_contexts.py:31-66 | storing and reading gives the two-pass normal form, and is stable from then on |
| ActiveContexts.LegacySkillKeepsPolicies | backend/app/agent/active_contexts.py:38-54 | a legacy skill request replaces the skill and keeps the pinned policies in order |
| ActiveContexts.ResolveActiveContexts | backend/app/agent/active_contexts.py:69-119 | succeeds exactly with a normal list, at most one loadable skill and policies within budget; which problem it reports |
| ActiveContexts.BudgetExactly | backend/app/agent/active_contexts.py:101-119 | the loop accepts exactly readable policies of at most 20000 characters each and 40000 together, with budget left before the last |

## Left out

- Decision confidences, timestamps, notice ids and most notice columns: carried along by the source without being decided upon; notices are split into the columns an upsert rewrites and those it keeps.
- TenderStore: the Postgres variant of the repository and failing read queries; a load that raises ends the stage before any write.
- ResumePending.PriorDecision: the default confidence 0.5 of stored decisions is not modelled, because nothing depends on it.
- Workflow.RunWorkflow: `--stats-only`, logging in, the parsing of keywords and dates, and a database file that does not exist yet.
- Url keys: stripping and lower-casing are not computed; a candidate carries its key, and two urls may share one.
- DateCrawl: the row checks of the parser are a flag per row, retries a single answer, and the browser fallback is not modelled.
- TableReplication: foreign keys appear only as the set of tables that TRUNCATE CASCADE empties besides the listed ones; the order of rows, column lists and server errors are left out.
- TableReplication.Destination.CmdHistory: requires that rows of the sessions table with the same id are the same session on both sides, and that every query sees the same sessions.
- WeatherRepair: backup files, printed manifests and a database failure inside the transaction, which rolls everything back.
- Checkpoint: what happens to the output files after the work loop, including that a rerun with nothing pending writes none; a fetch that gives up counts as an empty answer, as in the source.
- RequestCache: the daily ingestion around the client and the price accounting.
- GapFill: formatting of the archive's numbers, wind names and levels, and the audit file; rows are written in any order, of which the source's sorted order is one.
- StationRegroup: city names are numbered in the order in which they sort, and reading the two inputs is left out.
- MonthTiles: the aggregation run for each range.
- GraphMetrics: floating-point rounding; the three rates of reported problems, which the input can push beyond 1.
- ActiveContexts: content digests and the assembled prompt text; loading a skill and reading a policy are replies.
- Sleeps, delays, progress printing, argument parsing and environment variables.

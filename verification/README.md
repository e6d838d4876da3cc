# Verified model of the namo procurement service

The service collects procurement notices, matches them against each company's filters, and turns the
matches into mail digests and report files. Several protocols over shared PostgreSQL tables and a
report directory carry this: digest windows with delivery leases, report claims with file publication
and deletion, and a table of matches that must follow the matcher while filters change. This project
models those protocols and proves what they keep over every run.

## How it is built

- The tables are one value (`Db`) per protocol and every transaction is one step on it. The
  `FOR UPDATE` locks and unique indexes are why a transaction may be one step. A *run* is any sequence
  of steps by any number of workers; a crash is a worker that never takes its next step.
- Code that updates rows is a class whose methods make the statements of the source in their order
  (`DigestDatabase`, `ReportDatabase`, `ReportJob.Job`, `MatchDatabase`, `NoticeStore.Database`, `RegionCache.Client`,
  `Scheduler.Scheduler`, `CollectionTrigger.Trigger`, `MessageId.Buffer`). Each method is proved equal
  to its step, and the theorems are about runs of steps.
- The runners (`DigestRunner`, `ReportDatabase.Database.RunClaimed`, `Collector`, `PageList.List`) are
  loops over those classes, with the outside world given as a function of the attempt or page.

| files | subject |
|---|---|
| Basics, Strings, Decimals | time, identifiers, trimming, decimal numerals |
| DueTimes | slot search in Korean time |
| DigestModel, DigestInvariant, DigestDelivery, DigestTheorems, DigestClaims, DigestDatabase, DigestRunner | windows, delivery leases, what each operation leaves, the mail runner |
| ReportPaths, ReportLabels, ReportModel, ReportInvariant, ReportTheorems, ReportClaims, ReportDatabase | report claims, file names, the write-once store, deletion |
| ReportFlow, ReportJob | a schedule's windows and their reports together: selection, what breaks a tick, what holds a schedule |
| Counterexamples | runs from the empty tables to the lease failures listed below |
| Notices, Hashing, Matcher, MatchReasons, FilterForm, NoticeStore, NoticeBatch, MatchIndex, MatchDatabase, Collector | notices, the matcher and its reasons, the store, the match index, the collection run |
| RegionCache, PageList | the procurement client |
| CollectionTrigger, Scheduler, MessageId | the manual trigger, the tick, the Message-ID |

## Assumptions

- The database clock does not go back; its reading at the start of a transaction may lag (`lag`).
  Report leases mix process and database time, so every report step takes its own arbitrary time and
  the theorems about reports are about fencing, not about lease length.
- Generated uuids (row ids, claim tokens) are new. A worker only presents claims it was granted.
- Korean time is a fixed UTC+9. Times are integers of nanoseconds since Go's zero time; the zero time
  and NULL are `None`.
- The rows of a protocol are those of one tenant: each transaction names its tenant.
- A payload and a rule are stored as jsonb. Reading one back gives what was encoded, except that the raw
  source item inside a payload comes back as jsonb renders it (`Text.render`, of which nothing is assumed
  but, where a theorem says `StableRender`, that rendering twice is rendering once).
- Unicode normalisation, case folding, JSON decoding and the hashes are uninterpreted; a theorem that needs
  hashes without collisions says so (`Hashing.CollisionlessText` shows that this can be met, whatever
  jsonb renders).
- Two updates of a filter have different `updated_at` values where a theorem requires
  `DistinctRevisions`; `MatchIndex.EqualRevisionsLetAnOldRuleThrough` shows why.

## What turned out not to hold

Each has the input that shows it and the exact condition under which the code is right.

- A looked-up region does not survive the next listing. The revision hashes the text of the raw item, and
  the stored one is compared as jsonb renders it: the region is kept exactly when that is the text the item
  came with (`NoticeStore.EnrichmentSurvivesRestoreExactly`, `BlankRegionKeepsRegionExactly`). Listed items
  are compact JSON objects and jsonb puts spaces into them, so every one of them is looked up again
  (`ListedAgainLosesItsRegion`, on `{"a":1}`). The comment at internal/app/postgres_collector.go:175-182
  intends the opposite; the model follows the code and the schema.
- A live delivery claim can be broken by another claimer with a different idempotency key, because key
  adoption ignores the lease (`Counterexamples.LiveClaimIsBroken`): in one step exactly when that key is free
  (`AdoptionBreaksHolderExactlyWhenKeyIsFree`), and over a run exactly when the last adopted key is not the
  holder's (`HolderFinalizesExactly`).
- A report whose third attempt is abandoned stays `generating` for ever
  (`Counterexamples.AbandonedForEver`, `AbandonedIsRecoverableExactly`).
- A pending window whose report has failed or was abandoned at its third attempt holds its schedule: no later
  window is opened, however many slots fall due (`ReportFlow.ThreeFailuresHoldTheSchedule`,
  `GivenUpReportHoldsItsSchedule`). The operator can release it exactly when it failed.
- When the mail flow has completed windows before the report flow starts, reporting the newest of them makes
  every later tick of the schedule violate the report's window check and roll back
  (`ReportFlow.MixedFlowsWedge`). A tick breaks exactly when it selects a completed window after which
  another was closed (`TickBreaksExactly`); the report flow alone never gets there
  (`ReportsAloneNeverBreak`).
- A match that becomes visible only after a window was fixed, with a creation time at or before its end, is
  in no window (`Counterexamples.LateMatchIsLost`): a match is served exactly when the opening of the window
  that covers it saw it (`MatchIsServedExactlyWhenSeen`). The mail flow's cutoff is the database's own time
  under the collection lock (internal/app/postgres_digest.go:112-121); the report flow's is the process's.
- A filter whose rule changes twice in one clock tick lets a collector write a match of the old rule
  (`EqualRevisionsLetAnOldRuleThrough`): the fence fails exactly when a save reuses the revision that the
  collector read (`SaveFencesExactly`).
- A cancelled trigger can leave a queued request behind (`QueuedRequestCanBeLeftBehind`); that is the
  only way one gets stuck (`BusyMovesOnExactly`).

## Limits of exported functions

Three functions have limits that the service's own inputs do not reach.

- "Deadline within N days" overflows 64-bit nanoseconds above 106751 days
  (`WithinDaysIsExactUntilItOverflows`); the filter form admits 1 to 365, for which it is exact
  (`WithinDaysOfTheForm`, `FilterForm.AdmittedWindowMeansItsDays`).
- Identities and revisions are hashes of their parts joined by NUL: they are told apart when no part but the
  last holds a NUL (`Hashing.JoinedTellsParts`), and `NulMakesTwoIdentitiesOne` shows two numbers that are not.
  A text or jsonb column takes no NUL, so such a notice is never stored.
- The scheduler forgets a plan for exactly Go's zero time (`PlanForTheZeroTimeIsForgotten`); no tick after
  that instant makes one (`RealTicksPlanAhead`).

## Model

| member | source | states |
|---|---|---|
| DueTimes.ParseWeekdays | internal/app/postgres_digest.go:274-280 | accepts exactly weekdays 0 to 6 and collects them as a set |
| DueTimes.SearchBackFindsLatest | internal/app/postgres_digest.go:286-297 | for every valid schedule the eight-day search never misses and finds the greatest slot at or before now |
| DueTimes.LatestDueCharacterised | internal/app/postgres_digest.go:270-298 | a slot is due exactly when it is the latest slot and after the last success; nothing is due exactly when the last success covers every elapsed slot |
| DueTimes.LatestDigestDue | internal/app/postgres_digest.go:270-298 | the loop computes that due slot, error cases included |
| DueTimes.NextDeliveryAt | internal/app/postgres_web.go:1054-1078 | succeeds exactly for a valid schedule, with the least slot after now |
| DueTimes.LatestAndNextAreAdjacent | internal/app/postgres_web.go:1070-1076 | no slot lies between the latest due slot and the next delivery |
| DueTimes.DailyAgrees | internal/digest/digest.go:118-135 | with all seven weekdays the search agrees with the straight-line daily schedule |
| DigestInvariant.NewDueIsFresh | internal/app/postgres_digest.go:123-139 | a newly selected due slot is after every earlier window of the schedule |
| DigestInvariant.CompleteKeepsInv | internal/store/deliveries.go:254-283 | completion keeps windows tiling, keys unique and every delivery attached to its window |
| DigestInvariant.ClaimKeepsInv | internal/store/deliveries.go:41-143 | so does a claim, in all its branches |
| DigestInvariant.FinalizeKeepsInv | internal/store/deliveries.go:145-237 | so do both finalisations |
| DigestInvariant.NoopKeepsInv | internal/app/postgres_digest.go:460-521 | so does the no-op completion |
| DigestInvariant.StepKeepsInv | internal/app/postgres_report.go:517-546 | every step of both flows, the report's window close included, keeps the invariant |
| DigestInvariant.RunKeepsInv | internal/app/postgres_digest.go:59-110 | every run of either flow keeps the invariant |
| DigestDelivery.ClaimKeepsFlow | internal/store/deliveries.go:89-143 | a claim leaves active deliveries in pending windows only, and every pending window with someone left to serve |
| DigestDelivery.RunKeepsFlow | internal/store/deliveries.go:41-283 | every run of the mail flow keeps that |
| DigestTheorems.WindowsInOrder | internal/app/postgres_digest.go:123-169 | in every run due is at most end, end is before the next due, only the last window is pending, and last_success_at is the greatest terminal end |
| DigestTheorems.EveryInstantInOneWindow | internal/app/postgres_digest.go:141-159 | every instant up to the last end lies in exactly one window's item interval |
| DigestTheorems.NoMatchTwice | internal/app/postgres_digest.go:145-159 | no match is snapshotted into two windows of one schedule |
| DigestTheorems.SnapshotsAreOfTheirOpening | internal/app/postgres_digest.go:145-159 | every window of a run keeps, for ever, the matches its opening saw in its interval |
| DigestTheorems.MatchIsServedExactlyWhenSeen | internal/app/postgres_digest.go:141-159 | a match created up to the last end is in some window exactly when the opening of the window that covers its creation saw it |
| DigestTheorems.NothingIsLostUnderOneClock | internal/app/postgres_digest.go:112-121 | when every opening sees all matches created up to its cutoff, none is lost |
| DigestTheorems.OpenFixesWindow | internal/app/postgres_digest.go:123-169 | a created window is due at the latest slot, ends at the snapshot, and holds exactly the visible matches since the previous end |
| DigestTheorems.OpenNeverMeetsConflict | internal/app/postgres_digest.go:128-134 | the insert conflict of a new window never happens |
| DigestTheorems.CompletionVerdict | internal/store/deliveries.go:255-278 | a window completes exactly when all are sent, stays pending exactly while somebody is neither sent nor exhausted, and advances the schedule otherwise |
| DigestTheorems.ClaimTouchesOwnRow | internal/store/deliveries.go:72-143 | a claim changes no other delivery or window, and none at all when its key belongs to another delivery |
| DigestTheorems.FinalizeTouchesOwnRow | internal/store/deliveries.go:174-191 | a finalisation changes no other delivery or window |
| DigestTheorems.LeaseKept | internal/store/deliveries.go:107-113 | an unfinalised claim within its lease keeps its token, attempts, status and claim time, and its window stays pending, over every run of the mail flow and under whatever keys; its key is the last one adopted |
| DigestTheorems.HolderFinalizesExactly | internal/store/deliveries.go:165-237 | over every such run the holder's finalisation succeeds exactly when the row still carries the claim's key |
| DigestTheorems.OwnKeyStays | internal/app/digest_runner.go:92-110 | claims under one key for the delivery never change it |
| DigestTheorems.GrantedClaimIsHeld | internal/store/deliveries.go:91-142 | what a claim reports is what the row holds |
| DigestTheorems.HolderAlwaysFinalizes | internal/store/deliveries.go:165-237 | so within the lease, with keys derived from the delivery, the holder's finalisation succeeds whatever others do |
| DigestTheorems.AdoptionBreaksHolderExactlyWhenKeyIsFree | internal/store/deliveries.go:72-86 | a claim under another key breaks the holder exactly when no delivery owns that key |
| Counterexamples.LiveClaimIsBroken | internal/store/deliveries.go:72-86 | a run from the empty tables to a live claim whose holder can finalise neither way |
| Counterexamples.LateMatchIsLost | internal/app/postgres_digest.go:145-159 | a run from the empty tables after which, whatever follows, a match created by the cutoff but seen later is in no window |
| DigestTheorems.NoopDefersExactlyWhileHeld | internal/app/postgres_digest.go:467-476 | the no-op completion waits exactly while some sending delivery of the window cannot be claimed |
| DigestTheorems.AttemptsAreGrants | internal/store/deliveries.go:89-142 | over any run attempts grow by exactly the claims granted, at most three, and at most one sent finalisation succeeds |
| DigestTheorems.SentIsFinal | internal/store/deliveries.go:107-109 | a sent row never changes again, but for its key |
| DigestTheorems.TerminalWindowIsFinal | internal/store/deliveries.go:254-283 | in the mail flow a closed window and all its deliveries, each sent or failed, never change again |
| DigestTheorems.PendingWindowHasWork | internal/store/deliveries.go:115-137 | a pending window with recipients has one that is neither sent nor failed at attempt three |
| DigestClaims.ClaimGrantedExactly | internal/store/deliveries.go:72-142 | on a pending window a claim is granted exactly when no other delivery has its key and the delivery is a new recipient's, or below three attempts and waiting, failed or sending past the lease; a grant writes its own row only: one attempt on, a new token |
| DigestClaims.ClaimNeedsItsWindow | internal/store/deliveries.go:54-68 | without its pending window a claim changes nothing |
| DigestClaims.ExpiredThirdAttemptFails | internal/store/deliveries.go:91-137 | a third attempt whose lease has run out is recorded as failed, not granted |
| DigestClaims.FinalizedExactly | internal/store/deliveries.go:145-237 | a finalisation succeeds exactly on the row its claim left in a pending window, which then is sent at the given time or failed and otherwise as it was; a refused one changes nothing |
| DigestClaims.FailingDeliveryIsGivenUp | internal/store/deliveries.go:107-110 | a delivery whose attempts keep failing is claimed again up to attempt three; its window then fails once all other recipients are done, and is pending until then |
| DigestClaims.CompletionNeedsRecipients | internal/store/deliveries.go:255-273 | a window without recipients is not closed by completion |
| DigestClaims.NoopClosesExactly | internal/app/postgres_digest.go:460-521 | a no-op completion waits exactly for a live claim; otherwise it completes the window, advances the schedule, fails what is not sent, and touches nothing else |
| DigestClaims.ReportClosesExactly | internal/app/postgres_report.go:517-541 | the report's close completes a window that has not failed and advances the schedule, and touches nothing else |
| DigestClaims.OpenReportsItsWindow | internal/app/postgres_digest.go:211-220 | the due time and end reported are those of the schedule's pending window, the old one or the one just created; nothing is opened exactly when none is pending and no slot is due |
| DigestDatabase.Database.RecipientState | internal/store/deliveries.go:255-263 | the aggregates over recipients are the four quantified statements |
| DigestDatabase.Database.CompleteScheduleWindow | internal/store/deliveries.go:254-283 | is the completion step |
| DigestDatabase.Database.Claim | internal/store/deliveries.go:41-143 | is the claim step and keeps the invariant |
| DigestDatabase.Database.UpsertClaim | internal/store/deliveries.go:91-142 | the insert with its conflict update, rolled back on a constraint violation |
| DigestDatabase.Database.FinalizeSent | internal/store/deliveries.go:194-237 | is the sent finalisation step |
| DigestDatabase.Database.FinalizeFailure | internal/store/deliveries.go:145-192 | is the failed finalisation step |
| DigestDatabase.Database.CompleteNoop | internal/app/postgres_digest.go:451-521 | is the no-op step, with its three outcomes and its error |
| DigestDatabase.Database.OpenWindow | internal/app/postgres_digest.go:123-220 | selects the pending window or fixes a new one, as the open step does |
| DigestDatabase.Database.CloseForReport | internal/app/postgres_report.go:514-548 | is the report's window close |
| DigestRunner.SentIsNotClaimed | internal/store/deliveries.go:107-109 | a sent delivery is never claimed again |
| DigestRunner.FinalizeWillSucceed | internal/app/digest_runner.go:143-190 | whatever fair others do between claim and finalisation, the finalisation succeeds |
| DigestRunner.Deliver | internal/app/digest_runner.go:92-190 | a mail goes out exactly when its item has notices, the claim is granted and building and sending succeed; it counts as sent exactly when the finalisation then succeeds, which it does when the others are fair; every mail counted before stays recorded |
| DigestRunner.Settle | internal/app/digest_runner.go:143-190 | the finalisation, sent or failed, reports exactly whether the database accepted it |
| DigestRunner.RunDigests | internal/app/digest_runner.go:67-195 | every item counts once as sent, failed or skipped; no delivery is counted as sent twice and each that is counted is recorded; mails that went out unrecorded count as failed, and there are none among fair others |
| ReportPaths.ReportFilterLabel | internal/app/report_runner.go:189-224 | the label loop computes the label of the set of trimmed nonblank names, however they are ordered or repeated |
| ReportPaths.LabelIsSafe | internal/app/report_runner.go:203-224 | a label is nonempty, at most 60 characters and 220 bytes, and free of unsafe characters |
| ReportLabels.NamesMean | internal/app/report_runner.go:191-196 | the names that count are the nonblank rule names without outer space |
| ReportLabels.UnsafeMeans | internal/app/report_runner.go:203-208 | the characters replaced in a file name are the control characters and nine others |
| ReportLabels.NoticesInOrder | internal/app/postgres_report.go:440-466 | the notices of a report are those of its items, each once, by first appearance |
| ReportLabels.NamesInOrder | internal/app/postgres_report.go:440-466 | and each has the rule names of its items in their order |
| ReportLabels.MergedLabel | internal/app/report_runner.go:197-199 | no name, or two different ones, give the merged label |
| ReportLabels.OneNameLabel | internal/app/report_runner.go:203-224 | one name gives the longest prefix, within 60 characters and 220 bytes, of the name with unsafe characters replaced and outer spaces and dots dropped; the merged label only when nothing is left |
| ReportLabels.PlainNameIsItsLabel | internal/app/report_runner.go:203-224 | a name that is safe, has no space or dot at its ends and fits is its own label |
| ReportLabels.PathMeans | internal/app/report_runner.go:167-187 | the path written out: the stored one if it has the older format, else tenant, year, month, id, day and label |
| Strings.TrimSpaceMeans | internal/app/report_runner.go:193-193 | trimming drops the space at both ends and nothing else |
| ReportPaths.FileNameFits | internal/app/report_runner.go:213-224 | the whole file name fits 255 bytes |
| ReportPaths.ReportRelativePath | internal/app/report_runner.go:167-187 | computes the legacy or the current path, or refuses unsafe ids and a zero due time |
| ReportPaths.PathNamesReport | internal/app/report_runner.go:185-186 | equal current paths belong to the same report |
| ReportPaths.PlaceholderIsNotLegacy | internal/app/postgres_report.go:197-198 | a report with its first path is always written under the current format |
| ReportPaths.DistinctRuleNames | internal/app/report_delete.go:48-60 | the distinct names, read in any order, give the same set of names as the items |
| ReportPaths.GroupsKeepNames | internal/app/postgres_report.go:440-466 | grouping items into notices keeps the set of rule names |
| ReportPaths.LoadReportNotices | internal/app/postgres_report.go:414-471 | one notice per notice id in order of first appearance, with its items' rules in order |
| ReportInvariant.SnapshotIsStable | internal/app/postgres_report.go:224-240 | a repeated snapshot inserts nothing, whatever the rules are called by then |
| ReportClaims.SnapshotMeans | internal/app/postgres_report.go:224-240 | a snapshot keeps the earlier items and adds one for each match they lack, with its notice and today's rule name |
| ReportInvariant.GrantKeepsInv | internal/app/postgres_report.go:192-222 | handing out a claim keeps paths, tokens, notices and files consistent |
| ReportInvariant.PublishKeepsInv | internal/app/postgres_report.go:28-38 | so does publishing under the row lock |
| ReportInvariant.FinalizeKeepsInv | internal/app/postgres_report.go:503-513 | so does finalising |
| ReportInvariant.DeletePathIsFile | internal/app/report_delete.go:43-72 | the path deletion removes, stored or rebuilt, is the report's file and lies under its tenant |
| ReportInvariant.DeleteKeepsInv | internal/app/report_delete.go:26-86 | deletion, also one that dies half-way, keeps the invariant |
| ReportInvariant.RunKeepsInv | internal/app/report_runner.go:99-158 | so does every run |
| ReportTheorems.DeletedFilesStayGone | internal/app/report_delete.go:73-85 | after a committed deletion the row stays deleted and no file of the report exists in any later state, whatever its label |
| ReportTheorems.DeletionRemovesTheFile | internal/app/report_delete.go:26-86 | every kept report that is not generating can be deleted; its one path is removed and no other |
| ReportTheorems.DeletePathIsEveryAttemptsPath | internal/app/report_delete.go:44-69 | the rebuilt path is the path every attempt writes |
| ReportTheorems.SamePathEveryAttempt | internal/app/report_runner.go:108-113 | all attempts of a report, over a whole run, have the same notices and write the same path |
| ReportTheorems.OneReportPerWindow | migrations/0007_report_delivery.sql:27-29 | a schedule never has two reports for one window |
| ReportTheorems.DeletedIsNotRecreated | internal/app/report_delete.go:73-75 | no later tick creates a deleted scheduled report again |
| ReportTheorems.AttemptsCountClaims | internal/app/postgres_report.go:192-210 | attempts are the claims granted since the last operator retry, from one to three |
| ReportTheorems.OnlyTheLatestClaimActs | internal/app/postgres_report.go:503-513 | a worker can publish or settle exactly while its claim is the latest and unsettled, although finalising does not test deletion |
| ReportTheorems.StaleWorkIsFenced | internal/app/postgres_report.go:560-571 | after a later claim no action of an earlier worker has any effect, ever |
| ReportTheorems.ClaimStands | internal/app/postgres_report.go:28-38 | a claim stands until the report is claimed again or its holder settles it |
| ReportClaims.ReclaimGrantedExactly | internal/app/postgres_report.go:349-357 | a reclaim is granted exactly for a kept report below three attempts that failed or has been generating past the lease at the presented time; a grant writes one row, one attempt on, and hands out what it holds |
| ReportClaims.TickReclaimsExactly | internal/app/postgres_report.go:192-207 | a tick claims an existing report under exactly that condition and leaves its snapshot alone |
| ReportClaims.TickCreatesExactly | internal/app/postgres_report.go:192-222 | a tick creates the report of a window that has items and none yet, at attempt one with its snapshot |
| ReportClaims.RetryGrantedExactly | internal/app/postgres_report.go:377-384 | a retry is granted exactly for a kept failed report, which starts over at attempt one |
| ReportClaims.ManualGrantedExactly | internal/app/postgres_report.go:294-333 | a manual claim creates its report exactly when there are items |
| ReportClaims.TakenOverOnlyPastLease | internal/app/postgres_report.go:349-357 | a generating report is taken over only at a presented time past its lease, with an attempt left |
| ReportClaims.LiveClaimIsKept | internal/app/postgres_report.go:203-205 | over a run in which no reclaim or tick presents a time past the lease, the claim's row stays and its holder can publish and settle |
| ReportClaims.SettledExactly | internal/app/postgres_report.go:503-572 | success leaves the row generated at the worker's path with what it published, failure only its status; both exactly for the current claim |
| ReportClaims.PublishedExactly | internal/app/postgres_report.go:22-38 | a worker publishes exactly under the current claim and onto a free path or its own content; one file changes |
| ReportClaims.DeletedExactly | internal/app/report_delete.go:26-86 | a deletion succeeds exactly for a kept report that is not generating; its row loses path, content and items and keeps its window, and one file is removed |
| ReportTheorems.ThirdAttemptWaitsForItsHolder | internal/app/postgres_report.go:353-354 | an abandoned third attempt stays generating and can be neither reclaimed, retried nor deleted |
| ReportTheorems.AbandonedIsRecoverableExactly | internal/app/postgres_report.go:349-361 | a generating report can be taken over at some time exactly when it has an attempt left |
| Counterexamples.AbandonedAtTheThirdAttempt | internal/app/postgres_report.go:349-361 | a run from the empty tables to a report generating at attempt three with nobody left to finish it |
| Counterexamples.AbandonedForEver | internal/app/postgres_report.go:349-388 | in every later state it still is, and reclaim, retry and deletion are refused |
| ReportTheorems.GeneratedIsFinal | internal/app/postgres_report.go:377-388 | a generated row changes only by deletion |
| ReportTheorems.GeneratedHasItsFile | internal/app/report_runner.go:119-137 | a generated report has its file with the recorded content at its row's path, unless a deletion died half-way |
| ReportTheorems.RetriesNeverConflict | internal/report/files.go:75-87 | the write-once store never refuses a retry: every attempt renders what the earlier ones rendered |
| ReportDatabase.FileStore.Write | internal/report/files.go:64-155 | write once, with faults before and after linking; no existing file changes |
| ReportDatabase.FileStore.Remove | internal/report/files.go:184-207 | removes one file; a missing one is a success |
| ReportDatabase.Database.ClaimScheduled | internal/app/postgres_report.go:168-222 | is the scheduled claim step |
| ReportDatabase.Database.ClaimManual | internal/app/postgres_report.go:292-336 | is the manual claim step, given the items |
| ReportDatabase.Database.Reclaim | internal/app/postgres_report.go:349-361 | is the reclaim step |
| ReportDatabase.Database.Retry | internal/app/postgres_report.go:377-388 | is the operator's retry step |
| ReportDatabase.Database.WithReportClaim | internal/app/postgres_report.go:22-38 | publishes only under a held claim, as the publish step does |
| ReportDatabase.Database.FinalizeReport | internal/app/postgres_report.go:503-549 | is the finalise step |
| ReportDatabase.Database.FinalizeFailure | internal/app/postgres_report.go:560-572 | is the failure step |
| ReportDatabase.Database.DeleteReport | internal/app/report_delete.go:26-86 | is the deletion step, path reconstruction included |
| ReportDatabase.Database.Attempt | internal/app/report_runner.go:108-142 | a healthy attempt ends in a generated report with its file; a failed one is recorded; no other row changes |
| ReportDatabase.Database.RunClaimed | internal/app/report_runner.go:99-158 | without interference the loop ends in a generated report or with the third attempt failed, and a healthy attempt always ends it |
| ReportFlow.NewestUnreported | internal/app/postgres_report.go:135-147 | the selection is the last completed window with items whose report is missing or may be claimed again, or says that there is none |
| ReportFlow.RunKeepsInv | internal/app/postgres_report.go:54-222 | in every run of ticks, workers, operators and the mail flow windows tile, reports belong to windows with one to three attempts, and satisfy the check of their window columns |
| ReportFlow.TickBreaksExactly | migrations/0007_report_delivery.sql:19 | a tick violates that check exactly when the selected completed window has a later closed one, and then changes nothing |
| ReportFlow.WedgedTicksBreak | internal/app/postgres_report.go:135-154 | once the selected window has no report, a later one is closed and no later one is left to report, every further tick breaks |
| ReportFlow.MixedFlowsWedge | internal/app/postgres_report.go:125-154 | a run from the empty tables that gets there: two windows completed by mail, the newer one reported |
| ReportFlow.ReportsAloneNeverBreak | internal/app/postgres_report.go:503-549 | no run of the report job and its operators alone breaks a tick |
| ReportFlow.TickOpensExactly | internal/app/postgres_report.go:81-94 | a tick opens a window exactly when none is pending, none is left to report and a slot is due |
| ReportFlow.TickGrantsExactly | internal/app/postgres_report.go:168-222 | a tick that does not break grants a claim exactly when the window it is about has items and its report is missing, or kept, below three attempts, and failed or past its lease |
| ReportFlow.TickClosesExactly | internal/app/postgres_report.go:182-187 | a tick closes the pending window exactly when it has no items or its report was deleted |
| ReportFlow.WorkerSteps | internal/app/postgres_report.go:503-572 | finalising marks the report and closes its window; failing, reclaiming, retrying and deleting are allowed exactly as stated |
| ReportFlow.GivenUpReportHoldsItsSchedule | internal/app/postgres_report.go:81-165 | while the report of the pending window has used up its attempts, no tick closes that window, claims its report or opens another, until its holder, an operator or the mail flow acts |
| ReportFlow.OperatorReleasesExactlyWhatFailed | internal/app/report_delete.go:33-76 | a failed one is released by a retry that is finalised, or by deletion at the next tick with nothing older to report; a generating one by neither |
| ReportFlow.ThreeFailuresHoldTheSchedule | internal/app/postgres_report.go:560-572 | a run from the empty tables that gets there, and any number of ticks after it |
| ReportJob.Job.constructor | internal/app/postgres_report.go:54-65 | starts from the empty tables |
| ReportJob.Job.SelectUnreported | internal/app/postgres_report.go:135-147 | the query by descending due time is that selection |
| ReportJob.Job.Tick | internal/app/postgres_report.go:78-101 | is the tick, undone as a whole when the check breaks |
| ReportJob.Job.ClaimScheduled | internal/app/postgres_report.go:168-222 | is the claim, with its no-op completion, insert and conflict update |
| Matcher.MatchedIffAccepted | internal/matcher/matcher.go:58-137 | a notice matches exactly when every condition that is set holds, the weekday in the deadline's own zone, and no excluded term occurs |
| Matcher.DetailsAreTrue | internal/matcher/matcher.go:63-66 | every recorded reason, of a match or a refusal, is true of the notice and comes from the rule |
| MatchReasons.ReasonsAreComplete | internal/matcher/matcher.go:63-137 | a match records one reason for every condition of the rule, in their order |
| MatchReasons.IncludeAllReports | internal/matcher/matcher.go:74-84 | each term that has to occur is recorded, in the first field that has it |
| MatchReasons.RefusalReasons | internal/matcher/matcher.go:58-137 | a refusal records the first excluded term that occurs, or a missing deadline when nothing else is wrong, and otherwise nothing |
| MatchReasons.FieldIsFirst | internal/matcher/matcher.go:161-173 | the field of a hit is the first of title, agency and region |
| MatchReasons.ContainsMeans | internal/matcher/matcher.go:139-141 | a value contains a term when the term's normalised, folded form occurs in the value's |
| MatchReasons.KeywordIsFirst | internal/matcher/matcher.go:161-173 | of several terms that occur the first is reported |
| MatchReasons.TermIsFirst | internal/matcher/matcher.go:152-159 | so is the first contained agency or region term |
| Matcher.SameTextSameVerdict | internal/matcher/matcher.go:139-141 | the result depends on the normalised text only |
| Matcher.KoreanWeekday | internal/matcher/matcher.go:121-121 | for a deadline in Korean time the weekday is that of its Korean calendar day |
| Matcher.WithinDaysOfTheForm | internal/web/handler.go:851-858 | for 1 to 365 days the window is exactly that many days from now |
| FilterForm.ReadDeadlineDays | internal/web/handler.go:851-858 | a blank field is no limit, and any other is admitted exactly when it is a whole number from 1 to 365 |
| FilterForm.AdmittedWindowMeansItsDays | internal/matcher/matcher.go:127-134 | an admitted window narrows a rule by exactly the deadlines within so many days |
| Matcher.WithinDaysIsExactUntilItOverflows | internal/matcher/matcher.go:130-132 | the exported function's limit: exact precisely for numbers of days that do not overflow |
| Matcher.OverflowRejectsEveryDeadline | internal/matcher/matcher.go:130-132 | beyond that limit, at 106752 days, every deadline is rejected |
| Matcher.KeywordMatch | internal/matcher/matcher.go:161-173 | finds a term exactly when a nonblank one occurs, with the field it occurs in |
| Matcher.FindKeyword | internal/matcher/matcher.go:161-173 | the search loop is that function |
| Matcher.FindTerm | internal/matcher/matcher.go:152-159 | the term search returns the first nonblank contained term |
| Matcher.EvaluateText | internal/matcher/matcher.go:59-104 | the text checks in their order, with their early exits |
| Matcher.Evaluate | internal/matcher/matcher.go:58-137 | the whole evaluation is the specified one |
| NoticeStore.StoreKeepsInv | internal/app/postgres_collector.go:92-162 | storing keeps the table consistent, fails exactly on a missing field, and never with an identity mismatch |
| Notices.SourceErrorMeans | internal/model/notice.go:45-59 | of several missing fields the first is reported; a notice is valid exactly when none is missing |
| Notices.IdentityMeans | internal/model/notice.go:61-66 | identities agree exactly when category, number and sequence do |
| Notices.RevisionMeans | internal/model/notice.go:68-76 | revisions agree exactly when all fields do, times as instants and raw items as trimmed texts |
| Notices.RawMeans | internal/model/notice.go:78-84 | a raw item counts as its trimmed text, and null as none |
| Hashing.JoinedTellsParts | internal/model/notice.go:86-89 | the text that is hashed, its parts joined by NUL, tells the parts when none but the last holds a NUL |
| Hashing.NulMakesTwoIdentitiesOne | internal/model/notice.go:61-66 | with a NUL in a number two different notices have one identity |
| NoticeStore.ReachableRows | internal/app/postgres_collector.go:92-183 | a stored region means a completed lookup, the hash columns are those of the notice as encoded, the revision is on record, identities are unique |
| NoticeStore.ReadBackHashesExactly | migrations/0001_initial.sql:79 | the payload as read back has the row's identity, and its revision exactly when jsonb renders the raw item as it was |
| NoticeStore.OnlyRegionMissingMeans | internal/model/notice.go:68-84 | an item differs in nothing but its region exactly when its other fields agree and its raw text is what jsonb renders |
| NoticeStore.BlankRegionKeepsRegionExactly | internal/app/postgres_collector.go:164-183 | a list item without region keeps the stored region and its completed lookup exactly when nothing but the region is missing, compared with what jsonb gives back; otherwise it is stored as it is, for a new lookup |
| NoticeStore.EnrichmentSurvivesRestoreExactly | internal/app/postgres_collector.go:175-182 | after enrichment the same list item keeps the region exactly when jsonb renders its raw text as it was, and loses it otherwise |
| NoticeStore.ListedAgainLosesItsRegion | internal/app/postgres_collector.go:175-182 | a run from the empty table: an item listed, enriched and listed again unchanged has lost its region |
| NoticeStore.LookupReopensExactly | internal/app/postgres_collector.go:180-182 | a completed lookup is reopened exactly by a list item without region that is neither the stored notice nor, compared with what jsonb gives back, that notice without its region |
| NoticeStore.StoreTouchesOneRow | internal/app/postgres_collector.go:111-153 | storing changes one row, and no identity changes its id |
| NoticeStore.NewIdentityIsInserted | internal/app/postgres_collector.go:128-134 | a notice of a new identity gets a row that holds it and awaits its lookup unless it names a region |
| NoticeStore.HistoryIsKept | internal/app/postgres_collector.go:153-156 | a recorded revision stays as it was first recorded |
| NoticeBatch.StoreHolds | internal/app/postgres_collector.go:92-162 | storing leaves the row of the notice's identity holding it, but for a region it does not name |
| NoticeBatch.ChangedMeansRows | internal/app/postgres_collector.go:133-161 | a store reports a change exactly when it adds or rewrites a row |
| NoticeBatch.LastIsHeld | internal/app/collector.go:135-144 | after a sequence of stores the row of each identity holds its last notice |
| NoticeBatch.OthersStay | internal/app/collector.go:135-144 | rows of other identities stay as they were |
| NoticeBatch.NoOtherRows | internal/app/collector.go:135-144 | and there are no further rows |
| NoticeStore.Database.StoreNotice | internal/app/postgres_collector.go:92-162 | is the store step |
| NoticeStore.Database.MarkRegionLookupComplete | internal/app/postgres_collector.go:219-229 | completes the lookup of one row or reports it missing |
| MatchIndex.RunKeepsInv | internal/app/postgres_collector.go:328-380 | under any interleaving every match is of an enabled filter's current rule |
| MatchIndex.EveryMatchIsCurrent | internal/app/postgres_web.go:662-779 | the same, read off any reachable row, with the matcher's meaning |
| MatchIndex.OldEntriesStayFenced | internal/app/postgres_collector.go:330-334 | once its filter has changed, an old list entry never writes again |
| MatchIndex.ChangesInvalidateOldEntries | internal/app/postgres_web.go:686-758 | an entry stays current only while its filter's row is unchanged |
| MatchIndex.EqualRevisionsLetAnOldRuleThrough | internal/app/postgres_web.go:686-688 | two saves at one revision let an old entry write a match of the old rule |
| MatchIndex.SaveFencesExactly | internal/app/postgres_web.go:686-688 | after a save of a changed rule an old entry passes the fence exactly when the save reuses its revision |
| MatchIndex.RefreshIsExact | internal/app/postgres_web.go:616-655 | after a refresh a row exists exactly when the rule accepts the notice; other rows are untouched; off its revision nothing happens |
| MatchIndex.SaveIsExact | internal/app/postgres_web.go:582-610 | after saving, the filter is enabled with its rule and its matches are exact |
| MatchIndex.SaveWritesOneFilter | internal/app/postgres_web.go:662-703 | saving writes the row of that name, or a new one, and none when nothing changes; matches of inactive notices stay unless the rule changed |
| MatchIndex.ToggleIsExact | internal/app/postgres_web.go:705-758 | enabling leaves the filter's matches exact, disabling leaves none, and other filters' rows are untouched |
| MatchIndex.RemoveIsExact | internal/app/postgres_web.go:769-779 | deleting a filter takes its row and its matches, and nothing else |
| MatchDatabase.Database.EnabledFilters | internal/app/postgres_collector.go:273-299 | lists every enabled filter once |
| MatchDatabase.Database.UpsertMatchRevision | internal/app/postgres_collector.go:328-358 | the fenced insert and update, reporting creation and application exactly |
| MatchDatabase.Database.DeleteMatchRevision | internal/app/postgres_collector.go:367-380 | the fenced delete |
| MatchDatabase.Database.RefreshFilterMatches | internal/app/postgres_web.go:616-655 | the batch is the refresh |
| MatchDatabase.Database.SaveFilter | internal/app/postgres_web.go:591-703 | is the save step, at any revision, and keeps the invariant when the revision is new |
| MatchDatabase.Database.ToggleFilter | internal/app/postgres_web.go:712-758 | is the toggle step, at any revision, and keeps the invariant when the revision is new |
| MatchDatabase.Database.DeleteFilter | internal/app/postgres_web.go:769-779 | is the delete step with its cascade |
| Collector.WriteAllIsExact | internal/app/collector.go:184-203 | with current entries one notice is indexed exactly, and no other row is touched |
| Collector.EnrichmentStaysInItsRow | internal/app/collector.go:174-182 | storing a looked-up region rewrites the notice's own row |
| Collector.StoredIsAccounted | internal/app/collector.go:121-183 | storing what was fetched and then looking regions up leaves every fetched notice in its row and every other row as it was, or with its missing region looked up |
| Collector.WhatARunIsAbout | internal/app/collector.go:16-21 | the four categories in their order, from ten minutes before the last success or a week back; active is without deadline or up to it |
| Collector.Collector.StoreBatch | internal/app/collector.go:135-144 | stores the notices up to the first invalid one, and counts them, the rewritten rows and the warnings |
| Collector.Collector.StoreBatches | internal/app/collector.go:121-145 | stores all fetched notices up to the first invalid one or source error; succeeds exactly when there is none, counting notices, rewritten rows and warnings |
| Collector.Collector.FetchAndStore | internal/app/collector.go:112-145 | the same for the four categories from ten minutes before the checkpoint, or seven days back |
| Collector.Collector.Enrich | internal/app/collector.go:155-183 | looks up exactly what is missing and possible; a found region is in the notice that is matched and in its row, other fields and rows stay |
| Collector.Collector.MatchActive | internal/app/collector.go:153-204 | settles every active notice; changes rows only by a missing region; no lookup follows an exhausted budget; counts exactly the new rows and failed lookups |
| Collector.Collector.Run | internal/app/collector.go:101-209 | after success every fetched notice is in the row of its identity, no other row has changed but by a missing region, the index agrees with the matcher on every active stored notice as read back and every enabled filter, all counts are exact, and only then the checkpoint advances |
| RegionCache.RunKeepsInv | internal/procurement/client.go:357-400 | every interleaving of callers keeps cache, queue, flights and budget consistent |
| RegionCache.SingleFlightWithinBudget | internal/procurement/client.go:371-388 | a key has at most one unfinished fetch and none while cached; fetches never exceed the budget |
| RegionCache.EnterMeans | internal/procurement/client.go:365-388 | a caller is told the cached region, the pending fetch, or that the budget is used up, and otherwise starts a fetch; nothing else changes |
| RegionCache.FinishMeans | internal/procurement/client.go:391-398 | a fetch's result goes to its waiters; a region is cached in place of the oldest of 500, an error caches nothing |
| RegionCache.QueueIsTheLastInsertions | internal/procurement/client.go:445-452 | the queue is the last 500 insertions in order, and evictions are the insertions before them |
| RegionCache.RefetchesAreAccountedFor | internal/procurement/client.go:391-397 | a key's fetches are its failures, its evictions, and at most one in flight or cached |
| RegionCache.AnswersComeFromFetches | internal/procurement/client.go:366-379 | whatever a caller is answered is the result of a fetch of its key |
| RegionCache.CacheKeyInjective | internal/procurement/client.go:364-364 | numbers without NUL never share a key |
| RegionCache.Client.BeginLookup | internal/procurement/client.go:365-388 | is the first critical section |
| RegionCache.Client.FinishLookup | internal/procurement/client.go:391-398 | is the second critical section |
| RegionCache.Client.CacheRegion | internal/procurement/client.go:445-452 | evicts the oldest key when full, then inserts |
| PageList.AmountRoundTrip | internal/procurement/client.go:665-672 | any way of writing an amount with commas and space is read as it, and larger than 64 bits is refused |
| PageList.AmountMeans | internal/procurement/client.go:665-672 | a text is an amount exactly when, without commas and outer space, it is empty, for zero, or a decimal numeral up to 64 bits |
| PageList.CommasDropped | internal/procurement/client.go:666-666 | commas, and nothing else, are dropped |
| PageList.TimeMeans | internal/procurement/client.go:674-684 | a blank time is none; any other is what the first accepting layout reads, and unreadable without one |
| PageList.ItemBecomes | internal/procurement/client.go:637-664 | an item becomes a notice exactly when it decodes, its amount and times are readable and its required fields are not blank; the notice is then what it says, field by field |
| PageList.WarningsAreExact | internal/procurement/client.go:643-662 | each warning is there exactly when its fault is |
| PageList.ItemIsAccountedFor | internal/procurement/client.go:637-664 | an item becomes one valid notice, or a warning names its page and position |
| PageList.ConvertPage | internal/procurement/client.go:219-235 | the item loop is the specified conversion |
| PageList.ExpectedSumsToTotal | internal/procurement/client.go:194-203 | the expected counts of pages 1 to max(1, ceil(total/size)) sum to the total |
| PageList.ListPage | internal/procurement/client.go:186-235 | one page, with its error outcomes |
| PageList.List | internal/procurement/client.go:161-240 | what each outcome says about the source, within the page limit; every listed notice is what one of its items says, field by field |
| PageList.ListSucceedsExactly | internal/procurement/client.go:182-239 | a listing succeeds exactly when every page arrives in full, none repeats, and the limit suffices |
| PageList.EveryItemIsAccountedFor | internal/procurement/client.go:219-235 | in a successful listing no item is lost |
| PageList.NoticesAreSaid | internal/procurement/client.go:219-235 | every listed notice is, field by field, what an item of a page says |
| PageList.EarlierComeFirst | internal/procurement/client.go:219-235 | in the order of pages and items |
| PageList.ListedNoticesAreValid | internal/procurement/client.go:653-659 | every listed notice is one the store accepts |
| CollectionTrigger.OneTokenWhileBusy | internal/app/async_collection.go:34-73 | callers past the flag, queued wakes and running collections sum to one exactly while busy, so a send never waits and runs never overlap |
| CollectionTrigger.AcceptedRequestsAreConserved | internal/app/async_collection.go:42-59 | accepted requests are collected once, given up after cancellation, or under way |
| CollectionTrigger.BusyMovesOnExactly | internal/app/async_collection.go:61-73 | while busy some step can go on, exactly unless the request is queued to an exited loop |
| CollectionTrigger.NeverStuckBeforeCancellation | internal/app/async_collection.go:64-65 | so without cancellation nothing gets stuck |
| CollectionTrigger.QueuedRequestCanBeLeftBehind | internal/app/async_collection.go:63-66 | after cancellation a queued request can be left behind |
| CollectionTrigger.Trigger.Lock | internal/app/async_collection.go:42-48 | only the caller that sets the flag goes on |
| CollectionTrigger.Trigger.SendOrLeave | internal/app/async_collection.go:50-58 | sends at once or clears the flag after cancellation |
| CollectionTrigger.Trigger.Collect | internal/app/async_collection.go:66-70 | one collection per wake, then the flag is clear |
| Scheduler.CollectionRetryDelay | internal/jobs/scheduler.go:77-87 | the doubling loop is min(30, 2^(k-1)) minutes |
| Scheduler.RetryDelayGrows | internal/jobs/scheduler.go:77-87 | delays never shrink and lie between one minute and half an hour |
| Scheduler.StartsIncrease | internal/jobs/scheduler.go:55-69 | for arbitrary clock readings, none of which plans for exactly the zero time, starts increase strictly and keep their distance from every earlier collection |
| Scheduler.TickPlansByOutcome | internal/jobs/scheduler.go:55-87 | a success plans the next start at the interval after its end and forgets failures, a failure after a doubled delay; reports run at the end of the tick's collection |
| Scheduler.RealTicksPlanAhead | internal/jobs/scheduler.go:62-69 | ticks after the zero time never plan for it |
| Scheduler.TickCollectsExactly | internal/jobs/scheduler.go:55-69 | a tick after a collection collects exactly when its wait is over, or when the plan is the zero time |
| Scheduler.PlanForTheZeroTimeIsForgotten | internal/jobs/scheduler.go:55-55 | ticks before the zero time can start earlier than the collection before them |
| Scheduler.Scheduler.Tick | internal/jobs/scheduler.go:49-75 | one tick's plan, and the report at a time not before the tick |
| MessageId.DecodeOfEncode | internal/app/digest_runner.go:199-202 | the length-prefixed encoding decodes to its parts |
| MessageId.HashedBytesAreInjective | internal/app/digest_runner.go:203-208 | the hashed bytes determine the delivery key and every notice |
| MessageId.MessageIdsRepeatExactly | internal/app/digest_runner.go:197-210 | short of a hash collision, a Message-ID (section 3.6.4 of RFC 5322) repeats exactly for the same delivery and notices |
| MessageId.DigestMessageId | internal/app/digest_runner.go:197-210 | the buffer is fed the specified bytes |

## Left out

- DigestTheorems.LeaseKept: is stated for the mail flow only, because the report flow closes a pending window without looking at deliveries (internal/app/postgres_report.go:517-541); the window properties hold for both.
- DigestTheorems.TerminalWindowIsFinal: mail flow only, for the same reason.
- DigestDatabase.Database.OpenWindow: is the mail flow's selection; the report flow's is `ReportFlow.Select`, with the windows and reports of one schedule.
- ReportFlow.RunKeepsInv: a mail delivery that still holds a lease makes the no-op close of a pending window wait; deliveries are not in this model, and that wait is `DigestTheorems.NoopDefersExactlyWhileHeld`.
- ReportFlow.MixedFlowsWedge: one schedule; the rollback of a broken tick also undoes the tenant's other schedules and ends the job for the tenants after it.
- DigestRunner.RunDigests: runs over one tenant's items; the totals per tenant and the error texts are not modelled.
- ReportDatabase.Database.ClaimManual: takes the snapshotted items as given; the refresh before it is `MatchIndex.Refresh`.
- ReportDatabase.Database.RunClaimed: is proved without interference and with cancellation seen only between attempts; interleavings with other workers are the runs of `ReportModel`.
- ReportInvariant.DeletePathIsFile: covers the current path format; rows that carry a legacy file name from before it are not reachable in the model.
- ReportModel.FinalizeReport: whether the window row accepts is a parameter, as in `ReportDatabase.Database.FinalizeReport`; `ReportFlow.Finalize` has the window row.
- ReportDatabase.Database.FinalizeReport: as above.
- Matcher.Evaluate: the notice value that a detail quotes for display is not kept, and reasons and details are one list.
- Collector.Collector.Run: database errors are not modelled; source errors, invalid notices and cancellation are.
- PageList.List: the request itself with its retries, the daily call budget and secret redaction are inside the response function.
- RegionCache.Client.BeginLookup: a waiter that gives up on its own context changes nothing and is not a step.
- Rounding of process times to the microseconds of the database.
- Liveness: nothing says that a delivery, report or collection eventually happens.
- Merging digest rows into readable reasons, HTML, MIME and SMTP: rendering.
- HTTP handlers, sessions, passwords, onboarding, tenants and roles: other components.
- File permissions, path checks, symlinks, temporary files and fsync: the store is a write-once map with remove.

# Sprinter: a verified model of the durable work engine

Sprinter is a security-review service: clients submit review jobs under idempotency keys, one
worker claims them, collects evidence, asks a language model for a decision, and commits the
decision together with its evidence and a deduplicated finding. Results and audit events leave
through an outbox that is retried with exponential back-off. Teams conversations become
destinations for result cards once an administrator enables them.

This project models that engine in Dafny and proves what holds in every run of it.

| file | what it models |
|---|---|
| `Json.dfy`, `SplunkQuery.dfy`, `SearchText.dfy`, `Evidence.dfy` | redaction, Splunk quoting, the text a search is sent as, evidence normalisation, finding-key material |
| `Tokens.dfy`, `TokenRecords.dfy` | salted token verifiers, authentication, the record list parser |
| `RateLimit.dfy` | the sliding-window rate limiter, as a class over its queues |
| `Review.dfy`, `ReviewRuns.dfy` | review tables, and the runs of one worker that may crash anywhere |
| `ReviewHistory.dfy`, `Finality.dfy`, `Attempts.dfy` | decisions and findings, finished jobs, attempts and waits, at the end of every run |
| `ReviewDrain.dfy`, `ReviewFairness.dfy` | draining and freedom from starvation of the review queue |
| `Orphans.dfy`, `LateUpdates.dfy` | rows a crash left running, and writes by a worker that lost its job |
| `ClaimRace.dfy`, `RaceHistory.dfy`, `SubmitRace.dfy` | any number of workers or clients, interleaved between the steps of a claim or a submission |
| `Outbox.dfy`, `OutboxRuns.dfy`, `OutboxDrain.dfy`, `OutboxFairness.dfy` | the outbox, its runs, draining and freedom from starvation |
| `TeamsLifecycle.dfy`, `Gateway.dfy` | installation rows over every history of events, and the gateway |
| `Database.dfy`, `Engine.dfy` | the database object, the engine and the worker loop, as classes with fields |
| `Basics.dfy`, `Text.dfy`, `Settings.dfy` | shared vocabulary, configured values |

How the parts fit: the table transactions are functions from store to store (`Review`,
`Outbox`, `TeamsLifecycle`). The run modules prove invariants and history theorems about
sequences of those transactions with crashes in between. The methods of `Database` update
fields step by step and are proved to compute exactly those functions. The engine keeps ghost
logs of the transactions it makes; its class invariant says that each log is a valid run that
leads to the present tables, so every run theorem holds of the engine at any time.

## Assumptions

- A transaction is atomic, and foreign keys cascade on delete.
- Clock readings do not decrease, in the order in which the calls take effect, and a transaction
  reads the clock once. Times in the tables are whole seconds; the rate limiter's are real numbers.
- Settings stay fixed during a run, and the maximum of attempts is at least one.
- There is one active worker (docs/architecture.md), except in `ClaimRace`.
- Row ids are numbered in the order they are issued; only their freshness matters.
- What follows the completing commit of a round (src/sprinter/engine.py, lines 198 to 204) may
  crash but does not raise one of the caught exceptions. An exception that a round does not catch,
  such as an HTTP error of the Splunk client, is a crash.
- Rows are created at strictly increasing times only for `OutboxFairness.NoRowStarves` and
  `ReviewFairness.NoJobStarves`.
- The key derivation, the digest, case folding and the printing of non-string values, which is
  never empty, are parameters. Equal canonical JSON text is taken to mean equal values.
- The model process is an oracle: it replies with a decision, fails, or never returns because
  of a crash.

## Where the code does less than one might expect

- `attempts <= max_attempts` does not hold, because recovery does not look at attempts;
  `Attempts.AttemptsCanExceedMaximum` is a run. It holds after every event of a run exactly when no
  claim takes a row without an attempt left (`Attempts.MaximumHoldsExactly`). Such a row can only
  wait because a restart found it abandoned: the stricter budget, waiting rows below the maximum,
  holds exactly when no restart does (`Attempts.BudgetHoldsExactly`). Of one job it holds exactly as
  `Attempts.BudgetIsExceededExactly` says.
- With several workers recovery may hit a live claim. The claims stay exclusive exactly when none
  does (`RaceHistory.ExclusionHoldsExactly`); then every job has one decision at most and finished
  jobs never change (`RaceHistory.RacesDecideOnce`, `RaceHistory.FinishedIsFinal`). Otherwise one job
  can get two decisions (`ClaimRace.OneJobCanGetTwoDecisions`), exactly when a worker commits a job
  that has one (`RaceHistory.OneDecisionHoldsExactly`), and a job that failed for good can be put
  back to work or committed (`ClaimRace.FailedJobCanComeBack`), exactly by a live worker that still
  holds it (`RaceHistory.FinishedChangesExactly`).
- The reason is that retry and completion update the job by id alone. A late write keeps the
  invariant of the runs of one worker exactly when the job has not succeeded and is not held
  (`LateUpdates.LateRetryIsSafeExactly`, `LateUpdates.LateCommitIsSafeExactly`), and the claims of
  several exactly when no live worker holds the job (`ClaimRace.LateRetrySparesClaimsExactly`,
  `ClaimRace.LateCommitSparesClaimsExactly`).
- docs/seer-stix.md promises a conflict for a reused key with different content. The path after
  a lost insert race returns the existing row uncompared: `SubmitRace.CollisionsAreNotCompared` is a
  run. `SubmitRace.ReuseIsMissedExactly` says from which states the clients in flight, without new
  ones, can settle that way; `SubmitRace.AgreeingSubmissionsAreHonoured` says when it never happens.
- Recovery at start-up only hits claims older than 900 seconds. A claim orphaned by a crash less
  than that before the restart stays running until some later restart (`Orphans.OrphansWaitExactly`,
  with the run `Orphans.QuickRestartLeavesOrphan`); a queue that drains still holds those rows
  (`ReviewDrain.QueueDrains`).
- A crash between the commit of a round and the end of its announcements loses the rest of them for
  good: the decision stands (`Engine.Container.BreakReport`), and no later round claims the job again
  (`Finality.FinishedIsFinal`). Without such a crash every commit is announced
  (`Engine.Container.Conclude`).
- The cut of a Splunk literal at 512 characters can split an escape, but only for values longer
  than the schema allows: `SplunkQuery.QuotedLiteralReadsBack` and `SplunkQuery.CutCanSplitAnEscape`.
- The Splunk client turns every run of white space in a search into one space, inside quotes as
  well. A selector value is asked for as it was given exactly when its only white space is single
  spaces, each by itself (`SearchText.SentRunIsAskedExactly`, `SearchText.SentResultIsAskedExactly`).

## Model

| member | source | states |
|---|---|---|
| ReviewHistory.OneDecisionPerSucceededJob | src/sprinter/db.py:246-313 | In every run with crashes, restarts and purges, a stored job has exactly one decision if it succeeded and none otherwise, a result exactly when it succeeded, and a completion time exactly when it succeeded or failed. |
| ReviewHistory.FindingIsLatestDecision | src/sprinter/db.py:287-301 | A finding exists for a key exactly when some standing decision has that key, and it points at the one committed last. |
| ReviewHistory.OccurrencesCountCompletions | src/sprinter/db.py:287-301 | The occurrences of a finding are the completions for its key since a decision of that key has been standing without a break, whatever was purged meanwhile. |
| ReviewHistory.FindingsAddUpToDecisions | src/sprinter/db.py:287-301 | With no purge, the occurrences of all findings add up to the number of decisions. |
| ReviewHistory.PurgeCutsCleanly | src/sprinter/db.py:459-504 | At any cut-off a purge removes exactly the jobs finished before it and never pending, retrying or running work; a finding either stays unchanged or goes with every decision of its key. |
| ReviewHistory.NothingDangles | src/sprinter/models.py:58-94 | In every run each evidence row and decision has its job, and each finding its decision. |
| ReviewHistory.CitationsStayWithinEvidence | src/sprinter/engine.py:189-197 | Every standing decision cites only ids e1 to en for n within the row limit of its job, which is within the configured bound. |
| ReviewHistory.CommitCitesItsOwnEvidence | src/sprinter/engine.py:189-197 | A commit stores one evidence row per item and cites only ids e1 to en for n the number of rows it stored. |
| Attempts.AttemptsAreAccountedFor | src/sprinter/db.py:189-244 | A job's attempts are its retries plus its recoveries, plus one while running or once succeeded. Never recovered without an attempt left, it is within its maximum; otherwise it is over it by exactly the number of those recoveries, one less while it waits. |
| Attempts.BudgetIsExceededExactly | src/sprinter/db.py:221-229 | A job has more attempts than its maximum if and only if it was recovered without an attempt left and claimed again after that. |
| Attempts.BudgetStep | src/sprinter/db.py:221-229 | A step from a state within budget (waiting rows strictly below it) keeps the budget if and only if it is not a restart that finds an abandoned row without an attempt left. |
| Attempts.BudgetHoldsExactly | src/sprinter/db.py:221-229 | A run keeps the strict budget (waiting rows strictly below the maximum) after every event if and only if no restart in it finds an abandoned row without an attempt left. |
| Attempts.MaximumHoldsExactly | src/sprinter/db.py:189-229 | No job of a run ever has more attempts than its maximum if and only if no claim of the run takes a row without an attempt left. |
| Attempts.FrugalRunsClaimNothingSpent | src/sprinter/db.py:189-229 | Where no restart finds an abandoned row without an attempt left, no claim takes such a row. |
| Attempts.AttemptsCanExceedMaximum | src/sprinter/db.py:221-229 | A concrete run in which a job of one allowed attempt is claimed twice. |
| Attempts.RetriesSitOutTheirWaits | src/sprinter/engine.py:208-209 | In every run a job is not due before its creation plus the waits of all its retries plus 901 seconds for each of its recoveries. |
| Attempts.JobWaitsAreGeometric | src/sprinter/engine.py:208-209 | The first k waits of a job add up to 2^(k+1) - 2 seconds, for k up to 9. |
| Attempts.JobDelaysNeverDecrease | src/sprinter/engine.py:208 | Job delays never decrease and stay within 512 seconds, so the cap of 900 never binds. |
| ReviewDrain.QueueDrains | src/sprinter/db.py:189-313 | From any moment at which the worker is idle, whatever its rounds are answered and whenever it purges: once as many rounds found a row, or came when the longest wait was over, as there was work, every job is finished, except the rows a crash left running, which are still there unchanged. |
| ReviewDrain.AnyAnswersDrain | src/sprinter/engine.py:184-217 | For any sequence of answers (commits that pass the checks, commits that do not, failures), every worker that makes its rounds at least 512 seconds apart has no job waiting after as many rounds as there was work. |
| ReviewDrain.RoundsExist | src/sprinter/engine.py:184-217 | From any idle moment such rounds can be made for any sequence of answers. |
| ReviewFairness.NoJobStarves | src/sprinter/db.py:192-200 | Over any run, with new work arriving and strictly increasing creation times, the claims that pass over a job while it is due number at most the work there was in older jobs plus one per recovery of an older job since. |
| ReviewFairness.PassingClaimIsOlder | src/sprinter/db.py:192-200 | What a claim takes in preference to a due row is older. |
| Finality.FinishedIsFinal | src/sprinter/db.py:189-313 | In every run of one worker a finished job never changes and is never claimed again: it is there, as it was, if and only if no purge so far had a cut-off after its completion. |
| Finality.EvidenceIsFinal | src/sprinter/db.py:459-471 | In every run an evidence row is there, as it was, if and only if no purge since came after its expiry and none had a cut-off after the completion of its job. |
| Finality.DecisionIsFinal | src/sprinter/db.py:466-471 | In every run a decision is there, as it was, if and only if no purge since had a cut-off after the completion of its job. |
| Attempts.WaitsAreDoubling | src/sprinter/engine.py:208-209 | In every run a job that waits again is due exactly 2, 4, 8, ... 512 seconds after its last failure, by its attempts, or at once when a restart put it back; a pending one from its creation on. |
| ReviewDrain.WaitsAreShort | src/sprinter/engine.py:208-209 | In every run no row is due later than 512 seconds after the last time a row was scheduled. |
| ReviewDrain.ClaimsArePaidFor | src/sprinter/db.py:189-244 | From any point of any run on, claims made plus work left (one per remaining attempt of unfinished jobs) are at most the work there was, one budget per submission and one claim per recovery. |
| ReviewDrain.QuietClaimsAreBounded | src/sprinter/db.py:189-244 | Without submissions and restarts, any run makes at most as many claims as there was work. |
| Orphans.OrphansWaitExactly | src/sprinter/db.py:221-229 | Over every run, a row left running by a crash is still there as it was if and only if no restart so far came more than 900 seconds after its claim. |
| Orphans.OrphanStaysExactly | src/sprinter/db.py:221-229 | One step frees such a row if and only if it is a restart that finds the claim abandoned. |
| Orphans.OrphanedExactly | src/sprinter/worker.py:35-60 | A row is left running by a crash of the worker that holds it, and by nothing else. |
| Orphans.QuickRestartLeavesOrphan | src/sprinter/db.py:221-229 | A run from the empty table: crash in the first round, restart ten seconds later, and the job is running with no worker on it. |
| LateUpdates.LateRetryIsSafeExactly | src/sprinter/db.py:231-244 | A retry by a worker that lost the job keeps the whole run invariant if and only if the job has not succeeded and is not held by the present worker. |
| LateUpdates.LateCommitIsSafeExactly | src/sprinter/db.py:246-313 | So does a late commit, under the same condition. |
| LateUpdates.SecondCommitBreaks | src/sprinter/db.py:302-312 | A second commit of a succeeded job breaks the match of decisions and results: a decision is left that no result names. |
| ReviewRuns.RunsKeepInv | src/sprinter/db.py:134-313 | Every run keeps the queue invariant: ids issued, keys unique, row columns agree with the status, decisions and succeeded jobs one to one and in order of commit, findings on the latest decision, citations bounded, evidence only on succeeded jobs, the held job running. |
| ReviewRuns.InvStep | src/sprinter/db.py:189-313 | Every transaction, crash and restart keeps that invariant. |
| ReviewRuns.CompleteKeepsFindings | src/sprinter/db.py:287-301 | A completion keeps every finding on the latest standing decision of its key. |
| ReviewRuns.PurgeKeepsFindings | src/sprinter/db.py:466-471 | The cascade of a purge at any cut-off never separates a finding from a standing decision of its key. |
| Review.SomeDueRowIsOldest | src/sprinter/db.py:192-200 | Where some row is due, an oldest due row exists, so a claim that finds none means none is due. |
| Review.EvidenceAddedRow | src/sprinter/db.py:256-267 | A completion keeps the evidence table and adds exactly one row per item, with job, kind, title, uri, payload and expiry each in its own column, cut and defaulted as stated. |
| Review.PresentableIsKept | src/sprinter/db.py:256-267 | The stored row of a collected item holds its kind, title and uri as they are, and its payload if and only if that is no empty value of another kind than an object. |
| Review.DeletedRows | src/sprinter/db.py:464-471 | A purge deletes by itself exactly the evidence whose time is over and the succeeded and failed jobs completed before the cut-off. |
| ClaimRace.ClaimsAreExclusive | src/sprinter/db.py:189-219 | For any number of workers and any interleaving of read and guarded update, no two live workers hold the same job, provided recoveries hit only claims whose worker has died. |
| ClaimRace.RecoveryIsSafeExactly | src/sprinter/db.py:221-229 | A recovery keeps that invariant if and only if it spares the claims of live workers. |
| ClaimRace.RecoveredLiveClaimIsSharedNext | src/sprinter/db.py:221-229 | Where it hits a live claim that is then the oldest due row, the next claim by another worker puts the job into two hands. |
| ClaimRace.LateRetrySparesClaimsExactly | src/sprinter/db.py:231-244 | A retry by the id of a job keeps the claims exclusive and running if and only if no live worker holds the job. |
| ClaimRace.LateCommitSparesClaimsExactly | src/sprinter/db.py:302-312 | So does a commit. |
| ClaimRace.BothHoldersCommit | src/sprinter/db.py:246-313 | Two live workers that hold one job can both commit, and it then has two decisions. |
| RaceHistory.RacesDecideOnce | src/sprinter/db.py:246-313 | For any number of workers and any interleaving in which recoveries spare live claims, a job has exactly one decision when it succeeded and none otherwise. |
| RaceHistory.AtMostOneStep | src/sprinter/db.py:246-313 | A step from a store with at most one decision per job keeps that if and only if it is not a commit of a job that has a decision. |
| RaceHistory.OneDecisionHoldsExactly | src/sprinter/db.py:246-313 | In every interleaving at all, no job ever has two decisions if and only if no worker commits a job that has one. |
| RaceHistory.ExclusionHoldsExactly | src/sprinter/db.py:221-229 | In every interleaving at all, the claims are exclusive and running after every event if and only if every recovery spares the live claims. |
| RaceHistory.FinishedIsFinal | src/sprinter/db.py:221-313 | While recoveries spare live claims, a finished job never changes: it is there, as it was, if and only if no purge so far had a cut-off after its completion. |
| RaceHistory.FinishedChangesExactly | src/sprinter/db.py:231-313 | In any state at all, a finished job changes only when a live worker that still holds it writes: a retry that had read the row with attempts left puts it back to work, another leaves it failed, a commit leaves it succeeded. |
| ClaimRace.FailedJobCanComeBack | src/sprinter/db.py:231-244 | A run from the empty table in which a job that failed for good is put back to work by a worker that had read it earlier, and one in which that worker commits it. |
| ClaimRace.OneJobCanGetTwoDecisions | src/sprinter/db.py:221-229 | A run from the empty table that ends so: a claim older than 900 seconds of a live worker is recovered when a second one starts. |
| SubmitRace.AcceptedAnswersNameTheRow | src/sprinter/db.py:134-183 | Under any interleaving of clients, worker and retention there is at most one row per key, and an accepted answer names that row as long as it is stored; where a comparison or an insert was made, the row holds the submitted request. |
| SubmitRace.AgreeingSubmissionsAreHonoured | src/sprinter/db.py:144-183 | Where the submissions in flight under one key always agree, every accepted client, also after a lost insert race, finds its own request in the row it was answered with. |
| SubmitRace.ReuseIsMissedExactly | src/sprinter/db.py:144-183 | From any state the clients in flight can settle so that one is accepted for a row with another request if and only if one of them is contested: its key is taken by such a row, or free and about to be inserted with another request. |
| SubmitRace.TwoMissesAreContested | src/sprinter/db.py:144-183 | Two clients that both missed a free key with different requests are contested. |
| SubmitRace.CollisionsAreNotCompared | src/sprinter/db.py:177-181 | A run from the empty table in which the second of two different requests under one key is accepted for the row of the first. |
| SubmitRace.RunKeepsInv | src/sprinter/db.py:134-183 | Every interleaved run keeps keys unique and every accepted reply consistent with the row it names. |
| SubmitRace.WorkerKeepsIdentities | src/sprinter/db.py:189-313 | Every transaction of the worker and of retention keeps the key and request of each surviving row and adds none. |
| OutboxFairness.NoRowStarves | src/sprinter/db.py:328-362 | From any moment between flushes on, the completed flushes that pass over a due row number at most a 25th of the attempts left in older active rows. |
| OutboxFairness.PassingFlushIsFull | src/sprinter/db.py:328-337 | A flush that passes over a due row has 25 rows, and the one it is at is older. |
| OutboxDrain.OutboxDrains | src/sprinter/db.py:328-362 | From any moment at which the worker is idle, however its calls go and whenever it purges: once its flushes count for as many attempts as were left (a row of a batch counts one, a flush when the longest wait was over at least one), every row is sent or has failed for good. |
| OutboxDrain.AnyOutcomesDrain | src/sprinter/engine.py:281-306 | For any outcomes of its calls, every worker whose flushes are at least 1024 seconds apart leaves no row active after as many flushes as there were attempts left. |
| OutboxDrain.FlushesExist | src/sprinter/engine.py:281-306 | From any idle moment such flushes can be made for any outcomes. |
| OutboxDrain.WaitsAreShort | src/sprinter/db.py:347-362 | In every run no row is due later than 1024 seconds after the last time a row was scheduled. |
| OutboxDrain.FlushSpends | src/sprinter/engine.py:281-306 | A flush that goes through spends an attempt for every row of its batch. |
| OutboxDrain.BatchExists | src/sprinter/db.py:328-337 | For any table, time and limit there is a batch of the oldest due rows. |
| OutboxDrain.AttemptsArePaidFor | src/sprinter/db.py:339-362 | In every run with crashes, attempts made plus attempts left are at most those left before plus ten per row enqueued. |
| OutboxDrain.QuietAttemptsAreBounded | src/sprinter/db.py:328-362 | While nothing is enqueued, the attempts made never exceed those that were left. |
| OutboxRuns.RunsKeepInv | src/sprinter/db.py:315-362 | In every run with crashes a pending row has 0 attempts, a waiting one 1 to 9, a failed one exactly 10, a sent one 1 to 10, every wait was sat out, and the rows a flush still has to deal with are as it read them. |
| OutboxRuns.InvStep | src/sprinter/engine.py:281-306 | Every enqueue, flush step, crash, restart and purge keeps that row discipline. |
| OutboxRuns.BackoffTimeline | src/sprinter/db.py:347-362 | After k failed deliveries a row is not due before creation plus 2^(k+1) - 2 seconds, and a failed row took ten attempts and at least 1022 seconds. |
| OutboxRuns.WaitsAreDoubling | src/sprinter/db.py:347-362 | In every run a row that waits again is due exactly 2, 4, 8, ... 512 seconds after its last failure, by its attempts, and a pending one from its creation on. |
| OutboxRuns.SettledIsFinal | src/sprinter/db.py:480-486 | In every run a row sent or failed for good is there, as it was, if and only if no purge since had a cut-off after its last change. |
| Outbox.DelayTable | src/sprinter/db.py:350 | The delay after k attempts is 1, 2, 4, ... 1024 seconds, and 1024 from the tenth on. |
| OutboxRuns.DeliveryIsAtLeastOnce | src/sprinter/engine.py:281-306 | A sent row was called for at least once; calls for a row are at most its attempts plus the crashes in the middle of its deliveries, plus the call in progress. |
| Outbox.DelaysNeverDecrease | src/sprinter/db.py:349-351 | Delivery delays never decrease and stay within 1024 seconds, so the cap of 3600 never binds. |
| Outbox.WaitsAreGeometric | src/sprinter/db.py:349-351 | The first k delivery waits add up to 2^(k+1) - 2 seconds, for k up to 10. |
| TeamsLifecycle.EnabledExactlyByLastWord | src/sprinter/db.py:364-424 | Over every history, a destination is enabled exactly when its latest toggle or removal was an enable of its active row; a disable always counts. |
| TeamsLifecycle.DisableHolds | src/sprinter/db.py:416-424 | A disable of a stored row takes effect, and holds until a later enable of its destination while active, whatever is installed, discovered or purged meanwhile. |
| TeamsLifecycle.EnableWorksExactly | src/sprinter/db.py:416-424 | An enable of a stored row takes effect if and only if the row is active. |
| TeamsLifecycle.RemovalHolds | src/sprinter/db.py:397-407 | A removal by an allowed tenant disables its destination until a later enable. |
| TeamsLifecycle.ActivityEffect | src/sprinter/teams/gateway.py:55-86 | What each activity does to the table: a removal deactivates and disables its rows, a discovery refreshes service url, scope and reference and keeps the switch, and any other, or any of a tenant not allowed, does nothing; other rows stay. |
| TeamsLifecycle.RowsLeaveExactly | src/sprinter/db.py:473-479 | A row is deleted exactly by a purge that finds it inactive and not seen since the cut-off. |
| TeamsLifecycle.OnlyTogglesAndRemovalsSwitch | src/sprinter/teams/gateway.py:55-86 | Discovery, reinstalling and purging never change whether a destination is enabled; a removal disables it and an effective toggle sets it. |
| TeamsLifecycle.HistoriesKeepInv | src/sprinter/db.py:364-424 | Over every history there is at most one row per tenant and conversation, and enabled implies active. |
| Gateway.TeamsGateway.HandleLifecycle | src/sprinter/teams/gateway.py:55-86 | Removal exactly on an installation update with action remove, discovery exactly on any other installation update or a conversation update, of an allowed tenant; a discovery refreshes the row and reports its switch, an ignored activity is audited, and neither that nor a refusal changes the table. |
| Gateway.TeamsGateway.DiscoveryKeepsSwitch | src/sprinter/db.py:364-395 | A discovered row is enabled exactly when the destination was enabled before. |
| RateLimit.SlidingWindowRateLimiter.Check | src/sprinter/auth.py:47-57 | Accepts exactly when fewer than the limit of the accepted calls of the key in the whole history lie in the closed interval of the last 60 seconds; the queue then is exactly the accepted calls since the cut-off, other keys keep theirs. |
| RateLimit.SlidingWindowRateLimiter.WindowsAreBounded | src/sprinter/auth.py:41-57 | At any time no closed 60-second window, wherever it starts, holds more than the limit of accepted calls of a key. |
| RateLimit.SlidingWindowRateLimiter.constructor | src/sprinter/auth.py:42-45 | A new limiter has the configured limit, an empty history and no queues. |
| RateLimit.NoWindowExceedsLimit | src/sprinter/auth.py:47-57 | The same bound for every ordered history in which each call was decided by its own look-back. |
| RateLimit.Prune | src/sprinter/auth.py:52-53 | Popping from the left leaves exactly the entries not older than the cut-off. |
| RateLimit.QueueHoldsTheWindow | src/sprinter/auth.py:49-53 | The part of a queue since the cut-off is the accepted calls of the whole history since the cut-off. |
| RateLimit.RecordedCallKeepsMatch | src/sprinter/auth.py:54-57 | Recording a call and its queue keeps every queue in agreement with the longer history. |
| RateLimit.AcceptedNarrows | src/sprinter/auth.py:52-53 | Filtering the accepted calls by an early and then a later cut-off is filtering once by the later one. |
| Json.RedactionsCompose | src/sprinter/engine.py:19-27 | Redacting any JSON tree with one key set and then another is redacting once with their union. |
| Json.RedactionIsIdempotentAndOrderFree | src/sprinter/engine.py:19-27 | Redaction is idempotent, and two redactions commute. |
| Json.MasksExactly | src/sprinter/engine.py:19-27 | A value is the redaction of a raw one if and only if its places say so: the mask at the first listed key of any path that leads somewhere, nothing beyond it, and the same keys, length or scalar along every other path. |
| Json.RedactionMasksListedPlaces | src/sprinter/engine.py:22-25 | At the first listed key of any path the redacted value holds the mask exactly where the original holds anything, and nothing lies beyond it. |
| Json.RedactionKeepsUnlistedPlaces | src/sprinter/engine.py:19-27 | Along any path without a listed key the redacted value has a place exactly where the original has one, with the same keys, length or scalar. |
| SplunkQuery.TwoReplacesAreOnePass | src/sprinter/engine.py:134-136 | The two successive replacements equal the one-pass escape, whose length is the input plus one per escaped character. |
| SplunkQuery.EscapeReadsBack | src/sprinter/engine.py:134-136 | Reading a quoted text from its opening quote gives back any escaped input and stops at the closing quote. |
| SplunkQuery.QuotesAreEscaped | src/sprinter/engine.py:134-136 | Every quote in an escaped text stands behind an odd run of backslashes. |
| SplunkQuery.LiteralIsEscape | src/sprinter/engine.py:134-136 | The cut at 512 is the identity if and only if the value and its escapes fit, which every schema-sized value does. |
| SplunkQuery.QuotedLiteralReadsBack | src/sprinter/schemas.py:8-16 | A value is read back unchanged, whatever follows, if and only if it and its escapes fit in 512 characters; every selector value the schema allows does. |
| SplunkQuery.ReadingTakesRoom | src/sprinter/engine.py:134-136 | What a reader recovers never took less room than its escaped form. |
| SplunkQuery.RunSearchReadsBack | src/sprinter/engine.py:105-108 | The quoted parts of the text built for a run search read back as the run id and, where one is given, the workflow, with nothing left over. |
| SplunkQuery.ResultSearchReadsBack | src/sprinter/engine.py:110-111 | The quoted part of the text built for a result search reads back as the result id, with nothing left over. |
| SplunkQuery.LatestSearchIsPlain | src/sprinter/engine.py:112-114 | A search for the latest results names the index alone. |
| SearchText.CleanIsSqueeze | src/sprinter/integrations/splunk.py:31 | Splitting a text without outer white space into words and joining them is turning every run of white space into one space. |
| SearchText.SqueezeIsIdentity | src/sprinter/integrations/splunk.py:31 | The cleaning leaves a text as it is if and only if its only white space is single spaces, each by itself. |
| SearchText.SentRunSearchReadsBack | src/sprinter/integrations/splunk.py:31 | In the cleaned text that is sent, the run and the workflow read back with every run of white space turned into one space. |
| SearchText.SentResultSearchReadsBack | src/sprinter/integrations/splunk.py:31 | In the cleaned text that is sent, the result id reads back so. |
| SearchText.SentRunIsAskedExactly | src/sprinter/integrations/splunk.py:31 | The run asked for is the run given if and only if the only white space in its id is single spaces, each by itself. |
| SearchText.SentResultIsAskedExactly | src/sprinter/integrations/splunk.py:31 | The result asked for is the result given under the same condition. |
| SplunkQuery.CutCanSplitAnEscape | src/sprinter/engine.py:136 | A value of 512 characters whose literal swallows the closing quote. |
| Evidence.Normalise | src/sprinter/engine.py:138-152 | The append loop yields each item normalised at its own position. |
| Evidence.NumberedIdsAreDistinct | src/sprinter/engine.py:146 | The ids e1 to en are pairwise distinct, in input order. |
| Evidence.SearchEvidenceIsShown | src/sprinter/engine.py:116-132 | The evidence of a search is exactly its first rows within the limit, in order: id, kind, link, the first of three fields as title, and the row masked at every listed key and nowhere else. |
| Evidence.SuppliedEvidenceIsShown | src/sprinter/engine.py:96-103 | The evidence without a search is exactly the first supplied items within the limit, in order: id, texts within 32 and 256 characters or their defaults, and the payload masked at every listed key and nowhere else. |
| Evidence.NoEvidenceIsAnError | src/sprinter/engine.py:99-104 | Without a search and without supplied items there is the stated error, and a caught search error is passed on; nothing else is an error. |
| Evidence.CollectedIsPresentable | src/sprinter/engine.py:138-152 | Every collected item has a kind of 1 to 32 and a title of 1 to 256 characters. |
| Evidence.DecimalReadsBack | src/sprinter/engine.py:146 | A number is printed in decimal digits without a leading zero, and reads back. |
| Evidence.DecimalIsInjective | src/sprinter/engine.py:146 | Different numbers print differently. |
| Evidence.CollectedIsNumbered | src/sprinter/engine.py:96-132 | On the supplied and on the Splunk path the evidence is numbered e1 to en for n within the row limit. |
| Evidence.Fetch | src/sprinter/engine.py:96-132 | Collects from the search when configured and from the summary otherwise, with the errors of both that a round catches; any evidence is numbered within the row limit. |
| Evidence.IdentityHolds | src/sprinter/engine.py:236-244 | An identity holds exactly the named fields that have a value, with their values, or title and kind where none has. |
| Evidence.MaterialsAgreeExactly | src/sprinter/engine.py:219-251 | Two reviews have equal finding-key material exactly when selector type and source agree and their evidence identifies the same things position by position. |
| Evidence.IdentityDecides | src/sprinter/engine.py:236-244 | Two items have equal identities exactly when they agree on all stable fields with a value, or neither has one and they agree on title and kind. |
| Evidence.OtherFieldsAreIrrelevant | src/sprinter/engine.py:221-243 | Changing or adding any payload field but the twelve named ones leaves the material as it was. |
| Evidence.IdentityFieldsDecide | src/sprinter/engine.py:221-243 | Giving any of the twelve named fields another value makes another material. |
| Evidence.FindingMaterial | src/sprinter/engine.py:235-249 | The append loop builds the identities position by position into the material. |
| Tokens.VerifyAcceptsExactly | src/sprinter/config.py:64-70 | A token is accepted by a verifier if and only if that is scrypt_16384_8_1, some 16-byte salt and the digest of the token under it, in hexadecimal. |
| Tokens.VerifierIsMade | src/sprinter/config.py:49-61 | A verifier is made for a given 16-byte salt, or for a random one when none is given; any other length is an error. |
| Tokens.VerifierFormExactly | src/sprinter/config.py:18 | What has the form of a verifier is exactly what is printed for some salt and digest. |
| Tokens.HexDigits | src/sprinter/config.py:61 | Every byte is printed as two lower-case digits, the high half first. |
| Tokens.PrintedVerifierAccepts | src/sprinter/config.py:49-70 | A printed verifier accepts its own token, and another token if and only if the digests under its salt are equal. |
| Tokens.HexIsInjective | src/sprinter/config.py:61 | Different byte strings have different hexadecimal forms. |
| Tokens.Authenticate | src/sprinter/auth.py:31-38 | A token is authenticated as the last record whose verifier was issued for it, and as none exactly when there is none. |
| Tokens.LastAccepted | src/sprinter/auth.py:31-38 | The loop returns the last accepted record. |
| TokenRecords.ParseInvertsPrint | docs/setup.md:50-54 | Parsing the documented format gives back every list of well-formed records with distinct names, with scopes in any order. |
| TokenRecords.ExpressibleLists | src/sprinter/config.py:73-93 | The lists that some configuration text parses to are exactly those with distinct plain names, verifiers of the stated form, and at least one of the eight scopes each. |
| TokenRecords.ParseYieldsGoodRecords | src/sprinter/config.py:73-93 | A successful parse yields records with distinct non-empty names, valid verifiers and non-empty known scopes. |
| TokenRecords.StrippedSplits | src/sprinter/config.py:76 | The parts of a list are taken one by one, in their order. |
| TokenRecords.StrippedOne | src/sprinter/config.py:76 | A part counts stripped of its outer white space, unless nothing is left. |
| TokenRecords.ParseList | src/sprinter/config.py:76-93 | The loop with its growing set of names accepts and rejects as the recursive specification does, with the same error. |
| TokenRecords.ParseTokenRecords | src/sprinter/config.py:73-93 | The parser splits, strips, drops empty parts and parses the rest in order. |
| Text.StripExactly | src/sprinter/config.py:76 | Stripping takes away all white space at both ends and nothing else. |
| Text.SplitUndoesJoin | src/sprinter/config.py:76 | Splitting at a separator undoes joining parts without it. |
| Database.Database.CreateJob | src/sprinter/db.py:134-183 | A new key adds one pending job without attempts, due at once; a known key is answered with its row if every stored column agrees and with a conflict otherwise, the job table unchanged. |
| Database.Database.ClaimJob | src/sprinter/db.py:189-219 | Claims an oldest due pending or waiting row: running, one attempt more, claimed now; finds none only when none is due. |
| Database.Database.RecoverAbandonedJobs | src/sprinter/db.py:221-229 | Puts exactly the running rows claimed more than 900 seconds ago back to waiting, due at once, leaves every other, and returns their number. |
| Database.Database.AddEvidence | src/sprinter/db.py:256-267 | The loop stores one row per item, with the item in its columns. |
| Database.Database.CompleteJob | src/sprinter/db.py:246-313 | In one step: one evidence row per item with its columns and expiry, the decision, the finding counted and pointed at it, the job succeeded with the result; without the job row nothing changes. |
| Database.Database.GuardedClaim | src/sprinter/db.py:203-219 | The guarded update wins exactly when the row is still pending or waiting, and changes nothing otherwise. |
| Database.Database.PendingDeliveries | src/sprinter/db.py:328-337 | Returns distinct pending or waiting rows that are due, oldest first, at most the limit, leaving one out only when the batch is full of rows no younger. |
| Database.Database.DeliverySucceeded | src/sprinter/db.py:339-345 | Marks one row sent with one attempt more and no error and leaves the others. |
| Database.Database.DeliveryFailed | src/sprinter/db.py:347-362 | Fails the row for good at its maximum and otherwise reschedules it after 2, 4, 8, ... 1024 seconds by the attempts, with the error cut to 4000 characters, leaving the others. |
| Database.Database.UpsertInstallation | src/sprinter/db.py:364-395 | Refreshes and reactivates the row of a known destination without touching its switch or discovery time, or adds a disabled one, leaving the others. |
| Database.Database.DeactivateInstallation | src/sprinter/db.py:397-407 | Deactivates and disables the rows of the destination and no other, and reports whether there was one. |
| Database.Database.SetInstallationEnabled | src/sprinter/db.py:416-424 | Refuses exactly unknown rows and the enabling of inactive ones, and otherwise sets the switch of that row. |
| Database.Database.PurgeReviews | src/sprinter/db.py:459-471 | Deletes exactly the expired evidence and the outlived jobs, with everything that hangs on them, and counts what it deletes by itself. |
| Database.Database.Purge | src/sprinter/db.py:459-504 | At one reading of the clock deletes exactly the rows whose time is over from jobs, evidence, audit events, installations and deliveries, and keeps its time and the number of rows of each. |
| Database.Database.EnabledInstallations | src/sprinter/db.py:409-414 | Returns the enabled and active destinations, each once, in the order of their discovery. |
| Database.Database.Audit | src/sprinter/db.py:120-132 | Adds one audit row with the actor clipped, that expires after the retention period. |
| Engine.Container.SubmitReview | src/sprinter/engine.py:59-74 | Serial submission: a conflict exactly when the stored form differs, jobs unchanged unless the key is new; the stored form has the source cut, the smaller limit, and the summary masked at every listed key and nowhere else; every accepted submission is audited, a conflict is not. |
| Engine.Container.Audit | src/sprinter/engine.py:45-57 | Stores one audit event and forwards it with its id when configured, both masked at every listed key and nowhere else. |
| Engine.Container.SearchIsShown | src/sprinter/engine.py:116-132 | A round shows the model the first rows of its search, masked at every listed key and nowhere else. |
| Engine.Container.SummaryIsShown | src/sprinter/engine.py:96-103 | Without a search it shows the first items that came with the request, masked so. |
| Engine.Container.Settle | src/sprinter/engine.py:188-209 | Commits or retries as the checks on the reply decide; a commit stands with the verdict and model replied, and each stored evidence row holds the item the model was shown. |
| Engine.Container.Report | src/sprinter/engine.py:199-210 | A success adds one pending card per enabled active destination; either end stores one audit event of the stated name with the job, decision and model or the job and error, forwarded where configured. |
| Engine.Container.AudienceExactly | src/sprinter/db.py:409-414 | The audience of cards is exactly the stored destinations whose latest word was an enable, and nobody when Teams is off. |
| Engine.Container.PermittedExactly | src/sprinter/engine.py:285-300 | A card is sent exactly when Teams is configured and the latest word of its destination was an enable; an audit event exactly when forwarding is configured; nothing else ever. |
| Engine.Container.ProcessNextJob | src/sprinter/engine.py:184-217 | A round, with the API serving while the model is asked: it claims an oldest due job and answers the claim by a commit exactly when evidence came, a reply came and it cites only collected ids, under the digest of that evidence, and by a retry otherwise. |
| Engine.Container.Conclude | src/sprinter/engine.py:188-217 | What follows the claim: commit or retry, then the announcements. |
| Engine.Container.Judge | src/sprinter/engine.py:189-194 | Decides whether the reply may be committed, and names the error otherwise. |
| Engine.Container.BreakReport | src/sprinter/engine.py:197-204 | A crash between the commit and the end of its announcements leaves the decision standing with only the first cards out and no audit event; no later round announces it. |
| Engine.Container.EnqueueNotifications | src/sprinter/engine.py:253-279 | One pending delivery of the card per enabled active destination, each once, in the order of their discovery; none when Teams is off. |
| Engine.Container.ClaimLogged | src/sprinter/engine.py:185-187 | The claim is one claim event of the run, and leaves the worker holding the row. |
| Engine.Container.FailLogged | src/sprinter/engine.py:206-209 | The retry is one failure event of the run, with the delay doubling in the attempts. |
| Engine.Container.CompleteLogged | src/sprinter/engine.py:195-198 | The commit is one completion event of the run. |
| Engine.Container.FlushOutbox | src/sprinter/engine.py:281-306 | With the API at work before every turn and during every call: each row of an oldest-first batch has exactly one turn, all other rows there were stay as they are, calls are made only for rows that can be sent, every card sent is on record, and sent plus failed is the batch size. |
| Engine.Container.FlushTurns | src/sprinter/engine.py:281-305 | The first turns of a flush: each row dealt with had exactly one turn, the others none. |
| Engine.Container.DeliverOne | src/sprinter/engine.py:285-305 | A call is made exactly when permitted at that moment, and put on record; the row is sent exactly when the call went well, and any error is noted as a failed attempt. |
| Engine.Container.LogCard | src/sprinter/engine.py:287-296 | The record of sent cards keeps the invariant of the engine: every card it ever sent went to a destination whose latest effective word, in the history up to then, was an administrator's enable. |
| Engine.Container.CardsGoToEnabledDestinations | src/sprinter/engine.py:287-296 | A destination that is active and enabled is one whose latest effective word in the whole history was an administrator's enable. |
| Engine.Container.ReadBatch | src/sprinter/engine.py:284 | Reads a batch of at most 25 oldest due rows. |
| Engine.Container.ReceiveActivity | src/sprinter/api.py:224-242 | A lifecycle activity is one event of the history; a discovery reports the destination enabled exactly when the latest word was an enable; a refused tenant is audited; nothing happens when Teams is off. |
| Engine.Container.UpdateInstallation | src/sprinter/api.py:251-268 | The administrator's switch is one toggle event of the history, refused exactly for unknown rows and for enabling inactive ones; a change is audited and forwarded, a refusal changes nothing. |
| Engine.Container.Serve | src/sprinter/api.py:224-268 | Every submission has its key in the job table afterwards and every activity and switch is in the history of destinations; the job rows and deliveries there were, the claim in hand and the counts of claims and flushes stay as they are. |
| Engine.Container.BreakRound | src/sprinter/engine.py:184-217 | A crash with the claim in hand leaves the row running with no worker; one after the commit or retry leaves it standing and its announcements cut off at that point. |
| Engine.Container.BreakFlush | src/sprinter/engine.py:281-306 | A crash after any number of turns, with or without a call made, leaves valid logs and the job rows there were. |
| Engine.Container.StartUp | src/sprinter/worker.py:35 | Start-up recovers exactly the abandoned claims. |
| Engine.Container.PurgeLogged | src/sprinter/db.py:459-504 | A purge is one event in each of the three logs, at the configured cut-offs. |
| Engine.RunWorker | src/sprinter/worker.py:15-71 | For any list of passes, with API calls before and during each round, before each turn and during each call of a flush, and a crash with the claim in hand, among the announcements, or anywhere in the flush, the engine's logs stay valid runs; a round is run exactly in the passes whose latest probe was good. They grow by one claim per round that found a job, one flush per pass and the scheduled purges, a pass that crashed adding at most one claim and one flush. A failed first probe changes nothing. |
| Engine.RunPass | src/sprinter/worker.py:57-66 | One pass: a round when ready, one flush, a purge when scheduled, or a crash on the way. |
| Engine.ProbesKeepUp | src/sprinter/worker.py:43-54 | The first pass probes the model, and at any pass the latest probe is younger than the interval or the pass's own. |
| Engine.PurgesAreDaily | src/sprinter/worker.py:64-66 | Purges are at least a day apart, the first pass makes one, and at any pass the latest is less than a day old. |

## Left out

- SQLAlchemy, SQLite pragmas, migrations, file modes, and the text encoding of timestamps: purge cut-offs are compared as times, not as text.
- Heartbeat and readiness.
- Columns that no modelled step reads back: the creation time of decisions and audit events, evidence external ids as stored columns.
- The Pi subprocess, the prompt text and the Adaptive Card layout: a reply and a card are inputs of a round.
- HTTP clients and query guards for Splunk, ADX, Confluence and Sigma: only the row cap and the white-space cleaning of the Splunk search are modelled. The inputs and results of external calls are parameters.
- The time range a search asks for.
- FastAPI routes other than submission, Teams events and the switch of an installation; scope checks, the body limit, logging, settings validation and the scripts.
- Teams token validation and message sending: a send is an event of the outbox run. The several reasons why a delivery is not attempted share one message.
- Signal handling and the pause between passes: a worker run is a finite list of passes.
- Engine.RunWorker: API calls are not served between two announcements of one round. The run machine (`OutboxRuns`) allows an enqueue at any point, and its theorems cover it.
- RateLimit.SlidingWindowRateLimiter.Check: the lock is not modelled; calls are taken in the order in which they hold it, with clock readings in that order.
- Unicode case folding, encodings and Python's printing of numbers: text is a sequence of characters.

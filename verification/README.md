# Verified model of the support assistant's core protocols

The repository is a retrieval-augmented support assistant: a Self-RAG question-answering graph, a
multi-turn session around it, durable document-ingestion jobs, and the caches and budgets that
protect them. This project models the parts whose correctness depends on interleavings, retries or
arithmetic, and proves what they guarantee over whole runs. `dafny verify dfyconfig.toml` checks
everything.

| files | component |
|---|---|
| `IngestionJobs`, `IngestionRuns` | the job table as conditional updates, the lease heartbeat, the reaper; theorems over every run of any number of workers, reapers and uploaders |
| `ConversationSession`, `SessionRuns` | the session monitor and every interleaving of turns, timeouts, orphan workers and clears |
| `SelfRag`, `SelfRagRuns`, `SelfRagProvenance`, `SelfRagRetries`, `SelfRagWitness` | the graph's nodes and edges; what an automatic answer has earned, exactly which replies of the models lead to one, termination with an exact bound, independence of retries |
| `Grounding`, `DocGrade`, `JudgePolicy` | citation binding, document grading, judge selection |
| `FallbackCache`, `GraphCache`, `OrderedDict` | the TTL/LRU fallback cache and the identity-keyed graph cache |
| `RedisBackoff`, `RequestBudget` | connection backoff during an outage; the shared LLM budget with separate check and charge |
| `Agreement`, `Readiness` | annotator agreement, cost matrix, and the calibration readiness gate |

Objects whose methods update fields (job store, heartbeat, session, caches, connection, budget) are
classes whose methods are proved equal to a step function of their module (usually `Next`) and say
besides, field by field, what the new state is; the loops of the grounding, grading and calibration
code are loops proved against a recursive or set-based specification; graph nodes, which return new
records, are functions. Theorems about runs are stated on the step functions. Everything the outside
decides (LLM replies, retrieved documents, failures, clock values, scheduling) is an unconstrained
input of the step that uses it.

## What turned out not to hold as one might expect

Each with a run or input that shows it and the exact condition under which it does hold.

- A terminal row need not stay terminal, and a sweep may clear a result while the index columns keep
  naming a collection (`HelpersBreakTerminalRows`). A row stays terminal exactly when nobody marks the
  job running afterwards (`TerminalForeverIff`), and keeps its record exactly when no helper call
  overwrites it (`FrozenIff`). Columns and result agree exactly when every sweep that found the row
  stale with something published was followed by a completion (`MirrorHoldsIff`); they always agree if
  the job is only ever marked running while unfinished (`MirrorHolds`). The one caller of that helper,
  api/routers/upload.py:729, keeps to this: it marks the row it has just created, which has no task id.
  The witness run is a run of the job functions, which do not enforce it.
- The version stamped into an answer identifies the session state exactly when no orphan worker is
  left or the answer itself came from the wall-budget path (`StampHoldsIff`): an orphan's
  pending-action write without a turn attaches to whichever turn is active. One timeout and one
  ordinary turn reach such a state (`StampFailsAfterTimeout`); without a timeout no client ever sees one
  (`StampHoldsWithoutTimeouts`). The version at an idle moment always identifies the state
  (`VersionDeterminesState`), and the history part of a stamp always holds.
- A history bound of zero keeps the whole history (`HistoryWindowIff`).
- An idempotency hash that is the empty string is unique in the table but re-raises the integrity
  error instead of replaying (`LaterCallers`).
- The compiled-graph key omits the relevance and factuality floors, so a hit may carry older floors
  (`FloorsMayBeStale`). A hit has given floors exactly when the latest build of its key was made under
  them (`HitFloorsIff`), and always when every request for the key reads the same (`SteadyFloors`).
- In a batch grade an index of 0 is falsy and means the item's position. Without indices the k-th item
  grades the k-th document, and two batches agree exactly when they grade alike in order
  (`PositionsDecide`). With own indices and positions mixed, or indices repeated, the last item that
  names a document decides, and two batches agree exactly when those items do (`BatchesAgreeIff`).
- Calibration readiness accepts any non-blank gold label: for any floors that can be met at all there
  are ready sets of which the cost matrix skips every row (`GoldMayBeUnusable`). Nothing is skipped
  exactly when every row's two labels normalise (`NothingSkippedIff`).
- A reported kappa of 1 may hide a disagreement, because it is rounded to six digits. For label sets of
  n pairs it means agreement exactly when n is below four million (`ReportedOneMeansAgreementIff`); from
  there on one disagreement among evenly split labels is hidden (`OneOddHides`). Table by table, kappa
  is reported as 1 exactly when no pair disagrees or the code divides and the disagreement is at most a
  two-millionth of the chance-corrected denominator (`ReportedOneIff`).

## Model

| member | source | states |
|---|---|---|
| `IngestionJobs.JobStore.CreateOrReuseJob` | ingestion/jobs.py:281-341 | create, replay, conflict, invalid argument or integrity failure, and the exact new table; nothing but a creation changes it |
| `IngestionJobs.JobStore.MarkSourceReady` | ingestion/jobs.py:344-391 | sets the time once and only while queued; returns the queued ready row on a repeat, nothing otherwise |
| `IngestionJobs.JobStore.SetCeleryTaskId` | ingestion/jobs.py:394-412 | writes the task id of the tenant's row whatever its status and returns the row, or nothing |
| `IngestionJobs.JobStore.ClaimRunning` | ingestion/jobs.py:808-844 | succeeds exactly on a queued row of the tenant and leaves it leased with the fresh token |
| `IngestionJobs.JobStore.ExtendLease` | ingestion/jobs.py:847-875 | succeeds exactly for the token holder of a running row, expired lease or not |
| `IngestionJobs.JobStore.MarkCompleted` | ingestion/jobs.py:878-912 | succeeds exactly for the lease holder; clears the lease; each index column is its own published field, trimmed, or unset when that is missing or blank, and the generation is carried over |
| `IngestionJobs.JobStore.MarkFailed` | ingestion/jobs.py:915-945 | succeeds exactly for the lease holder; clears the lease |
| `IngestionJobs.JobStore.MarkJobRunning` | ingestion/jobs.py:415-434 | unconditional: overwrites any status of the tenant's row and returns the row, or nothing |
| `IngestionJobs.JobStore.MarkJobCompleted` | ingestion/jobs.py:437-464 | unconditional completion, keeping an earlier start time and binding the same columns; returns the row, or nothing |
| `IngestionJobs.JobStore.MarkJobFailed` | ingestion/jobs.py:467-489 | unconditional failure, keeping an earlier start time; returns the row, or nothing |
| `IngestionJobs.JobStore.ReapStaleJobs` | ingestion/liveness.py:309-383 | the three updates in sequence are one pass over the table as it was; the counts add up to the rows that became failed |
| `IngestionJobs.PassesAreOnePass` | ingestion/liveness.py:328-379 | sweep refinement: three passes equal the simultaneous one |
| `IngestionJobs.ReapedIsUnion` | ingestion/liveness.py:328-383 | the rows that became failed are the union of the three selections, and the sizes add up |
| `IngestionJobs.CompletionBinds` | ingestion/jobs.py:143-183 | after either kind of completion active and previous collection are their own trimmed fields, unset when missing or blank, the generation is carried over, and without a publication all three are unset |
| `IngestionJobs.StripTrims` | ingestion/jobs.py:168-172 | trimming removes only white space, from the two ends, and leaves none there |
| `IngestionJobs.JobLeaseHeartbeat.TickOnce` | ingestion/liveness.py:201-222 | true only when the lease was extended; a lost lease or failing database sets the flag for good |
| `IngestionJobs.JobLeaseHeartbeat.Loop` | ingestion/liveness.py:224-250 | whatever other callers commit between ticks, the background loop stops at the first false tick and issues no statement after it |
| `IngestionRuns.ClaimedAtMostOnce` | ingestion/jobs.py:808-844 | no job is claimed twice, unconditional helpers included |
| `IngestionRuns.RowsPersist` | ingestion/jobs.py:281-489 | rows never disappear, keep tenant, key, fingerprint and creation time, and never return to the queue |
| `IngestionRuns.AlwaysPaired` | ingestion/liveness.py:268-282 | a lease token exists exactly when an expiry does, under every statement |
| `IngestionRuns.AlwaysOrderly` | ingestion/jobs.py:808-945 | for a job no helper is called for: token exactly while running, expiry one lease after the heartbeat, result only when completed, columns mirror it |
| `IngestionRuns.TerminalForeverIff` | ingestion/jobs.py:415-434 | a terminal row stays terminal exactly when nobody marks that job running afterwards |
| `IngestionRuns.FrozenIff` | ingestion/jobs.py:415-489 | a terminal row keeps its record, the task id apart, exactly when no later helper call overwrites it |
| `IngestionRuns.TerminalIsFrozen` | ingestion/jobs.py:878-945 | a terminal row of a job the helpers are done with changes no column but the task id |
| `IngestionRuns.FinishedOncePerStart` | ingestion/jobs.py:878-945 | in any run a job finishes a second time only if somebody marked it running in between |
| `IngestionRuns.OldTokenIsPowerless` | ingestion/jobs.py:847-945 | once lost, a token changes nothing for ever |
| `IngestionRuns.TokenComesFromItsClaim` | ingestion/jobs.py:816-844 | a row carries a token only if an earlier successful claim of that job issued it |
| `IngestionRuns.HelpersBreakTerminalRows` | ingestion/jobs.py:415-489 | a concrete run in which a completed row fails and its index columns outlive its result |
| `IngestionRuns.SweepKeepsMirrorIff` | ingestion/liveness.py:268-282 | a sweep keeps columns and result in step exactly when the row is not stale or nothing was published |
| `IngestionRuns.MirrorHoldsIff` | ingestion/jobs.py:437-489 | in any run columns and result agree exactly when every sweep of a stale published row was followed by a completion |
| `IngestionRuns.MirrorHolds` | api/routers/upload.py:727-768 | they always agree if the job is only marked running while unfinished, as the upload handler does |
| `IngestionRuns.SweepLeavesNothingStale` | ingestion/liveness.py:328-379 | a sweep changes exactly the stale rows with a task id, leaves every other such row younger than its cutoff, and never touches rows without one |
| `IngestionRuns.SweepIsIdempotent` | ingestion/liveness.py:328-379 | a second sweep at the same time changes nothing |
| `IngestionRuns.TimelyWorkerSucceeds` | ingestion/liveness.py:90-95 | with heartbeat gaps below the lease, every extension and the final completion or failure succeed in every interleaving with sweeps and other callers, unless a helper ends that very job |
| `IngestionRuns.AbandonedJobIsReaped` | ingestion/liveness.py:328-379 | any job with a task id that nobody claims, extends or marks running is terminal one sweep period after its deadline, however quiet the table |
| `IngestionRuns.SilentWorkerIsReaped` | ingestion/liveness.py:345-357 | a silent worker's row is terminal one lease plus one sweep period after its last claim or heartbeat |
| `IngestionRuns.UnclaimedJobIsReaped` | ingestion/liveness.py:333-343 | a queued job nobody claims is terminal one queue cutoff plus one sweep period after its creation |
| `IngestionRuns.LegacyJobIsReaped` | ingestion/liveness.py:359-379 | a job marked running without a lease is terminal one legacy cutoff plus one sweep period later |
| `IngestionRuns.AlwaysUnique` | db/models.py:343-351 | at most one row per tenant and key hash in every run |
| `IngestionRuns.KeyFindsItsRow` | ingestion/jobs.py:281-341 | from its creation on, a keyed row is what the lookup finds, for ever |
| `IngestionRuns.SplitCallIsAtomic` | ingestion/jobs.py:281-341 | insert and re-read are separate transactions, yet the call ends as if it ran atomically at the re-read |
| `IngestionRuns.LaterCallers` | ingestion/jobs.py:281-341 | later callers with the key get that job when fingerprints match and a conflict when not; the empty hash fails |
| `IngestionRuns.OneCreatorPerKey` | ingestion/jobs.py:281-341 | after one valid call with a key, exactly one call of the run has created its row |
| `IngestionRuns.UnkeyedCallsStayApart` | ingestion/jobs.py:281-341 | two calls without a key make two rows that both stay |
| `ConversationSession.ConversationSession.AcquireTurn` | agent/graph.py:3342-3357 | blocks while busy, reports a version conflict, or starts the next turn |
| `ConversationSession.ConversationSession.ReleaseTurn` | agent/graph.py:3359-3368 | frees the session, clears its own active turn, invalidates only its own epoch |
| `ConversationSession.ConversationSession.AppendHistory` | agent/graph.py:3373-3396 | appends the question as the user and the answer as the assistant unless the turn is stale, then keeps the window |
| `ConversationSession.ConversationSession.SetPendingAction` | agent/graph.py:3398-3418 | writes exactly for a current turn; without a turn, for whichever turn is active |
| `ConversationSession.ConversationSession.TakePendingAction` | agent/graph.py:3426-3436 | returns and clears the action under the same rule |
| `ConversationSession.ConversationSession.InvalidateTimedOut` | agent/graph.py:4106-4113 | the wall-budget path moves the epoch on and drops the pending action |
| `ConversationSession.ConversationSession.ClearSession` | agent/graph.py:4125-4133 | waits for the turn, then empties the session under a new version |
| `SessionRuns.AlwaysInv` | agent/graph.py:3342-3396 | ownership, turn order and the history window in every interleaving |
| `SessionRuns.VersionDeterminesState` | agent/graph.py:3342-3357 | a turn acquired with an expected version starts from the state of every idle moment of that version |
| `SessionRuns.StampHoldsIff` | agent/graph.py:4106-4121 | the stamped version identifies the state exactly when no orphan is left or the answer was the timeout |
| `SessionRuns.StampHoldsWithoutTimeouts` | agent/graph.py:4106-4121 | and therefore always in a session none of whose calls ran out of its wall budget |
| `SessionRuns.StampFailsAfterTimeout` | agent/graph.py:3406-3409 | a timeout followed by an ordinary turn reaches a stamp that does not identify the state |
| `SessionRuns.StampedHistoryHolds` | agent/graph.py:4106-4121 | the history part of a stamp needs no condition |
| `SessionRuns.TurnsExclude` | agent/graph.py:3342-3368 | two turns never overlap and turn numbers strictly increase |
| `SessionRuns.OnePairPerTurn` | agent/graph.py:4106-4123 | each turn logs at most one question/answer pair |
| `SessionRuns.HistoryWindowIff` | agent/graph.py:3394-3396 | the history is the last `2 * max_history` messages of the log since the last clear exactly when the bound is not zero or nothing was logged |
| `SessionRuns.HistoryShape` | agent/graph.py:3373-3396 | even length, alternating roles, bounded for a positive bound |
| `SessionRuns.LogAsMessages` | agent/graph.py:3393-3394 | message 2i of the flattened log is question i from the user, message 2i+1 answer i from the assistant |
| `SessionRuns.HistoryFromTheEnd` | agent/graph.py:3393-3396 | in any run the i-th latest stored pair is the i-th latest logged question from the user and its answer from the assistant |
| `SessionRuns.AnswerIsLogged` | agent/graph.py:4106-4123 | every turn that answers, the timeout answer included, logs its own question and answer |
| `SessionRuns.OrphanNeedsTurnlessWrite` | agent/graph.py:3406-3417 | an orphan that names its turn is always discarded; one that does not can only attach to a later active turn |
| `SessionRuns.TimeoutDropsPending` | agent/graph.py:4106-4113 | after a timeout no pending action survives, whatever the orphan wrote |
| `SelfRagRuns.AutoIsEarned` | agent/graph.py:2490-2523 | every run that ends in auto: not simple, judge ok and independent if required, all floors met, at least two graded documents, all retrieved in the same iteration, a non-empty untruncated claim list, every claim supported and bound to cited documents, factuality 100, no injection marker, PII redacted |
| `SelfRagRuns.ScoredFacts` | agent/graph.py:2128-2155 | verified after both overrides means every claim is grounded and none was cut off |
| `SelfRagRuns.VerifyGivesFacts` | agent/graph.py:1909-2165 | a check that says verified either has no claims and scores 0 or grounds all its claims, as recorded, in this answer and these documents (`SelfRagProvenance` ties the record to the verifier) |
| `SelfRagRuns.AutoDecisionIsEarned` | agent/graph.py:2490-2523 | verified without claims never decides auto, because the knowledge gap was recomputed |
| `SelfRagRuns.SafetyKeepsEarned` | agent/response_safety.py:208-254 | what leaves the safety node as auto was earned and is cleared |
| `SelfRagRuns.NextKeepsInv` | agent/graph.py:2832-2892 | the whole-pipeline invariant is kept by every node, edge and failure |
| `SelfRagRuns.SimpleNeverRetriesNorAutos` | agent/graph.py:2510-2521 | a simple question never enters the retry loop and never ends in auto |
| `SelfRagRuns.BudgetDecreases` | agent/graph.py:2654-2706 | the measure (retries left, node rank) decreases on every step |
| `SelfRagRuns.StopsWithinBound` | agent/graph.py:2832-2892 | every run ends within `7 * max_iterations + 11` nodes |
| `SelfRagRuns.GenerationBound` | agent/graph.py:2579-2583 | at most `max_iterations + 1` answers are generated |
| `SelfRagRuns.EndsRouted` | agent/graph.py:2654-2706 | a finished run is auto, human, escalated or failed, with an error in the last two and no other |
| `SelfRagRuns.FailedIffSafetyRaised` | agent/graph.py:2643-2646 | a run ends as failed past `handle_error` exactly when its safety node raised |
| `SelfRagProvenance.AutoIffGranted` | agent/graph.py:2832-2892 | a run ends in auto exactly when one pass of it, from retrieval to log without a failing node, got replies that let the answer through: text generated, one to ten extracted lines, each supported by the verifier and grounded in a cited graded document, two graded documents, a judge that may judge and scores above the floors, no gap phrase, no injection marker |
| `SelfRagProvenance.AutoIsShown` | agent/graph.py:1909-2370 | and the final record shows that pass's replies: retrieved and kept documents, the generated text with PII redacted, each line as a claim with the verifier's verdict and evidence, the judge's score held within 1 to 100, the relevance, and whether the judge is another model |
| `SelfRagProvenance.PassIsDecided` | agent/graph.py:2476-2525 | every pass with a text is decided by its replies: auto if approved, a retry if the verifier lives, the answer was scored and a retry is left, else a human |
| `SelfRagProvenance.PassEndsAutoIff` | agent/graph.py:2654-2706 | a pass without a failing node delivers in auto exactly when it was granted |
| `SelfRagProvenance.ClaimsFollowVerdicts` | agent/graph.py:2050-2130 | claim k of the record is extracted line k, supported exactly when the verifier said so, with its evidence, and bound exactly when a cited document grounds it |
| `SelfRagProvenance.ScoreFollowsVerdicts` | agent/graph.py:2128-2155 | factuality is the whole percentage of the checked lines the verifier supports and a cited document grounds; verified exactly when all are and at most ten were extracted; not verified exactly when nothing is cited or more were |
| `SelfRagProvenance.OtherChecks` | agent/graph.py:1909-2040 | every other check has no claims and scores 0; verified only for "no claims"; the verifier counts as dead exactly when its extraction or one of its calls fails |
| `SelfRagProvenance.ConfirmedIff` | agent/graph.py:1909-2165 | verified on the strength of claims exactly when the verifier confirmed every extracted line |
| `SelfRagProvenance.GradedIff` | agent/graph.py:1580-1709 | exactly which retrieved documents are graded, from the verdicts on them and the header shells |
| `SelfRagProvenance.KeptStandsAt` | agent/graph.py:1580-1700 | a kept document stands behind exactly the documents kept before it |
| `SelfRagProvenance.JudgeChoice` | agent/graph.py:2204-2250 | which model judges a simple and any other question, and when it is another one |
| `SelfRagProvenance.EndsScreened` | agent/graph.py:2632-2646 | every run that ends without an error, in auto or for a human, shows a blank, refused, or clean and redacted answer |
| `SelfRagProvenance.EscalationIsShown` | agent/graph.py:212-240 | a run routed as escalated is over and shows the message of the `handle_error` node that escalated it |
| `SelfRagRetries.RetriesCarryNothing` | agent/graph.py:2579-2593 | from each retrieval on, the nodes visited, the routes chosen and an automatic answer with its claims and scores are those of a run whose leftovers were erased |
| `SelfRagRetries.NextAgrees` | agent/graph.py:2476-2525 | two records that agree on an iteration's own inputs stay indistinguishable through every node |
| `SelfRagWitness.BoundIsAttained` | agent/graph.py:2832-2892 | for every `max_iterations` some run needs all the nodes of the bound, and ends in auto |
| `Grounding.ApplyCitationBoundClaims` | agent/grounding.py:128-207 | the binding loops compute the set-based binding and the missing-citation override |
| `Grounding.BindOne` | agent/grounding.py:182-205 | collecting, narrowing and falling back yields exactly the indices a claim binds to, in order |
| `Grounding.CitedTexts` | agent/grounding.py:146-179 | the cited indices that are in range and not blank, in order |
| `Grounding.BindingIsSound` | agent/grounding.py:128-207 | a bound claim has indices, each a marker of the answer, in range, with backing non-blank text, and not ruled out by the claim's own markers |
| `Grounding.BoundIff` | agent/grounding.py:128-207 | a supported claim is bound exactly when such an index exists |
| `Grounding.BindingRewrites` | agent/grounding.py:128-207 | binding writes two fields of every claim; the override exactly when no marker names a document with text, all markers then unbound; otherwise exactly the grounding documents, in order |
| `Grounding.FallbackAddsNothing` | agent/grounding.py:194-202 | the local-reference fallback never adds an index |
| `Grounding.StatusMeaning` | agent/grounding.py:67-90 | verified exactly when every claim of a non-empty list counts, exactly then the score is 100 |
| `Grounding.ScoreIsPercentage` | agent/grounding.py:67-90 | the score is the whole percentage of the claims that are supported and bound; unsupported exactly when it is not all of them |
| `Grounding.MoreDocsNeverHurt` | agent/grounding.py:67-207 | appending documents never unbinds a claim nor lowers the score |
| `DocGrade.ReplaceRelevantContextHeaders` | agent/doc_grade.py:55-86 | the loop computes the replacement |
| `DocGrade.ReplacementFacts` | agent/doc_grade.py:55-86 | retrieved documents only, no kept content lost, no header shell left whose source has content |
| `DocGrade.ReplacementIff` | agent/doc_grade.py:55-86 | exactly which documents the replacement keeps |
| `DocGrade.ReplacementIsIdempotent` | agent/doc_grade.py:55-86 | replacing twice is replacing once |
| `DocGrade.ReplacementKeepsOrder` | agent/doc_grade.py:55-86 | a subsequence of the retrieved documents stays one |
| `DocGrade.FailClosedIff` | agent/doc_grade.py:103-163 | fail-closed exactly when nothing was retrieved or nothing kept |
| `DocGrade.CoerceDocGradeBatch` | agent/graph.py:650-697 | an accepted batch grades every document, so the final lookup never fails |
| `DocGrade.Pigeonhole` | agent/graph.py:694-697 | n indices inside 1..n are all of them |
| `DocGrade.ItemOrderIrrelevant` | agent/graph.py:662-697 | with distinct indices under any of the three accepted fields the item order does not matter |
| `DocGrade.PositionalGrades` | agent/graph.py:662-697 | with one unindexed item per document the k-th item grades the k-th document |
| `DocGrade.PositionsDecide` | agent/graph.py:662-697 | two such batches agree exactly when they grade alike in order |
| `DocGrade.AcceptedIff` | agent/graph.py:650-697 | any batch is accepted exactly when every item is a verdict, or a dictionary with a verdict that names a document in range, and there is one bare verdict per document or, without bare verdicts, every document is named |
| `DocGrade.BareVerdictsDecide` | agent/graph.py:663-692 | bare verdicts among the items decide alone, in order |
| `DocGrade.LastItemDecides` | agent/graph.py:674-697 | otherwise a document gets the verdict, or else the alternative verdict, and the reason of the last item that names it, by its first index field that is not falsy or by position |
| `DocGrade.BatchesAgreeIff` | agent/graph.py:662-697 | two accepted batches agree exactly when for every document the last items that name it do |
| `JudgePolicy.JudgeIsIndependent` | agent/judge_policy.py:56-146 | under the policy a judge is found exactly when a listed candidate differs from the generator, and differs; the flag tells the truth without it |
| `FallbackCache.Fallback.FallbackGet` | cache/redis_cache.py:32-43 | returns the live text and makes it most recent, or drops the expired entry |
| `FallbackCache.Fallback.FallbackSet` | cache/redis_cache.py:46-56 | purges, stores at the recent end and evicts the oldest down to 1024 |
| `FallbackCache.Fallback.PurgeExpired` | cache/redis_cache.py:26-29 | removes exactly the expired entries |
| `FallbackCache.Fallback.FallbackDelete` | cache/redis_cache.py:59-61 | removes exactly the key |
| `FallbackCache.Fallback.FallbackDeletePattern` | cache/redis_cache.py:64-73 | removes the matching live keys and counts them |
| `FallbackCache.ReadsAreSound` | cache/redis_cache.py:32-56 | at most 1024 entries, and no read shows what an unbounded TTL map would not, for any clock |
| `FallbackCache.LruSurvival` | cache/redis_cache.py:26-61 | cache and unbounded map agree on a key with fewer than 1024 distinct other keys set or hit since it was touched |
| `FallbackCache.SurvivalIsExact` | cache/redis_cache.py:55-56 | with exactly 1024 they may differ |
| `FallbackCache.ReadYourWrite` | cache/redis_cache.py:46-56 | a stored text is shown until it expires, right after the store |
| `FallbackCache.IdealIff` | cache/redis_cache.py:26-73 | the unbounded map holds exactly what was stored last under a key and not removed since |
| `FallbackCache.ShownWasStored` | cache/redis_cache.py:32-56 | a read shows only what the latest store of its key put there, within that store's lifetime |
| `FallbackCache.SinceIff` | cache/redis_cache.py:32-56 | the survival distance of a key counts exactly the distinct other keys stored or hit after its own last use |
| `GraphCache.SupportGraphCache.Lookup` | agent/graph.py:2770-2781 | returns the cached graph and makes it most recent |
| `GraphCache.SupportGraphCache.Insert` | agent/graph.py:2894-2904 | stores at the recent end and evicts down to sixteen |
| `GraphCache.HitIsOwnGraph` | agent/graph.py:2714-2725 | under any reuse of unpinned addresses, failed and identical concurrent builds included, a hit was built from exactly the live objects passed in; never more than sixteen entries |
| `GraphCache.FloorsMayBeStale` | agent/graph.py:2764-2776 | the key omits two floors, so a hit may carry older ones |
| `GraphCache.HitIsLatestBuild` | agent/graph.py:2894-2904 | a cached graph is the latest one built for its key since the last clear |
| `GraphCache.HitFloorsIff` | agent/graph.py:2764-2781 | a hit has given floors exactly when that build was made under them |
| `GraphCache.SteadyFloors` | agent/graph.py:2764-2781 | if every request for a key reads the same floors, every hit has them |
| `GraphCache.HitSurvives` | agent/graph.py:2764-2904 | in every run a graph that was hit or stored stays cached while fewer than sixteen distinct other keys are requested or stored, however often |
| `GraphCache.PinnedWhileRunning` | agent/graph.py:2783-2904 | a request is pinned by as many builds as began on a miss and neither finished nor failed |
| `RedisBackoff.RedisConnection.ScheduleRetry` | cache/redis_cache.py:76-86 | drops the client, sets the retry time and doubles the delay up to 30 |
| `RedisBackoff.RedisConnection.RecordOperationFailure` | cache/redis_cache.py:89-92 | a failure of the current client drops it, turns the fallback on and schedules the retry; any other changes nothing |
| `RedisBackoff.RedisConnection.GetRedis` | cache/redis_cache.py:95-129 | client, fallback or a new attempt, and the state after each |
| `RedisBackoff.AttemptsSpread` | cache/redis_cache.py:76-129 | attempts of an outage are at least as far apart as the doubling schedule |
| `RedisBackoff.OutageAttempts` | cache/redis_cache.py:76-129 | an outage of T seconds sees at most 6 + T/30 attempts |
| `RedisBackoff.SpreadIsTight` | cache/redis_cache.py:76-129 | the schedule is attained |
| `RedisBackoff.ReachableState` | cache/redis_cache.py:76-129 | the delay stays within 1 and 30 and a held client means no fallback |
| `RedisBackoff.FailedCommandWaits` | cache/redis_cache.py:89-129 | after a failed command on the held client no client is held, the fallback is on, no lookup before the delay is over goes out, whatever else fails, and the first one from then on does |
| `RedisBackoff.OtherClientIgnored` | cache/redis_cache.py:89-92 | a failure of any other client changes nothing |
| `RedisBackoff.SuccessResets` | cache/redis_cache.py:122-128 | a success hands the client out until it fails and starts the next outage at the shortest delay |
| `RequestBudget.LLMRequestBudget.CheckCanStartCall` | llm/request_budget.py:78-104 | the verdict, in the order of the code's checks; a limit of zero or less is inactive |
| `RequestBudget.LLMRequestBudget.Charge` | llm/request_budget.py:106-131 | adds one call and the clipped tokens when enabled |
| `RequestBudget.OvershootBound` | llm/request_budget.py:78-131 | with at most K calls between check and charge, failing calls that are never charged included, every active limit is overshot by no more than they carry |
| `RequestBudget.CallBoundIsAttained` | llm/request_budget.py:78-131 | the bound on calls is reached by some run |
| `RequestBudget.InputBoundIsAttained` | llm/request_budget.py:78-131 | so is the bound on input, |
| `RequestBudget.OutputBoundIsAttained` | llm/request_budget.py:78-131 | the bound on output, |
| `RequestBudget.TotalBoundIsAttained` | llm/request_budget.py:78-131 | and the bound on the total |
| `RequestBudget.RefusalIsPermanent` | llm/request_budget.py:78-131 | a refused call stays refused |
| `RequestBudget.DisabledNeverRefuses` | llm/request_budget.py:78-131 | a disabled budget allows every call and counts none |
| `Agreement.ComputeAgreementReport` | agent/calibration.py:253-304 | the report is a function of the two-by-two table, both figures rounded to six digits; no double labels leave them unset |
| `Agreement.ComputeCostMatrix` | agent/calibration.py:307-340 | each of the four counters is the number of items that carry its own two labels; with the skipped items they partition the items |
| `Agreement.CollectPairs` | agent/calibration.py:264-273 | the kept pairs have the margins of the table |
| `Agreement.KappaBounds` | agent/calibration.py:285-296 | kappa lies between -1 and 1 |
| `Agreement.KappaFromCounts` | agent/calibration.py:285-296 | kappa from the four counts alone, over integers: the exact quotient, and exactly when the code does not divide |
| `Agreement.KappaOneIffAllAgree` | agent/calibration.py:285-296 | kappa is 1 exactly when no pair disagrees |
| `Agreement.KappaMinusOneIff` | agent/calibration.py:285-296 | kappa is -1 exactly for an even split without agreement |
| `Agreement.KappaSymmetric` | agent/calibration.py:288-296 | swapping the annotators changes nothing |
| `Agreement.ClearsFloorIff` | agent/calibration.py:301-302 | a rounded figure clears a six-digit floor exactly when the figure is less than half a step below it, or half a step below an even one |
| `Agreement.ReportedKappaBounds` | agent/calibration.py:301-302 | the reported kappa lies between -1 and 1 |
| `Agreement.ReportedOneIff` | agent/calibration.py:291-302 | the reported kappa of a table is 1 exactly when no pair disagrees, or the formula divides and `2000000 * n * d` is at most the chance-corrected denominator |
| `Agreement.ReportedOneMeansAgreementIff` | agent/calibration.py:291-302 | for label sets of n pairs a reported kappa of 1 means that no pair disagrees exactly when n is below four million |
| `Agreement.OneOddHides` | agent/calibration.py:291-302 | from four million pairs on, one disagreement among evenly split labels is reported as kappa 1 |
| `Agreement.ExpectedOneForcesRawOne` | agent/calibration.py:291-294 | expected agreement 1 hides no disagreement |
| `Agreement.RawRateIsDiagonal` | agent/calibration.py:285-286 | the raw rate counts the two diagonal cells of the cost matrix |
| `Agreement.TallyCounts` | agent/calibration.py:264-340 | labelled pairs are the items not skipped; swapping the keys transposes the table |
| `Agreement.CellsCount` | agent/calibration.py:322-330 | each cell counts the items carrying exactly its own two labels, predicted before gold |
| `Readiness.Assess` | agent/calibration.py:527-621 | ready exactly when every row is human with both annotators and a gold label and all four floors are met by the reported figures; otherwise which reasons are given, in order, and every counter as a number of rows |
| `Readiness.CountedFacts` | agent/calibration.py:546-570 | the provenance counters partition the rows and show nothing amiss exactly when all are complete |
| `Readiness.CountersCount` | agent/calibration.py:491-570 | each counter is its number of rows; a row without provenance is synthetic |
| `Readiness.ReadyThoughUnusable` | agent/calibration.py:527-621 | any complete agreed row with an unusable gold label, repeated often enough, is ready while the cost matrix skips all of it, whatever its predicted key |
| `Readiness.GoldMayBeUnusable` | agent/calibration.py:561-570 | such rows exist, for any floors that can be met |
| `Readiness.NothingSkippedIff` | agent/calibration.py:322-335 | the cost matrix skips nothing exactly when every row's two labels normalise |

## Assumptions

- The ingestion timing theorems put all statements on one non-decreasing clock (`MonotoneClock`) where
  they need it. The code reads the clock just before each statement, so two statements may in practice
  commit in the other order; the fallback-cache survival theorem reads the clock the same way.
- Lease and cutoff settings stay the same during a run, and lease tokens and key hashes are plain
  strings: nothing relies on a claim's token being fresh.
- The four helpers that read a row and write it back (ingestion/jobs.py:394-489) are one step each. The
  code selects the row and then flushes an update of the columns that changed, so another statement may
  commit in between: a helper then writes those columns over the newer row, and a column whose value it
  did not change stays as the other statement left it.
- A text with at least one word is not blank (`Config.Sane`).

## Left out

- Error messages: an error text is stored as it arrives; making it safe for display (`safe_error_message`) is not part of this model.
- Text matching: citation markers, overlap, knowledge-gap, PII and injection patterns are arbitrary functions of the text; the user-facing answers of the graph are placeholders.
- Floating point: kappa and the rates are exact reals, rounded exactly to six digits; the relevance score is an arbitrary real.
- SQL mechanics: each statement, and the one transaction of a sweep, is an atomic step; the file name and source path columns are dropped from a row.
- The reaper loop and the heartbeat thread's timing: sweeps and ticks happen at arbitrary times; stop() is the end of the list of ticks.
- `_parse_doc_grade_batch_text` and the per-document grading prompts: a batch arrives as parsed items, a grading as an arbitrary choice of documents and an error count.
- Prompts, usage accounting, tracing, metrics, streaming and suggested questions: no effect on routing.
- Parallel Redis and fallback contents: a successful Redis write does not clear the fallback, so only the fallback side has a clean specification.
- The agentic flow's own steps: they appear in the session as arbitrary pending-action writes and an arbitrary answer; `requires_confirmation` is never set inside the graph and is taken as false.
- LangGraph's recursion limit: the node bound is proved without it.
- Settings parsing, calibration artifacts, provider registry, HTTP routes, channels, retention of job objects: plumbing around these cores.

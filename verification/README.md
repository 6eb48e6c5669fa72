# Personal Brain: a verified model of its stateful core

Personal Brain keeps one owner's notes, todos, expenses, claims and projects in a relational store,
with a worker that indexes, deduplicates, reviews and prunes them, a bridge that queues writes while
offline, and an MCP server in front. This project models the protocols that keep those tables right
and proves what they promise: over every input, every interleaving and every run.
`dafny verify dfyconfig.toml` checks all of it (Dafny 4.11).

How the model is built: a table is a sequence or a map of rows, a transaction is one atomic step or
an abort, time is a nondecreasing number, a new UUID is a fresh number, and digests and derived keys
are injective. Code that changes state in place is a class or a method with loops, proved against a
function or relation on values; the theorems about runs are then stated over those values.

| component | files |
|---|---|
| duplicate-claim sweep: union-find, merge, review items, owner-approved merge | `claim_tables`, `claim_clusters`, `claim_merge`, `dedupe_sweep`, `dedupe_limit`, `dedupe_buckets`, `dedupe_handler`, `approved_merge` |
| durable job queue with fencing tokens, and its poller | `job_queue`, `job_poller`, `job_discipline` |
| idempotent commits in a unit of work, and the offline queue on top | `idempotency`, `unit_of_work`, `offline_queue`, `pending_store` |
| retrieval cards: convergence, chunking, semantic merge, ranking | `index_convergence`, `indexed_queue`, `chunking`, `search_cards`, `semantic_search`, `ranking` |
| review state machines: governed deletion, conflicts | `deletion_review`, `deletion_store`, `deletion_strays`, `conflict_scan` |
| expenses: exact money, correction chains | `money`, `expense_store` |
| daily scheduler with pruning; MCP session table | `scheduler`, `sessions` |

What the proofs found where code and intention differ. The model follows the code.

- `fail_job` guards on the token and not on the leased state, so finished jobs stay finished only
  under the poller's one settlement per claim and only if the row's maximum is not below the
  policy's: `LeavingTerminalNeedsFailure` is the exact condition, `AbsorptionNeedsBothHypotheses`
  shows both failures.
- A worker passes on times it captured earlier, so a renewal that commits late takes a lease back to
  its own time (`LateRenewalShortensLease`). The last renewal decides: a lease taken at h excludes
  claims before h plus the lease if and only if its last renewal was captured at h or later
  (`ExclusionIff`).
- The chunk query cuts off at 50 by card id and not by distance, so the semantic list is the true
  top 50 exactly under the condition of `SemanticListExact`; it is for every set of at most n chunked
  cards if and only if n is at most 50 (`ExactIffFewChunked`, `NearestCardIsLost`).
- The trailing index job repairs the race with a tombstone if and only if there is at most one
  sequential worker (`ConvergesIffOneWorker`, `TwoWorkersMayDiverge`). Live notes of white space get
  no card.
- `correct_expense` reads the active row before it claims its key, so a retry after success is
  NOT_FOUND instead of the stored outcome (`RetryAnswer`, `RetryIsNotFound`).
- The sixteen-digit rule counts all written digits of a whole amount, so trailing zeros can make an
  amount unacceptable (`AcceptedExactly`, `WidthRefusesTrailingZeros`), and the text the system itself
  prints is refused as an amount from 10^12 on (`PrintedAmountAcceptedAgain`). The currency pattern
  lets a final line feed through; the three-letter column then refuses the row (`CurrencyPattern`,
  `LineFeedIsRefusedByColumn`).
- The conflict scan is documented as one item per topic with a cap of 200, but it looks at open
  topics and at the cap only between candidates: one candidate reports all it has
  (`OneCandidateOpensAll`). `OneItemPerTopicIff` and `CapHoldsIff` say when the two rules hold, and
  `CapOverrun` by how much the cap can be passed.
- Documents, assets, tasks and checkpoints have no lifecycle column, so an executed plan that lists them
  writes their action rows and retires none of them (`RetiredExactly`).
- A hand-made confirmation that names a stored plan executes it even if its own item was rejected or
  has expired (`StrayInputs`); `StrayKeepsStepIff` says which of them do no harm.
- A session bound below one makes every registration fail on the minimum of an empty table
  (`MakeRoom`).

## Model

| member | source | states |
|---|---|---|
| `ClaimTables.DuplicateKindSymmetric` | apps/worker/personal_brain_worker/claim_dedupe.py:69-80 | Whether two texts are duplicates, suspected or distinct does not depend on their order, although the code only ever compares left with right. |
| `ClaimTables.DuplicateKindExactly` | apps/worker/personal_brain_worker/claim_dedupe.py:69-80 | In whole numbers: duplicates are texts of one polarity with equal normal forms or at least three in four tokens common; suspected are those with at least one in two. |
| `ClaimTables.VectorCloseSymmetric` | apps/worker/personal_brain_worker/claim_dedupe.py:58-66 | Cosine closeness at the suspicion threshold does not depend on the order of the vectors. |
| `ClaimTables.ClosenessOfDirections` | apps/worker/personal_brain_worker/claim_dedupe.py:58-66 | Every vector but a null one is close to itself; orthogonal and opposed vectors are not close. |
| `ClaimTables.KeyMeansOutranks` | apps/worker/personal_brain_worker/claim_dedupe.py:108-116 | The sort key of the sweep puts one row before another exactly if it is established or active and the other not, or then has more evidence, or then is older, or then has the smaller id. |
| `ClaimClusters.LinkedTransitive` | apps/worker/personal_brain_worker/claim_dedupe.py:215-220 | Being joined by a chain of duplicates is transitive. |
| `ClaimClusters.LinkedSymmetric` | apps/worker/personal_brain_worker/claim_dedupe.py:215-220 | Being joined by a chain of duplicates is symmetric. |
| `ClaimClusters.Find` | apps/worker/personal_brain_worker/claim_dedupe.py:204-208 | Find with path halving terminates on every forest, returns the root that the element has always had, and changes no element's root. |
| `ClaimClusters.Union` | apps/worker/personal_brain_worker/claim_dedupe.py:210-213 | Union joins exactly the two classes of its arguments and keeps the parent array a forest, without any order or rank among the roots. |
| `ClaimClusters.RelabelSound` | apps/worker/personal_brain_worker/claim_dedupe.py:210-213 | A union of two duplicates joins only claims that a chain of duplicates links. |
| `ClaimClusters.ChainKeepsRoot` | apps/worker/personal_brain_worker/claim_dedupe.py:215-220 | Once every pair has been compared, a chain of duplicates never leaves a class. |
| `ClaimClusters.SoundAndMergedIsPartition` | apps/worker/personal_brain_worker/claim_dedupe.py:199-220 | After the pairwise loop two claims have the same root if and only if a chain of duplicates links them: the classes are the connected components. |
| `ClaimMerge.MergeKeepsEveryRow` | apps/worker/personal_brain_worker/claim_dedupe.py:244-288 | A merge loses no claim and no evidence row; an evidence row changes exactly if it is the owner's and on a claim that lost, and then only in target and version; a claim changes only if it lost or absorbed. |
| `ClaimMerge.EvidenceLandsOnSurvivor` | apps/worker/personal_brain_worker/claim_dedupe.py:253-259 | The evidence a survivor ends with is exactly the evidence of its whole class. |
| `ClaimMerge.LosersRetireSurvivorsStay` | apps/worker/personal_brain_worker/claim_dedupe.py:260-288 | A loser is superseded, ends its validity, has no evidence and no card left, and its history names the survivor; a survivor keeps lifecycle and card, its history lists exactly the claims it took over, and in the sweep its summary gains exactly theirs. |
| `ClaimMerge.IdentityMerge` | apps/worker/personal_brain_worker/claim_dedupe.py:244-246 | A merge in which every claim survives leaves the tables as they are. |
| `DedupeBuckets.BucketLinks` | apps/worker/personal_brain_worker/claim_dedupe.py:139-141 | Chains of duplicates never cross buckets, so that comparing bucket by bucket finds every chain there is. |
| `DedupeBuckets.SplitBuckets` | apps/worker/personal_brain_worker/claim_dedupe.py:139-141 | The buckets are a partition of the scanned rows by category and polarity, each in scan order. |
| `DedupeBuckets.BestMember` | apps/worker/personal_brain_worker/claim_dedupe.py:108-116 | The member that the sort key puts first has a better case than every other member of its class. |
| `DedupeBuckets.ClassIsWhole` | apps/worker/personal_brain_worker/claim_dedupe.py:241-246 | The members collected under one root are a whole class, which has one survivor in it. |
| `DedupeSweep.ScanIsComplete` | apps/worker/personal_brain_worker/claim_dedupe.py:135-138 | With no more live claims than the scan limit, the scan reads them all. |
| `DedupeSweep.Survivor` | apps/worker/personal_brain_worker/claim_dedupe.py:108-116 | Every class has a member with a better case than every other. |
| `DedupeSweep.SurvivorUnique` | apps/worker/personal_brain_worker/claim_dedupe.py:108-116 | The rank is total on a class, so that the survivor does not depend on which member it is asked for. |
| `DedupeSweep.SigmaMatchesLinks` | apps/worker/personal_brain_worker/claim_dedupe.py:199-250 | Two scanned claims end on the same survivor if and only if a chain of duplicates links them. |
| `DedupeSweep.NoDuplicatesSurvive` | apps/worker/personal_brain_worker/claim_dedupe.py:134-288 | After a sweep no two scanned claims that are still live are duplicates or linked by duplicates. |
| `DedupeSweep.WhatASweepLeaves` | apps/worker/personal_brain_worker/claim_dedupe.py:134-288 | Of two claims of one category and polarity that are live after a sweep the normal forms differ and fewer than three in four tokens are common; if one in two is, or their vectors are close, one of them is under review. |
| `DedupeSweep.LiveAfterSweep` | apps/worker/personal_brain_worker/claim_dedupe.py:134-288 | What is live after a sweep was live before it, is its own survivor, and has kept text, category and card. |
| `DedupeSweep.SecondSweepIsIdle` | apps/worker/personal_brain_worker/claim_dedupe.py:134-288 | With at most 500 live claims, a second sweep straight after the first merges nothing, opens nothing and leaves every table as it is. |
| `DedupeLimit.IdleIffWithinScan` | apps/worker/personal_brain_worker/claim_dedupe.py:135-138 | The second sweep is idle for all tables with at most n live claims if and only if n is at most 500; of 501 claims two duplicates can meet only in the second scan. |
| `DedupeSweep.SweepConserves` | apps/worker/personal_brain_worker/claim_dedupe.py:244-288 | Every scanned claim has a survivor in its component to which all its evidence went: established or active if any member is, among those of its standing with no fewer evidence rows than any, then the oldest, then the smallest id. Everything else in the component is superseded and no row is lost. |
| `DedupeSweep.OpenedPairsDisjoint` | apps/worker/personal_brain_worker/claim_dedupe.py:154-197 | The pairs of the items a sweep opens are disjoint from each other and from the pair of every item that was open before. |
| `DedupeSweep.OnlyTheOwnersLiveClaimsChange` | apps/worker/personal_brain_worker/claim_dedupe.py:134-291 | A claim of another owner, or one that is not live, keeps its row, its card and its evidence, and evidence of other owners is untouched. |
| `DedupeSweep.OpenedItemsProposeTheBetter` | apps/worker/personal_brain_worker/claim_dedupe.py:161-163 | The survivor an opened item proposes is the one of its two claims over which the other has no better case. |
| `DedupeHandler.Session.OpenMergeItem` | apps/worker/personal_brain_worker/claim_dedupe.py:154-186 | Adds exactly the item of a suspicious pair, proposing the claim with the better case, or nothing if one of the two is under review; afterwards one of them is. |
| `DedupeHandler.Session.Supersede` | apps/worker/personal_brain_worker/claim_dedupe.py:253-275 | Retiring one duplicate brings the tables one claim closer to the merged ones. |
| `DedupeHandler.Session.SupersedeAll` | apps/worker/personal_brain_worker/claim_dedupe.py:251-280 | All losers of a class are handled, once each, and their summaries are collected. |
| `DedupeHandler.Session.Absorb` | apps/worker/personal_brain_worker/claim_dedupe.py:276-287 | The survivor takes over the summaries and records what it absorbed. |
| `DedupeHandler.Session.MergeMembers` | apps/worker/personal_brain_worker/claim_dedupe.py:244-288 | One class is folded into its best member. |
| `DedupeHandler.Session.CompareTexts` | apps/worker/personal_brain_worker/claim_dedupe.py:202-224 | The comparison of all pairs leaves a forest whose classes are the connected components, and every suspected pair concerned by an open item. |
| `DedupeHandler.Session.CompareVectors` | apps/worker/personal_brain_worker/claim_dedupe.py:226-239 | Every pair of close vectors from different classes is concerned by an open item; the classes do not change. |
| `DedupeHandler.Session.CollectClasses` | apps/worker/personal_brain_worker/claim_dedupe.py:241-243 | Groups the rows of a bucket by root, without loss. |
| `DedupeHandler.Session.MergeClasses` | apps/worker/personal_brain_worker/claim_dedupe.py:241-288 | Every class of a bucket is folded; the counts are the superseded claims and the survivors that absorbed others. |
| `DedupeHandler.Session.SweepBucket` | apps/worker/personal_brain_worker/claim_dedupe.py:199-288 | One bucket: its classes are folded and counted and its suspicious pairs concerned. |
| `DedupeHandler.Session.Sweep` | apps/worker/personal_brain_worker/claim_dedupe.py:125-291 | The whole transaction ends in the tables that the specification of a sweep demands: components merged into their survivors, inbox grown by disjoint pairs, every suspicion concerned; the counters of claims, groups and items are exact. |
| `ApprovedMerging.Oldest` | packages/infrastructure/personal_brain_infra/persistence/authoritative_store.py:1050-1051 | Without a valid proposal the oldest live claim survives, ties going to the smaller id. |
| `ApprovedMerging.MergeApproved` | packages/infrastructure/personal_brain_infra/persistence/authoritative_store.py:1016-1091 | An owner-approved merge is refused for fewer than two refs, does nothing with fewer than two live claims among them, and is otherwise the same conserving merge with the proposed or the oldest survivor; every other live claim among the refs is superseded and no claim outside them changes. |
| `ApprovedMerging.SupersedeRefs` | packages/infrastructure/personal_brain_infra/persistence/authoritative_store.py:1053-1079 | Every ref but the survivor is retired. |
| `ApprovedMerging.ApprovedMergeConserves` | packages/infrastructure/personal_brain_infra/persistence/authoritative_store.py:1053-1091 | An approved merge loses no row, puts exactly the evidence of the live claims on the survivor, leaves all other evidence alone and supersedes every other live claim. |
| `JobQueue.StepKeepsInv` | packages/infrastructure/personal_brain_infra/jobs/store.py:51-225 | In every step of any number of workers `attempts` equals `claim_token` and stays within the row's and the policy's maximum. |
| `JobQueue.RunKeepsInv` | packages/infrastructure/personal_brain_infra/jobs/store.py:51-225 | The same in every state of every run. |
| `JobQueue.ScheduleNeverOutOfRange` | packages/infrastructure/personal_brain_infra/jobs/store.py:34-40 | In every reachable state a retryable failure finds its delay: the schedule is never indexed out of range. |
| `JobQueue.RetryWaitsForItsDelay` | packages/infrastructure/personal_brain_infra/jobs/store.py:34-43 | A failed job stays out of reach until its attempt's delay less the jitter is over, and is ready when delay plus jitter is over; without jitter it is ready exactly when the delay is over. |
| `JobQueue.ClockAndTokensGrow` | packages/infrastructure/personal_brain_infra/jobs/store.py:84-115 | Fencing tokens never decrease over a run. |
| `JobQueue.FreshClaimIff` | packages/infrastructure/personal_brain_infra/jobs/store.py:70-115 | A new row is won by a claim at time t if and only if it is available by then, and otherwise left as it is. |
| `JobQueue.InsertedJobIsWonIff` | packages/infrastructure/personal_brain_infra/jobs/store.py:70-115 | In every run, as long as no claim of an inserted job took effect, a claim at time t leases it, with the first attempt, the first token and expiry t plus the lease, if and only if its time has come; otherwise nothing changes. |
| `JobQueue.StaleTokenIsPowerless` | packages/infrastructure/personal_brain_infra/jobs/store.py:118-225 | A heartbeat, progress, completion or failure with an older token changes no row, at any later point of any run. |
| `JobQueue.OutdatedReadClaimsNothing` | packages/infrastructure/personal_brain_infra/jobs/store.py:84-115 | A claim from a version of the row that is no longer current, in token or state, changes nothing. |
| `JobQueue.LeaseSurvives` | packages/infrastructure/personal_brain_infra/jobs/store.py:84-142 | A lease taken or renewed with captured time h is held to h plus the lease, with the same token, while its holder does not settle, renews only with times not before h, and no claim takes effect. |
| `JobQueue.FirstClaimIsAfterLease` | packages/infrastructure/personal_brain_infra/jobs/store.py:51-142 | The first claim that takes effect after that, from whatever version of the row was read, carries a captured time not before h plus the lease. |
| `JobQueue.NoClaimWithinLease` | packages/infrastructure/personal_brain_infra/jobs/store.py:51-142 | After a claim or heartbeat with captured time h no claim takes effect before h plus the lease unless the holder settles or commits a renewal captured before h. |
| `JobQueue.LastRenewalSetsLease` | packages/infrastructure/personal_brain_infra/jobs/store.py:118-142 | While nothing settles, renews or takes over the job, its lease runs out exactly the lease time after the captured time of its last renewal. |
| `JobQueue.ClaimWorksIff` | packages/infrastructure/personal_brain_infra/jobs/store.py:84-115 | A claim of the row as it stands takes effect if and only if its time is not before the last renewal's captured time plus the lease. |
| `JobQueue.ExclusionIff` | packages/infrastructure/personal_brain_infra/jobs/store.py:84-142 | A lease won or renewed at h excludes all claims before h plus the lease if and only if its last renewal was captured at h or later. |
| `JobQueue.RenewalKeepsLeaseIff` | packages/infrastructure/personal_brain_infra/jobs/store.py:118-142 | One renewal keeps a lease up to h plus the lease time if and only if it was captured at h or later. |
| `JobQueue.LateRenewalShortensLease` | apps/worker/personal_brain_worker/runtime.py:93-112 | Of two renewals committed one after the other, the one captured earlier and committed later shortens the lease, and a claim within the longer one takes effect when the clock has come to it. |
| `JobQueue.WhoMayChangeALease` | packages/infrastructure/personal_brain_infra/jobs/store.py:51-225 | A leased row changes only by its worker's heartbeat, by a claim after the lease expired, or by the holder of the current token. |
| `JobQueue.HolderIsObeyed` | packages/infrastructure/personal_brain_infra/jobs/store.py:118-225 | A heartbeat, progress report, completion or failure under the current token of a leased row takes effect, exactly as reported. |
| `JobQueue.SuccessNeedsTheLease` | packages/infrastructure/personal_brain_infra/jobs/store.py:46-48 | A job succeeds if and only if a completion carries the current token of a leased row. |
| `JobQueue.TerminalIsAbsorbing` | packages/infrastructure/personal_brain_infra/jobs/store.py:161-225 | With one settlement per claim and a row maximum not below the policy's, succeeded and dead-lettered jobs stay so. |
| `JobQueue.LeavingTerminalNeedsFailure` | packages/infrastructure/personal_brain_infra/jobs/store.py:205-225 | Without that discipline a terminal state is left if and only if a retryable failure carries the current token and was read before the last attempt. |
| `JobQueue.AbsorptionNeedsBothHypotheses` | packages/infrastructure/personal_brain_infra/jobs/store.py:205-225 | Both hypotheses are needed: a second settlement, or a smaller row maximum, revives a finished job. |
| `JobQueue.MovesLowerRank` | packages/infrastructure/personal_brain_infra/jobs/store.py:84-225 | Every step that changes a row, heartbeats and progress aside, lowers a rank, rewriting a dead letter included; nothing raises it. |
| `JobQueue.FinitelyManyMoves` | packages/infrastructure/personal_brain_infra/jobs/store.py:84-225 | A job is changed at most 3 * max_attempts + 1 times other than by heartbeats and progress, in any run. |
| `JobQueue.FinishedStaysFinished` | apps/worker/personal_brain_worker/runtime.py:128-172 | In every run under the poller's discipline a finished job stays finished and a succeeded row never changes. |
| `JobPoller.JobTable.ClaimReadyJobs` | packages/infrastructure/personal_brain_infra/jobs/store.py:51-115 | Of the candidates, which are the first ready rows by priority and time up to a batch, exactly those with attempts left are leased to the worker under a new token; the others are dead-lettered. |
| `JobPoller.SmallBatchIsComplete` | packages/infrastructure/personal_brain_infra/jobs/store.py:75-82 | With no more ready rows than a batch holds, every ready row of the owner is a candidate. |
| `JobPoller.JobTable.CompleteJob` | packages/infrastructure/personal_brain_infra/jobs/store.py:161-178 | A result is stored if and only if the row is leased under this token. |
| `JobPoller.JobTable.FailJob` | packages/infrastructure/personal_brain_infra/jobs/store.py:181-225 | Retry or dead letter by attempts and retryability; a missing job and one never claimed are errors without effect. |
| `JobPoller.JobTable.Settle` | apps/worker/personal_brain_worker/runtime.py:128-172 | However its handler ended, a claimed job is settled and no longer leased. |
| `JobPoller.EndingDecides` | apps/worker/personal_brain_worker/runtime.py:128-172 | Done is success with its result; a missing handler and a final error are dead letters; every other error waits for a retry exactly while the policy has an attempt left, with the error code of its kind. |
| `JobPoller.JobTable.Poll` | apps/worker/personal_brain_worker/runtime.py:128-163 | A poll takes up min(10, ready) jobs of its owner, none before one of higher priority or of the same and longer available: exactly the candidates with attempts left are claimed, every one of them is settled exactly once, the rest are dead-lettered, and no other row is touched. |
| `JobDiscipline.PollersAreDisciplined` | apps/worker/personal_brain_worker/runtime.py:128-172 | In every interleaving of any number of pollers, each working through its own claims and dying at any point, every step at the queue is one settlement per claim. |
| `JobDiscipline.PolledJobsStayFinished` | apps/worker/personal_brain_worker/runtime.py:128-172 | So what pollers finish stays finished. |
| `Idempotency.CommitKeepsInv` | packages/infrastructure/personal_brain_infra/persistence/authoritative_store.py:105-246 | Wherever a request breaks off, every key has one whole bundle or none: exactly the source, target, stages and audit row its request asks for, or the audit row of a stored duplicate; no row is outside a bundle and no record merely claimed. |
| `Idempotency.CommitsIff` | packages/infrastructure/personal_brain_infra/persistence/authoritative_store.py:105-246 | A request under a new key succeeds if and only if it has authority, claims no other hash than its own, and nothing breaks off before the commit (a duplicate needs only the commit); any other answer leaves no trace. |
| `Idempotency.DetectedIff` | packages/infrastructure/personal_brain_infra/persistence/authoritative_store.py:138-173 | A request that asks for detection is answered as a duplicate if and only if an active source holds its content, names such a source and adds none; otherwise its content is stored as one new source. |
| `Idempotency.OneSourcePerContent` | packages/infrastructure/personal_brain_infra/persistence/authoritative_store.py:138-173 | If every request for a content asks for detection, no run ever has two active sources of it. |
| `Idempotency.TombstoneKeepsInv` | packages/infrastructure/personal_brain_infra/persistence/idempotency.py:183-202 | Erasing a key keeps that. |
| `Idempotency.RunKeepsInv` | packages/infrastructure/personal_brain_infra/persistence/authoritative_store.py:105-246 | The same in every state of every run of requests and erasures. |
| `Idempotency.OneEffectPerRecord` | packages/infrastructure/personal_brain_infra/persistence/authoritative_store.py:105-246 | A recorded key has exactly one intake, any other none. |
| `Idempotency.AtMostOneBundlePerKey` | packages/infrastructure/personal_brain_infra/persistence/authoritative_store.py:105-246 | In every run each (client, operation, key) has one committed bundle if it has a record, and none otherwise; the bundle is whole and no row of any table is outside a bundle. |
| `Idempotency.RecordStable` | packages/infrastructure/personal_brain_infra/persistence/idempotency.py:83-202 | A record, once committed, changes only by erasure, and intake, source, target, stages and audit of its key stay the same rows. |
| `Idempotency.LaterRequestsReplay` | packages/infrastructure/personal_brain_infra/persistence/idempotency.py:83-152 | After a success the key answers every later request without change: the stored outcome for equal content, a conflict for different content, deleted once erased. |
| `Idempotency.ErasedForGood` | packages/infrastructure/personal_brain_infra/persistence/idempotency.py:183-202 | An erased key never has an effect again and keeps neither digest nor outcome. |
| `UnitsOfWork.UnitOfWork.Enter` | packages/infrastructure/personal_brain_infra/persistence/unit_of_work.py:24-33 | A unit is entered once and starts from the committed state. |
| `UnitsOfWork.UnitOfWork.Commit` | packages/infrastructure/personal_brain_infra/persistence/unit_of_work.py:35-45 | Only a successful commit of an active unit changes the durable state, to exactly the session's. |
| `UnitsOfWork.UnitOfWork.Rollback` | packages/infrastructure/personal_brain_infra/persistence/unit_of_work.py:47-52 | A rollback restores the committed state and is refused after a commit. |
| `UnitsOfWork.UnitOfWork.Exit` | packages/infrastructure/personal_brain_infra/persistence/unit_of_work.py:54-66 | Leaving without a commit discards the session. |
| `UnitsOfWork.QueueStages` | packages/infrastructure/personal_brain_infra/persistence/authoritative_store.py:201-219 | Every stage of a request is queued, in order. |
| `UnitsOfWork.WriteDuplicate` | packages/infrastructure/personal_brain_infra/persistence/authoritative_store.py:145-173 | A request whose content is stored writes intake, audit and outcome only. |
| `UnitsOfWork.WriteBundle` | packages/infrastructure/personal_brain_infra/persistence/authoritative_store.py:174-242 | Source, target, stages, audit and outcome together are one bundle; a refusing side effect is reported. |
| `UnitsOfWork.Execute` | packages/infrastructure/personal_brain_infra/persistence/authoritative_store.py:118-246 | The step-by-step execution inside a unit of work is, at every fault, the request function: all rows or none. |
| `UnitsOfWork.HandleRequest` | packages/infrastructure/personal_brain_infra/persistence/authoritative_store.py:105-246 | A request from entry to exit refines the request function on the durable state. |
| `OfflineQueue.SendIsOneRequest` | apps/bridge/personal_brain_bridge/pending_store.py:136-142 | A send over a lossy network is at most one request: what it acknowledges is a bundle with the operation's own content, an effect happens only for a key without one, and a conflict has no effect. |
| `OfflineQueue.StepKeepsInv` | apps/bridge/personal_brain_bridge/pending_store.py:81-152 | Enqueues, concurrent replays, lost requests and responses, and other traffic keep the queue, the effects and every replay cursor consistent. |
| `OfflineQueue.ExactlyOnceInOrder` | apps/bridge/personal_brain_bridge/pending_store.py:81-152 | In every run each queued operation has at most one effect, an operation that left the queue exactly one with its own content, effects are in sequence order without a gap, and both bounds hold, so that no row and no two rows together exceed the byte bound. |
| `OfflineQueue.BytesCountsSizes` | apps/bridge/personal_brain_bridge/pending_store.py:103-108 | The empty queue weighs nothing and one more entry adds exactly its size. |
| `OfflineQueue.ConflictsStayQueued` | apps/bridge/personal_brain_bridge/pending_store.py:143-150 | An operation in conflict has no effect and stays in the queue. |
| `PendingStores.PendingStore.Enqueue` | apps/bridge/personal_brain_bridge/pending_store.py:81-116 | Each way to refuse, too large exactly if one more entry would pass a bound, the idempotent answer for a queued key, the exact new queue otherwise; it is the enqueue step of the system. |
| `PendingStores.PendingStore.SendHead` | apps/bridge/personal_brain_bridge/pending_store.py:136-150 | One send is the send of the model over this network: an acknowledged operation has its own effect and is deleted, one in conflict is marked, an uncertain one stays. |
| `PendingStores.PendingStore.Replay` | apps/bridge/personal_brain_bridge/pending_store.py:118-152 | Status, number of completed operations and final server are exactly those of sending one after the other until one stops the replay, for the stated reason; what was acknowledged has its own effect and leaves the queue; the whole replay is a run of start, send, delete and end steps. |
| `PendingStores.AcknowledgedIff` | apps/bridge/personal_brain_bridge/pending_store.py:136-142 | Over a faultless network an operation is acknowledged if and only if its key is new or its own and not erased, and its claimed hash is right. |
| `PendingStores.AnswersIff` | packages/infrastructure/personal_brain_infra/persistence/idempotency.py:83-180 | Over a faultless network an operation is completed exactly if its key is new, replayed exactly if the record is its own, and in conflict exactly if it is another's. |
| `PendingStores.DrainsIff` | apps/bridge/personal_brain_bridge/pending_store.py:127-152 | With authority and a faultless network a replay finishes if and only if each of its operations is unmarked and was deliverable at the start. |
| `PendingStores.TraceKeepsExactlyOnce` | apps/bridge/personal_brain_bridge/pending_store.py:127-152 | So a replay of the store keeps exactly-once, in order. |
| `PendingStores.SendOver` | apps/bridge/personal_brain_bridge/pending_store.py:127-142 | The send, executed against the real request handler, is the send of the model. |
| `IndexConvergence.StepKeepsInv` | packages/infrastructure/personal_brain_infra/search/indexer.py:228-299 | Each step of tombstoning, queueing, reading and writing keeps a guard for every card that disagrees with its source. |
| `IndexConvergence.OneWorkerIsExclusive` | apps/worker/personal_brain_worker/runtime.py:128-163 | One sequential worker never has two index jobs of one source in flight. |
| `IndexConvergence.CardsFollowSources` | packages/infrastructure/personal_brain_infra/persistence/authoritative_store.py:1167-1250 | In every such run a card of a deleted or blank source, or a missing card of a live one with text, exists only while an index job of that source is unsettled or dead-lettered. |
| `IndexConvergence.DrainedQueueHasConverged` | packages/infrastructure/personal_brain_infra/persistence/authoritative_store.py:2186-2219 | A queue drained without dead letters by one worker leaves cards for exactly the live sources that have text. |
| `IndexConvergence.TwoWorkersMayDiverge` | packages/infrastructure/personal_brain_infra/search/indexer.py:228-299 | Any two workers have a run that drains and leaves the card of a deleted source. |
| `IndexConvergence.ConvergesIffOneWorker` | packages/infrastructure/personal_brain_infra/search/indexer.py:228-299 | Every drained run of a set of workers has converged if and only if the set has at most one worker. |
| `IndexedQueue.ActSimulates` | apps/worker/personal_brain_worker/runtime.py:128-172 | Each step of one poller at the leased queue, and of what creates and tombstones sources, is one step of the convergence model or none. |
| `IndexedQueue.RunProjects` | apps/worker/personal_brain_worker/runtime.py:128-172 | So every run of that poller, with retries, crashes and restarts, is a run of one worker. |
| `IndexedQueue.LeasedQueueConverges` | packages/infrastructure/personal_brain_infra/search/indexer.py:228-299 | When every index job of the leased queue has succeeded, there are cards for exactly the live sources that have text. |
| `Chunking.ParagraphsKeepInk` | packages/infrastructure/personal_brain_infra/search/chunking.py:41-44 | Splitting at blank lines loses no character other than white space. |
| `Chunking.ParagraphsRoundTrip` | packages/infrastructure/personal_brain_infra/search/chunking.py:43-43 | Joining the paragraphs with empty lines gives the text back, and no paragraph has an empty line inside. |
| `Chunking.HardCut` | packages/infrastructure/personal_brain_infra/search/chunking.py:24-35 | The cut lies in the second half of the window, after the last newline there, else after the last of the first separator that occurs, else at the full size. |
| `Chunking.CutStep` | packages/infrastructure/personal_brain_infra/search/chunking.py:45-48 | One hard cut leaves at least 201 characters less and, with the overlap, all the ink. |
| `Chunking.CutParagraph` | packages/infrastructure/personal_brain_infra/search/chunking.py:42-50 | The pieces of a long paragraph are in bounds, parts of the text, and hold all its ink in order. |
| `Chunking.AtomicUnits` | packages/infrastructure/personal_brain_infra/search/chunking.py:38-51 | Units of at most 600 characters, without white space at either end or an empty line inside, that hold all the ink of the text in order. |
| `Chunking.Pack` | packages/infrastructure/personal_brain_infra/search/chunking.py:66-77 | Packing with overlap keeps every block within 701 characters, none blank, each starting with the tail of its predecessor and made of parts of the text, and loses no ink. |
| `Chunking.SplitChunks` | packages/infrastructure/personal_brain_infra/search/chunking.py:54-77 | No chunks only for blank text, a short text unchanged, and for a long one every non-blank character in some chunk in order, no chunk blank or over 701 characters, and nothing in a chunk but parts of the text and newlines. |
| `SemanticSearch.TopUnchangedIffSafe` | packages/infrastructure/personal_brain_infra/search/repository.py:163-170 | Dropping candidates leaves the first n of a ranking unchanged if and only if every dropped one has n kept ones before it. |
| `SemanticSearch.BestPerCard` | packages/infrastructure/personal_brain_infra/search/repository.py:163-167 | The dictionary holds for each card its least distance among the rows. |
| `SemanticSearch.SemanticList` | packages/infrastructure/personal_brain_infra/search/repository.py:163-170 | The merged list is the first fifty of the ranking by distance and id. |
| `SemanticSearch.SemanticListExact` | packages/infrastructure/personal_brain_infra/search/repository.py:136-170 | The merged list is the true fifty nearest cards if and only if every chunked card cut off by the id-ordered limit has fifty kept candidates before it. |
| `SemanticSearch.SemanticListExactWhenFewChunked` | packages/infrastructure/personal_brain_infra/search/repository.py:145-170 | With at most fifty chunked cards eligible the merged list is exact. |
| `SemanticSearch.NearestCardIsLost` | packages/infrastructure/personal_brain_infra/search/repository.py:153-155 | Of 51 chunked cards the nearest is missing from the list when it has the largest id. |
| `SemanticSearch.ExactIffFewChunked` | packages/infrastructure/personal_brain_infra/search/repository.py:145-170 | The list is exact for all card sets with at most n chunked cards if and only if n is at most 50. |
| `SearchCards.CardStore.Index` | packages/infrastructure/personal_brain_infra/search/repository.py:29-89 | The refusals, and otherwise exactly one card of the target and model version, with its chunks and without those of the replaced card. |
| `SearchCards.ReplacedExactly` | packages/infrastructure/personal_brain_infra/search/repository.py:41-88 | The cards of the target for that model version go with their chunks, the new card has exactly its own, and every other card and its chunks stay. |
| `SearchCards.IndexStaysConsistent` | packages/infrastructure/personal_brain_infra/search/repository.py:41-88 | No card ever carries both a vector and chunks, and no chunk outlives its card. |
| `SearchCards.ViewIsDisjoint` | packages/infrastructure/personal_brain_infra/search/repository.py:136-143 | What the two semantic queries see is disjoint for every model version. |
| `SearchCards.ViewShowsStoredCards` | packages/infrastructure/personal_brain_infra/search/repository.py:136-155 | A query sees exactly the cards of its model version that have a vector or chunks, each at the distance of the vector or of the nearest chunk. |
| `SearchCards.StoredSearchIsExact` | packages/infrastructure/personal_brain_infra/search/repository.py:136-170 | End to end: with at most fifty chunked cards of the model version, the merged list is the first fifty, by distance and id, of exactly the stored cards of that version with a vector, at its distance, or chunks, at that of the nearest. |
| `Ranking.AddList` | packages/domain/personal_brain_domain/retrieval/ranking.py:50-55 | One list adds to each of its cards the share of its rank. |
| `Ranking.Fuse` | packages/domain/personal_brain_domain/retrieval/ranking.py:50-55 | The fused dictionary scores exactly the cards of the two lists, by the sum of their shares. |
| `Ranking.BothBeatsOne` | packages/domain/personal_brain_domain/retrieval/ranking.py:50-55 | In duplicate-free lists of at most 61 entries a card in both outscores a card in one. |
| `Ranking.BothBeatOneIffCapped` | packages/domain/personal_brain_domain/retrieval/ranking.py:50-55 | That holds for all lists up to a cap if and only if the cap is at most 61; the search caps at 50. |
| `Ranking.DominanceWins` | packages/domain/personal_brain_domain/retrieval/ranking.py:50-55 | A card at least as high in both lists and higher in one scores higher. |
| `Ranking.RankHits` | packages/domain/personal_brain_domain/retrieval/ranking.py:58-76 | A permutation of the candidates that are neither retired nor secret, ordered by fused score, then fresh ones first, then by id; a single one needs no fusion. |
| `Ranking.BothListsFirst` | packages/infrastructure/personal_brain_infra/search/repository.py:171-176 | In the ranked results every card in both capped lists precedes every card in one. |
| `Ranking.DominantFirst` | packages/infrastructure/personal_brain_infra/search/repository.py:171-176 | In the ranked results a card at least as high in both lists and higher in one comes first. |
| `DeletionReview.ListedIsRequested` | packages/infrastructure/personal_brain_infra/persistence/authoritative_store.py:427-480 | A plan lists exactly its targets, the dependents declared for them, and the dependents found under projects among them. |
| `DeletionReview.FoundIsAddedOnce` | packages/infrastructure/personal_brain_infra/persistence/authoritative_store.py:430-475 | A discovered dependent is added exactly once, and not at all if the caller declared it. |
| `DeletionReview.ActionsAreListed` | packages/infrastructure/personal_brain_infra/persistence/authoritative_store.py:694-715 | The action rows of a plan name exactly its targets and dependents. |
| `DeletionReview.VerbsAreExact` | packages/infrastructure/personal_brain_infra/persistence/authoritative_store.py:699-706 | Counted by record and verb: a target is deleted once for each time it is listed, and a dependent recomputed if it is evidence and deleted otherwise, once for each time it is listed. |
| `DeletionReview.StepKeepsStepInv` | packages/infrastructure/personal_brain_infra/persistence/authoritative_store.py:829-1014 | Every creation and resolution keeps item and plan in step. |
| `DeletionReview.StepKeepsActionInv` | packages/infrastructure/personal_brain_infra/persistence/authoritative_store.py:675-808 | Every step keeps a plan's action rows empty before and complete after its execution. |
| `DeletionReview.ItemsAndPlansInStep` | packages/infrastructure/personal_brain_infra/persistence/authoritative_store.py:829-1014 | In every run: open with pending/preview, approved with confirmed/completed, rejected with rejected/preview, resolved with expired/preview, and exactly the listed targets and dependents of approved plans have action rows: one delete row per target, and one row per dependent, which recomputes evidence and deletes anything else. |
| `DeletionReview.StepKeepsHistory` | packages/infrastructure/personal_brain_infra/persistence/authoritative_store.py:675-808 | Every step keeps one reconciliation per executed plan, all action rows in that order, and exactly what these rows retire retired; only an execution adds to any of them. |
| `DeletionReview.RetiredExactly` | packages/infrastructure/personal_brain_infra/persistence/authoritative_store.py:716-748 | The retired records are exactly the listed ones of executed plans whose table can be tombstoned. |
| `DeletionReview.NothingRetiredUnconfirmed` | packages/infrastructure/personal_brain_infra/persistence/authoritative_store.py:409-418 | In every run the retired records are exactly those that a plan lists whose own item the owner approved: nothing is purged before confirmation. |
| `DeletionReview.ExecutionIsApprovedOnce` | packages/infrastructure/personal_brain_infra/persistence/authoritative_store.py:675-808 | Action rows appear only by the approval of an open item at its version before its expiry, and never a second time for a plan. |
| `DeletionReview.FirstResolutionDecides` | packages/infrastructure/personal_brain_infra/persistence/authoritative_store.py:829-1014 | In every run the first resolution of a plan only expires it from 900 seconds on; before, a wrong version changes nothing, an approval executes it on exactly what was requested, and a rejection closes it. |
| `DeletionReview.ExecutedStays` | packages/infrastructure/personal_brain_infra/persistence/authoritative_store.py:687-693 | An executed plan stays executed with the same action rows. |
| `DeletionStrays.StrayExecutesAnyPreview` | packages/infrastructure/personal_brain_infra/persistence/authoritative_store.py:387-407 | A hand-made confirmation that names a plan not yet executed executes it on approval, beside an own item that is open, rejected or expired and stays so. |
| `DeletionStrays.StrayInputs` | packages/infrastructure/personal_brain_infra/persistence/authoritative_store.py:387-407 | The three inputs: within its fifteen minutes a hand-made confirmation deletes the target of an unanswered, a rejected and an expired plan. |
| `DeletionStrays.StrayKeepsStepIff` | packages/infrastructure/personal_brain_infra/persistence/authoritative_store.py:829-1014 | A hand-made confirmation leaves plans and their own items in step in every later run if and only if it names no stored plan or one already executed. |
| `DeletionStore.ReviewStore.CreateDeletionPlan` | packages/infrastructure/personal_brain_infra/persistence/authoritative_store.py:409-551 | Writes a pending preview plan that lists exactly the targets and every declared or discovered dependent, and its open item; nothing is retired. |
| `DeletionStore.CollectActions` | packages/infrastructure/personal_brain_infra/persistence/authoritative_store.py:699-706 | The collected rows delete every target, recompute every evidence dependent and delete every other, with no row missing, doubled or extra. |
| `DeletionStore.ReviewStore.ExecutePlan` | packages/infrastructure/personal_brain_infra/persistence/authoritative_store.py:675-808 | Executes a plan that is still a preview, with exactly the action rows of its targets and dependents, and refuses any other. |
| `DeletionStore.ReviewStore.ConfirmPlan` | packages/infrastructure/personal_brain_infra/persistence/authoritative_store.py:872-886 | Closes a plan that is still pending and no other. |
| `DeletionStore.ReviewStore.ResolveReviewItem` | packages/infrastructure/personal_brain_infra/persistence/authoritative_store.py:829-1014 | The branches of a resolution, expiry first, refine the step of the state machine; an error changes nothing. |
| `ConflictScan.ReportKeepsInv` | apps/worker/personal_brain_worker/evolution.py:283-311 | Reporting a pair that is not known keeps one row per pair and an open item for each undecided row, and makes exactly that pair known. |
| `ConflictScan.EveryConflictIsKnown` | apps/worker/personal_brain_worker/evolution.py:246-263 | Under the invariant the known pairs include every conflict row there is. |
| `ConflictScan.DecisionKeepsInv` | packages/infrastructure/personal_brain_infra/persistence/authoritative_store.py:969-993 | A verdict decides the row of its pair, so that no undecided row loses its item. |
| `ConflictScan.ScanKeepsInv` | apps/worker/personal_brain_worker/evolution.py:274-311 | A whole scan keeps the invariant. |
| `ConflictScan.FindingsNameOpposites` | apps/worker/personal_brain_worker/evolution.py:274-300 | Every finding names a candidate and an accepted claim of one non-empty topic and opposite polarity; where all claims agree there is none. |
| `ConflictScan.OneConflictPerPairEver` | apps/worker/personal_brain_worker/evolution.py:246-318 | In every run of scans, verdicts and other items each unordered pair has at most one conflict row ever. |
| `ConflictScan.Scanner.ScanCandidate` | apps/worker/personal_brain_worker/evolution.py:280-312 | Each new row names the candidate and an accepted claim of its topic and of the opposite polarity; afterwards the pair of the candidate with every such claim is known. |
| `ConflictScan.Scanner.Scan` | apps/worker/personal_brain_worker/evolution.py:228-314 | Each new row names a candidate and an accepted claim of one topic that is not under review, of opposite polarity, those of a topic from a single candidate; a scan over claims of one polarity opens nothing; below the cap every contradiction is under review, reported or known; the number of items, in all and per topic, is exact. |
| `ConflictScan.OneItemPerTopicIff` | apps/worker/personal_brain_worker/evolution.py:264-312 | A topic gets at most one item if and only if the first candidate that finds something under it, if its turn comes, finds exactly one; an open topic gets none. |
| `ConflictScan.CapOverrun` | apps/worker/personal_brain_worker/evolution.py:274-276 | A scan that reaches the cap opens at most 199 items plus all that its last reporting candidate has. |
| `ConflictScan.CreatedIsTotalAtCrossing` | apps/worker/personal_brain_worker/evolution.py:274-276 | A scan opens all that the leaders of the topics have, or what they have in all at the row where that total first reaches 200. |
| `ConflictScan.CapHoldsIff` | apps/worker/personal_brain_worker/evolution.py:274-276 | A scan opens at most 200 items if and only if the leaders have at most 200 in all, or exactly 200 up to some row. |
| `ConflictScan.OneCandidateOpensAll` | apps/worker/personal_brain_worker/evolution.py:264-312 | One candidate against n opposite claims opens n items, for one topic and in one scan, which a scan of 500 rows allows up to 499. |
| `ConflictScan.Scanner.Resolve` | packages/infrastructure/personal_brain_infra/persistence/authoritative_store.py:969-993 | A verdict on an open conflict item is written to the undecided rows of its pair. |
| `Money.CurrencyPattern` | packages/domain/personal_brain_domain/records/expenses.py:18-18 | The pattern matches exactly three capitals, with or without a final line feed. |
| `Money.DigitCountBounds` | packages/domain/personal_brain_domain/records/expenses.py:64-70 | The digit count of a coefficient is at most n if and only if it is below ten to the n. |
| `Money.AcceptedExactly` | packages/domain/personal_brain_domain/records/expenses.py:60-73 | Any amount is accepted if and only if it is finite, has an exponent from -4 to 0, is a positive number of ten-thousandths below 10^20, and is not a whole amount written with more than sixteen digits. |
| `Money.WidthRefusesTrailingZeros` | packages/domain/personal_brain_domain/records/expenses.py:64-71 | A whole amount with trailing zeros is refused although the same amount written shorter is accepted. |
| `Money.AcceptedValues` | packages/domain/personal_brain_domain/records/expenses.py:60-73 | The accepted values are exactly those from 0.0001 to 10^16 - 0.0001 that numeric(20,4) holds. |
| `Money.FormatIsExact` | apps/server/personal_brain_server/api/authorized_tools.py:72-79 | The four-decimal text of an accepted amount reads back as the same amount. |
| `Money.PrintedAmountAcceptedAgain` | packages/domain/personal_brain_domain/records/expenses.py:60-73 | Sent back, that text is accepted if and only if the amount is not whole or is below 10^12. |
| `Money.AggregateNetByCurrency` | packages/domain/personal_brain_domain/records/expenses.py:86-92 | One total per occurring currency, the sum of its expenses less its refunds and adjustments. |
| `Money.NetIsSpentLessReturned` | packages/domain/personal_brain_domain/records/expenses.py:86-92 | The net of a currency is the sum of its expenses less the sum of all its other entries. |
| `Money.NetSplits` | packages/domain/personal_brain_domain/records/expenses.py:86-92 | The net of a concatenation is the sum of the nets. |
| `Money.NetIgnoresOrder` | packages/domain/personal_brain_domain/records/expenses.py:86-92 | Totals do not depend on the order of the entries. |
| `ExpenseStore.AddKeepsInv` | packages/infrastructure/personal_brain_infra/persistence/authoritative_store.py:1958-2113 | An add opens a new chain and keeps rows and ledger in balance. |
| `ExpenseStore.CorrectKeepsInv` | packages/infrastructure/personal_brain_infra/persistence/authoritative_store.py:2137-2296 | A correction, from whatever it read earlier, keeps rows and ledger in balance. |
| `ExpenseStore.RunKeepsInv` | packages/infrastructure/personal_brain_infra/persistence/authoritative_store.py:1958-2296 | In every run the books balance and each row tells the same expense for ever. |
| `ExpenseStore.OneActiveRowPerChain` | packages/infrastructure/personal_brain_infra/persistence/authoritative_store.py:2186-2257 | Each correction chain has exactly one active row, whose version is one plus the corrections, with the latest amount. |
| `ExpenseStore.SummaryFollowsLedger` | packages/infrastructure/personal_brain_infra/persistence/authoritative_store.py:1254-1271 | Each currency total is the sum of the chains' latest amounts; every stored amount is positive and fits the column; one row per completed key. |
| `ExpenseStore.RetryAnswer` | packages/infrastructure/personal_brain_infra/persistence/authoritative_store.py:2152-2176 | In every run a retry of a committed correction gets the stored outcome if it read the row before the commit, and NOT_FOUND otherwise; nothing changes either way. |
| `ExpenseStore.RetryIsNotFound` | packages/infrastructure/personal_brain_infra/persistence/authoritative_store.py:2152-2160 | Every request that reads after a committed correction of the row is NOT_FOUND. |
| `ExpenseStore.CorrectedOnce` | packages/infrastructure/personal_brain_infra/persistence/authoritative_store.py:2184-2193 | Two corrections of one row never both commit, whatever they read and when. |
| `ExpenseStore.CorrectionCommitsIff` | packages/infrastructure/personal_brain_infra/persistence/authoritative_store.py:2152-2257 | In every run a correction under a new key with an acceptable amount commits if and only if the row was there when read, is still uncorrected at the commit, and the transaction does not fail; then the old row is retired and the new one has the new amount, the same currency and the next version. |
| `ExpenseStore.LineFeedIsRefusedByColumn` | packages/infrastructure/personal_brain_infra/persistence/authoritative_store.py:2045-2049 | An accepted add under a new key fails if and only if the transaction aborts or the currency ends in a line feed. |
| `ExpenseStore.AddCommitsIff` | packages/infrastructure/personal_brain_infra/persistence/authoritative_store.py:1958-2113 | An add under a new key is stored if and only if its amount is acceptable, its currency is three capitals and the transaction does not fail; the row is active, of version one, with exactly that amount and currency. |
| `ExpenseStore.Store.AddExpense` | packages/infrastructure/personal_brain_infra/persistence/authoritative_store.py:1958-2113 | The add, through the four-decimal text, refines the step on values and keeps the balance. |
| `ExpenseStore.Store.CommitCorrection` | packages/infrastructure/personal_brain_infra/persistence/authoritative_store.py:2168-2296 | The guarded second transaction refines the step on values and keeps the balance. |
| `ExpenseStore.Store.Summary` | packages/infrastructure/personal_brain_infra/persistence/authoritative_store.py:1254-1271 | Totals and record counts, for all currencies or one, are those of the ledger, for exactly the currencies with a record. |
| `Scheduler.DueFromItsMinuteOn` | apps/worker/personal_brain_worker/scheduler.py:60-61 | The comparison of hour and minute pairs means: from the scheduled minute on, until the local day ends. |
| `Scheduler.PrunedDaysAreOver` | apps/worker/personal_brain_worker/job_handlers.py:319-329 | A scheduled job can be pruned only when its local day is over. |
| `Scheduler.TickKeepsInv` | apps/worker/personal_brain_worker/scheduler.py:91-127 | A tick enqueues only keys that were never enqueued before. |
| `Scheduler.StepKeepsInv` | apps/worker/personal_brain_worker/scheduler.py:91-127 | Ticks, pruning, workers and other inserts keep every enqueued key in the table until its day is over. |
| `Scheduler.AtMostOnePerDay` | apps/worker/personal_brain_worker/scheduler.py:91-127 | In every run at most one job per owner, job type and local day is ever enqueued. |
| `Scheduler.ExactlyOneAfterTick` | apps/worker/personal_brain_worker/scheduler.py:91-127 | After a tick past the throttle at or after the scheduled time, exactly one has been. |
| `Scheduler.JobTable.PruneRebuildable` | apps/worker/personal_brain_worker/job_handlers.py:319-329 | Removes exactly the owner's succeeded and cancelled jobs finished more than thirty days ago. |
| `Scheduler.PrunedExactly` | apps/worker/personal_brain_worker/job_handlers.py:319-329 | Counted row by row: a job is dropped exactly if it is the owner's, succeeded or was cancelled, and finished more than thirty days ago; every other row stays. |
| `Scheduler.PeriodicScheduler.Tick` | apps/worker/personal_brain_worker/scheduler.py:91-127 | Throttled, aborted or committed: what each does to the table and to the last tick. |
| `Sessions.AcceptedExactly` | apps/server/personal_brain_server/protocols/mcp_dispatcher.py:116-122 | The table accepts a token if and only if it is among the last max_sessions registrations and within its TTL, and never exceeds max_sessions. |
| `Sessions.RegisterKeepsInv` | apps/server/personal_brain_server/protocols/mcp_dispatcher.py:71-81 | Purging, evicting and adding leave the last registrations without some expired ones. |
| `Sessions.RefusedForGood` | apps/server/personal_brain_server/protocols/mcp_dispatcher.py:116-122 | A session once refused stays refused. |
| `Sessions.Dispatcher.MakeRoom` | apps/server/personal_brain_server/protocols/mcp_dispatcher.py:76-78 | Evicting the oldest leaves the newest max_sessions - 1; a bound below one is an error on an empty table. |
| `Sessions.Dispatcher.RegisterSession` | apps/server/personal_brain_server/protocols/mcp_dispatcher.py:71-81 | A registration enters the log and the table and keeps the invariant. |
| `Sessions.Dispatcher.CheckSession` | apps/server/personal_brain_server/protocols/mcp_dispatcher.py:116-122 | The check accepts exactly the deserved tokens and drops an expired one. |

## Left out

- Authentication, OAuth and grants: an authority check is a flag that may abort a request.
- SQL text, dialects, UUID generation, hashing and encryption: ids are fresh, digests and uuid5 keys injective, ciphertext is a length.
- Tokenisation, normalisation, polarity and secret patterns: token sets, normal forms, polarity and topics are given with the texts; the Jaccard and threshold rules on them are modelled.
- Model gateway, embeddings, extraction and digest text: vectors and distances are given.
- HTTP, stdio, git, workspace scanning, storage and deployment: input and output only.
- In-memory doubles of the tools and record-building domain files: nothing hard to state.
- Floating point: scores, distances and delays are reals; cosine closeness is stated without the square root.
- `find_duplicate`, promotion, retention sweep (with the lifecycle word `established` it writes), digest and notification handlers: easy members beside the scans that are modelled.
- `reconcile_deletion` and the job recheck: they repeat deletions and authority reads per action row.
- Notification jobs of review items, audit rows outside the idempotent commit, timestamps such as `updated_at` and `valid_to`.
- DedupeSweep.SweepConserves: evidence summaries and lists of merged ids are sets, so their order is not modelled.
- DedupeHandler.Session.CompareVectors: one card per claim; several model versions of a claim's card are not modelled, and on databases other than PostgreSQL there are no vectors at all.
- JobQueue.StepKeepsInv: jobs are not removed by pruning here.
- JobPoller.JobTable.ClaimReadyJobs: rows of equal priority and availability may come in any order.
- JobPoller.JobTable.Poll: an undisturbed worker; interleavings of several pollers are the subject of `JobDiscipline`.
- Idempotency.CommitKeepsInv: two transactions racing for one key are serialised by the unique constraint and are modelled in that order.
- OfflineQueue.ExactlyOnceInOrder: the function `send` belongs to the caller of `replay`; it is taken to report completed or replayed only for an accepted or replayed answer, conflict only for a conflict, and every other answer, a deleted key included, as uncertain.
- IndexedQueue.LeasedQueueConverges: one poller, as for convergence itself; a batch holds each job once, which its distinct rows and one owner per job assure.
- IndexConvergence.DrainedQueueHasConverged: covers the direct paths of notes, todos and expenses; raw-source cards of expenses removed by a deletion plan are not included.
- DeletionStrays.StrayKeepsStepIff: approving a confirmation whose plan id cannot be read fails in the code and closes the item in the model; no plan changes either way.
- SearchCards.CardStore.Index: texts, scopes and sensitivities of cards are not modelled; an inadmissible sensitivity is a flag.
- DeletionStore.ReviewStore.ExecutePlan: the retired targets are recorded as a set; retiring raw sources, recomputing evidence, the reconcile job and the idempotency key of the resolution are not modelled.
- ConflictScan.Scanner.Resolve: the expected version and the idempotency key of the resolution are not modelled; conflict items carry no expiry.
- ExpenseStore.Store.AddExpense: text fields, raw sources and index jobs are not modelled; client failures and refused columns are one abort.
- ExpenseStore.Store.Summary: the filter is taken as already in capitals.
- Scheduler.PeriodicScheduler.Tick: a fixed offset from UTC, so no daylight-saving change; the advisory lock makes a tick one step.
- Sessions.Dispatcher.CheckSession: the checks of the request's form and identity before it are not modelled.

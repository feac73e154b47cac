# Stonewrit: a verified model of the hash chain, the sealer and the verifiers

Stonewrit accepts events into a queue, seals them into one hash chain per environment and shard
under a row lock, and lets three verifiers re-check those chains: the core verifier, the server's
chain route, and the offline bundle verifier. This project models those parts in Dafny and proves
what they promise, for every input and every interleaving.

`dafny verify dfyconfig.toml` checks the whole project.

## How the model is laid out

* **Hashing and verification.** `HashChain` (pre-image, event hash, parsing), `Content` (the event
  schema, its JSON form with `omitempty`, the content payload), `Verification` (`VerifyEvent`,
  `VerifyChain` as loops against a specification), `TamperEvidence` (the reduction to a collision),
  `Payloads` (the same for contents).
* **The protocol.** `Tables`, `Sealing` (first-occurrence dedupe, then a fold of the event hash) and
  `Protocol`: accept calls and sealer transactions as steps over committed tables, every statement
  reading the latest committed state, every commit atomic, any number of calls and sealers in any
  order. `Invariants`, `JournalFacts`, `Preservation`, `CommitStep` and `Safety` show that the
  invariant holds in every reachable state; `Conservation`, `History`, `Idempotency`, `Ordering`,
  `Batching`, `StoredVerification` and `Receipts` (what rows and answers carry of the requests) draw the
  consequences.
* **The code itself.** `Database` (a class whose methods are the SQL queries, the
  semantics of single statements), `Sealer`
  (`SealShard`, `dedupePending`, `dedupeUUIDs`, the link loop) and `Ingest` (`Accept`) change tables
  statement by statement; `SealRuns` and `Refinement` show that each call, uninterrupted, is a run of
  the protocol, so everything proved of all runs holds of the code.
* **The other verifiers and the export.** `ServerChains`, `ChainRoute`, `Bundle`, `BundleOrder`
  (when a report depends on the order of the events), `BundleProperties`, `Export`, `Reads` (two
  statements that see different states), `EndToEnd`. `SmallRuns` accepts and seals single events; from
  these, `MetadataLoss` builds runs that end with rows that do not verify, and `Races` runs in which a
  sealer commits between the two queries of an export.
* **Control mapping.** `Classification`, `ControlMapping`, `Catalog`.
* `Sequences`, `Sorting`, `Shard` and `Wrappers` are shared.

Proofs hide the bodies of functions that a step does not need (`hide F;`).

## What is assumed

* **Digest.** SHA-256 is a parameter: any function from strings to 64 lower-case hex characters. It is
  never assumed injective. A collision is always a pair that a comparison of two chains, or of two
  contents, names; "some pair collides" is true of every such function and would say nothing.
* **Canonical JSON** (section 3.2 of RFC 8785) is a deterministic function that may fail. Only
  `PayloadHashCommits`, `SameTipSameContent` and `OnlyKeptContentVerifies` require it to be injective,
  and say so.
* **Tenancy.** Accept hashes the caller's project, the sealer writes the chain's project. Where it
  matters, theorems require that a caller acts for the organization and project owning the environment
  (`ContentKept`, `Tenancy`).
* **Metadata** is absent or non-empty, where stated (`MetadataStorable`).
* **Reads.** Every statement reads the committed state of its own moment. An export's query for the
  events and its later query for the chains, and the chain route's two reads, therefore see two states
  of a run, and the theorems about them take both (`s`, and a later `t`).
* **Rulesets.** `Compute` does not panic when every rule reference has a colon (`WellFormedRules`); the
  exact condition is in its contract.
* **Shards.** The shard count and the environments do not change during a run; identifiers that the
  system generates are new.
* JSON objects are records whose left-out members are `None`; times are integers in nanoseconds;
  UUIDs are identifiers compared for equality; positions are unbounded integers.
* `drained`, in the protocol's state, is a history variable: no step depends on it.

## Where the code does not keep its promise

Each of these has an exact condition, proved in both directions, and, where a run or an input is
needed to show the failure, one that shows it. Where a digest could hide the failure by colliding, the
statement names the colliding pair.

* **Metadata.** A present-but-empty metadata map is hashed at accept and dropped by `omitempty` on
  storage. Content comes back as hashed exactly when metadata is not such a map and the project is the
  hashed one (`PayloadSurvivesStorage`); so a pending row verifies exactly when its metadata is storable
  (`PendingEventsVerify`, `OnlyStorablePendingVerifies`), and a journal row exactly when, besides, the
  project is the environment's (`SealedEventsVerify`, `OnlyKeptContentVerifies`).
  `EmptyMetadataPending` and `EmptyMetadataSealed` give the runs.
* **Answers without an event.** A caller that claims an idempotency key and fails before its insert
  leaves a 202 answer for an event that never exists (`ReplayWithoutEvent`, `FailedEventNeverAppears`);
  an answered event exists exactly when the claiming call was accepted (`AnsweredEventExists`), which is
  so in every run in which no call fails between its claim and its insert (`SettledAnswersHaveEvents`).
  An insert that commits while its caller sees an error counts as accepted: the event exists.
* **Erased chains.** The bundle verifier compares a chain with its published tip only when the bundle
  has an event of that chain: erasing every event of a chain goes unnoticed (`ErasedChainUnnoticed`);
  published tips are all backed exactly when every chain with a tip has an event
  (`TipsReachedExactly`).
* **Order of events.** The bundle verifier sorts by position with an unstable sort. Call a position of a
  chain disputed when two of its events differ in payload hash or event hash. The report is the same for
  every order of the events exactly when, in each chain, there is no disputed position or the events
  below the least one do not walk (`ReportOrderIndependent`, `UndecidedBundleHasTwoReports`).
  As for validity alone: a bundle can be reported valid exactly when every chain with events walks, in
  some order, to its published tip (`CanPassExactly`); such a bundle can also be reported invalid
  exactly when some chain has a disputed position (`HoldingBundleIsValid`, `HoldingBundleCanFail`).
  `TiesAreAmbiguous` is a bundle of this kind.
* **Partial exports.** A bundle is valid when every chain is exported whole or not at all
  (`WholeExportIsValid`), and invalid when the export window cuts a chain (`PartialExportIsInvalid`).
* **Racing reads.** The export transaction is READ COMMITTED (server/internal/workers/generate_export.go:52),
  so a sealer may commit between the query for the events and the one for the chains. When the window
  covers the project, the bundle is valid exactly when no non-empty chain of the project moved in between
  (`FullExportVerifies`, `MovedChainIsInvalid`); `RacedReads` and `RacedExportIsInvalid` build a run in
  which one did. The chain route reads the chain row before the events
  (server/internal/routes/chains.go:105-132): every row that it walks holds, and it answers valid exactly
  when the chain did not move or was already as long as the limit (`RouteAcrossReads`).
* **Arbitrary previous hashes.** Two previous hashes admit one pre-image with two readings exactly when
  one of them, followed by a colon, properly begins the other (`PreimageAmbiguousExactly`). No two
  previous hashes of a chain walk do (`LinksAreNotConfusable`, `PreimageUnambiguous`), but
  `VerifyEvent` takes the stored one as it is: two such events verify under one event hash
  (`ConfusableEventsVerify`), and otherwise one event hash means one event (`HashCheckCommits`).

The catalog filter is right as it is used. Its helper, taken alone, keeps exactly the pairs in the
catalog if and only if no proposed pair outside the catalog has the key of a resolved one
(`KeepsCatalogPairsExactly`); the split at the first colon rules such pairs out (`KeysAreUnambiguous`,
`PipelineKeepsCatalogPairs`).

server/internal/shard/shard.go:3-6 describes routing by actor id; the accept path routes by external
id first (server/internal/ingest/accept.go:70-74), and the model follows the code.

## Model

| member | source | states |
|---|---|---|
| HashChain.DecimalInjective | core/chain.go:48 | no two positions have the same decimal form |
| HashChain.DecimalExactly | core/chain.go:48 | the position is written as the base-10 numeral without padding that reads back to it, and no other string is |
| HashChain.EventHashText | core/chain.go:43-50 | the event hash is sha256: and the digest of previous hash, colon, payload hash, colon, numeral, with genesis for an empty previous hash |
| HashChain.PreimageExamples | core/chain.go:43-48 | three pre-images written out: at the start, after a hash, at a negative position |
| HashChain.PreimageUnambiguous | core/chain.go:43-48 | for a previous hash that is empty, genesis or an event hash, and any payload string and position, the concatenation determines all three parts, up to empty standing for genesis |
| HashChain.PreimageAmbiguousExactly | core/chain.go:43-48 | two previous hashes of any shape share a pre-image with different readings if and only if one of them, followed by a colon, is a proper beginning of the other |
| HashChain.LinksAreNotConfusable | core/chain.go:43-48 | no two previous hashes of a chain walk are such a pair |
| HashChain.PreimageAmbiguousForArbitraryPrevious | core/chain.go:48 | a pair of previous hashes that is |
| Content.BuildContentPayload | core/payload.go:33-60 | each of the fourteen members holds its own field of the content, the times as whole milliseconds, and is left out exactly when the content leaves it out |
| Content.PayloadCommits | core/payload.go:33-60 | two contents have one payload if and only if they have the same organization, project, environment and event, and the same whole milliseconds |
| Content.EventMembers | spec/event.go:9-74 | every JSON member of an event carries the field of its own name, the optional ones exactly when not empty |
| Content.JsonRoundTrip | spec/event.go:9-21 | encoding and decoding an event changes nothing but a present-but-empty metadata map, which becomes absent |
| Content.PayloadSurvivesStorage | server/internal/sealer/sealer.go:446-450 | after any number of storage trips the payload is the hashed one if and only if metadata is storable and the project is unchanged |
| Content.ReceivedAtSurvives | core/time.go:17-23 | truncation goes down to the whole millisecond, and a column down to the whole microsecond; so a truncated receive time is stored unchanged and hashes unchanged |
| Payloads.PayloadHashCommits | core/chain.go:25-32 | equal payload hashes mean equal payloads, or two canonical forms with one digest |
| Payloads.PayloadHashText | core/chain.go:25-32 | the payload hash is sha256: and the digest of the canonical form, and missing exactly when there is none |
| Payloads.SameTipSameContent | core/verify.go:124-135 | chains that verify with contents and share a tip have equal payloads at every position, or a collision is named |
| Verification.VerifyEvent | core/verify.go:41-73 | valid if and only if the event hash recomputes, the previous hash is null exactly at position 1 and never empty, and the payload hash recomputes; every check and computed value is exact |
| Verification.VerifyChain | core/verify.go:99-143 | the chain is valid if and only if every record continues it; the records before the break do, the one at the break does not, and the break names its position, the first check that fails, and the expected and the stored value of that check |
| Verification.VerdictTells | core/verify.go:99-143 | the same of every verdict that meets the specification, those in bundle reports included |
| Verification.WalkExactness | core/verify.go:99-143 | a prefix verifies as a chain of its own if and only if it is no longer than the verified count |
| Verification.VerdictUnique | core/verify.go:99-143 | records have one verdict, valid if and only if all of them walk |
| Verification.HashCheckCommits | core/verify.go:45-52 | two records that pass the event hash check with one event hash have the same previous hash, payload hash and position, unless their stored previous hashes share pre-images or a collision is named |
| Verification.ConfusableEventsVerify | core/verify.go:45-70 | conversely stored previous hashes that share pre-images admit two different events that both verify under one event hash, whatever the digest |
| Verification.LocalChecksImplyWalk | core/verify.go:41-73 | valid events with adjacent links, the first at position 1, are a valid chain |
| Verification.WalkImpliesLocalChecks | core/verify.go:99-143 | in a valid walk whose first record alone is at position 1 and alone lacks a previous hash, every event is valid by itself |
| TamperEvidence.SameTipSameChain | core/verify.go:99-143 | two non-empty verified chains with one tip have equal length and agree on payload hash, position and event hash throughout, or the comparison names two different pre-images with one digest |
| TamperEvidence.ChangePropagates | core/verify.go:99-143 | verified chains that differ at one event differ in every later event hash, or a collision is named |
| Shard.IndexFor | server/internal/shard/shard.go:17-27 | the key's hash modulo the count, 8 when the count is not positive, and the random draw for the empty key; in range |
| Shard.RoutingDeterministic | server/internal/shard/shard.go:17-27 | a non-empty key has one shard |
| Sealing.FirstOccurrencesAppend | server/internal/sealer/sealer.go:618-647 | deduplicating a queue in two batches keeps what one pass keeps |
| Sealing.KeptExternals | server/internal/sealer/sealer.go:618-647 | an external id other than the empty string is carried by a kept row if and only if it is carried by some row and was not seen before |
| Sealing.KeptAreDistinct | server/internal/sealer/sealer.go:618-647 | no external id is kept twice |
| Sealing.LinkRowsAppend | server/internal/sealer/sealer.go:216-249 | linking rows in two batches is linking them in one, when the second starts at the first one's tip |
| Sealing.SealedLogExtends | server/internal/sealer/sealer.go:189-249 | sealing one more batch continues the one-pass log of everything drained |
| JournalFacts.LookUpIsOwnHistory | server/internal/sealer/sealer.go:602-616 | looking up external ids in the environment's journal finds exactly those that this shard's own queue delivered |
| Safety.StepKeepsInv | server/internal/sealer/sealer.go:146-346 | every step of every accept call and sealer keeps the invariant |
| Safety.ReachableInv | server/internal/sealer/sealer.go:108-141 | the invariant holds in every reachable state, with any number of sealers and calls in flight |
| Safety.JournalUnique | server/migrations/0001_core_ingest.up.sql:189-193 | event ids, and external ids within an environment, are unique in the journal |
| Safety.CopyAlwaysSucceeds | server/internal/sealer/sealer.go:189-205 | no shard wedges: whatever other sealers committed since the look-up, the copy of a batch breaks no unique index |
| ServerChains.ChainsAreWellLinked | server/internal/sealer/sealer.go:216-306 | in every reachable state a chain's events have positions 1 to latest_position once each, each links to its predecessor, previous hash is null exactly at position 1, and the stored tip is the last hash, null exactly when there is none |
| ServerChains.ServerChainWalks | core/verify.go:99-143 | every chain of every reachable state verifies under the core verifier |
| Conservation.AcceptedIsConserved | server/internal/sealer/sealer.go:198-214 | an accepted event is pending, or in the journal, or dropped while another sealed event of its environment holds its external id, and exactly one of these |
| Conservation.PlacesAreExclusive | server/internal/sealer/sealer.go:336-342 | pending ids and journal ids are disjoint, belong to accepted calls, and occur once |
| History.RunExtends | server/internal/queries/chains.sql:21-36 | journal, checkpoints, queue histories and idempotency rows only grow along every run |
| History.ChainsAppendOnly | server/internal/sealer/sealer.go:251-306 | along every run a chain's later event list extends its earlier one |
| History.CheckpointsTileEveryChain | server/internal/sealer/sealer.go:309-324 | in every reachable state a chain's checkpoints tile 1 to latest_position without gap or overlap, count their range, and name the event hash at its end |
| History.CheckpointsEndure | server/internal/queries/chains.sql:28-36 | a checkpoint once written keeps its place among its chain's checkpoints in every later state, and there still names the hash of the event at its end |
| History.CheckpointsCarry | server/internal/sealer/sealer.go:313-322 | every checkpoint names a chain of the server, with that chain's environment and the organization and project that own it |
| Idempotency.OneEventPerKey | server/internal/queries/idempotency.sql:6-18 | for one organization and key at most one call ever inserts an event, over all interleavings and payloads |
| Idempotency.OneAnswerPerKey | server/internal/ingest/accept.go:163-215 | all 202 bodies for one organization and key are equal |
| Idempotency.AnsweredEventExists | server/internal/ingest/accept.go:189-238 | an answered event is pending, sealed or superseded if its claiming call was accepted, and nowhere otherwise |
| Idempotency.SettledAnswersHaveEvents | server/internal/ingest/accept.go:181-238 | in a run in which no call fails between its claim and its insert, every answer whose claiming call has settled names an event that is pending, sealed or superseded |
| Idempotency.FailedEventNeverAppears | server/internal/ingest/accept.go:219-238 | the event of a call that failed before its insert appears in no later state |
| Idempotency.ReplayWithoutEvent | server/internal/ingest/accept.go:181-238 | six steps after which a replayed 202 names an event that does not exist |
| Ordering.NoOvertaking | server/internal/queries/pending.sql:10-21 | of two rows of a shard, if both are pending when it is drained and both are ever sealed, the one accepted earlier, or with the smaller id at equal times, has the smaller position, whatever happens in between |
| Ordering.KeptInOrder | server/internal/sealer/sealer.go:622-647 | deduplication keeps the order of the rows it keeps |
| Batching.DrainIsPrefix | server/internal/queries/pending.sql:10-21 | a drain takes exactly the first min(limit, queue length) rows of the shard's queue |
| Batching.QuietRunSealsPrefix | server/internal/sealer/sealer.go:177-249 | at any time of any schedule without new inserts the chain is the one-pass log of its history and a prefix of the queue, and the rest is pending |
| Batching.BatchingDoesNotMatter | server/internal/sealer/sealer.go:156-249 | any two schedules that empty the queue leave the same journal rows, positions, hashes and tip, those of one single batch, whether the chain existed before or is created on the way; only the id of a created chain may differ |
| Batching.RoundShrinksQueue | server/internal/sealer/sealer.go:177-214 | one round on a non-empty queue is possible and removes min(limit, queue length) rows |
| Batching.RoundsEmptyQueue | server/internal/sealer/sealer.go:108-141 | repeated rounds empty the queue, in as many rounds as Rounds says |
| Batching.RoundsIsCeiling | server/internal/sealer/sealer.go:177-181 | that number is the queue length divided by the limit, rounded up |
| StoredVerification.VerifySealed | server/internal/verify/verify.go:77-121 | the verdict and each check are exact for the row's own columns and the content rebuilt from them |
| StoredVerification.VerifyPending | server/internal/verify/verify.go:123-163 | valid if and only if the payload hash recomputes from the stored envelope, and no verdict where it cannot be computed |
| StoredVerification.SealedEventsVerify | server/internal/verify/verify.go:77-99 | in every reachable state every journal row verifies whose request had storable metadata and came from the environment's project |
| StoredVerification.OnlyKeptContentVerifies | server/internal/verify/verify.go:77-99 | conversely a row that verifies had such a request, or its hashed and stored contents collide |
| StoredVerification.PendingEventsVerify | server/internal/verify/verify.go:123-149 | in every reachable state every pending row with storable metadata verifies |
| StoredVerification.OnlyStorablePendingVerifies | server/internal/verify/verify.go:123-149 | conversely a pending row that verifies has storable metadata, or its hashed and stored contents collide |
| MetadataLoss.EmptyMetadataPending | core/payload.go:56-58 | for every request with an empty metadata map, a run of two steps to a pending row that does not verify, or whose contents collide |
| MetadataLoss.EmptyMetadataSealed | spec/event.go:20 | the same run, sealed: a journal row that does not verify, or whose contents collide |
| Database.Database.EnsureShardChainFromEnv | server/internal/queries/chains.sql:6-10 | a missing chain row is created at position 0 for a known environment, an existing one is left alone |
| Database.Database.LockShardChain | server/internal/queries/chains.sql:16-19 | the chain row, unless it is missing or held by another transaction |
| Database.Database.UpdateShardTip | server/internal/queries/chains.sql:21-26 | the row with the id gets the new tip, all others stay |
| Database.Database.InsertChainCheckpoint | server/internal/queries/chains.sql:33-36 | one checkpoint is appended |
| Database.Database.DrainPendingForShard | server/internal/queries/pending.sql:14-21 | rows of the shard, as many as there are or the limit allows, in ascending order of acceptance time and then id, and no row left behind is older than a drained one |
| Database.Database.InsertPendingEvent | server/internal/queries/pending.sql:3-8 | one row is inserted under its id |
| Database.Database.DeletePendingByIds | server/internal/queries/pending.sql:23-25 | exactly the rows with the given ids go |
| Database.Database.ExistingExternalEventIDs | server/internal/queries/events.sql:50-53 | the external ids of the environment's journal among the candidates |
| Database.Database.CopyEvents | server/internal/sealer/sealer.go:251-253 | all rows are appended, or none if and only if a unique index refuses one |
| Database.IndexesHold | server/migrations/0001_core_ingest.up.sql:189-193 | the two unique indexes refuse exactly an id twice, or an external id twice in one environment |
| Database.Database.ClaimIdempotencyKey | server/internal/queries/idempotency.sql:12-18 | the first claim inserts its body, later ones change nothing |
| Database.Database.GetIdempotentResponse | server/internal/queries/idempotency.sql:1-4 | the stored body of the key |
| Sealer.Candidates | server/internal/sealer/sealer.go:594-600 | exactly the external ids of the batch other than null and the empty string |
| Sealer.SelectFirstOccurrences | server/internal/sealer/sealer.go:618-648 | the kept indices ascend and are exactly those of rows without external id, or with one that is neither in the journal nor in an earlier row; the dropped ids are those of the other rows in order |
| Sealer.DroppedExactly | server/internal/sealer/sealer.go:618-648 | an id is dropped if and only if a row with that id is not new |
| Sealer.DedupePending | server/internal/sealer/sealer.go:588-649 | the same, against all external ids in the environment's journal, although only the batch's are looked up |
| Sealer.DedupeUUIDs | server/internal/sealer/sealer.go:659-671 | every id once, in order of first occurrence |
| Sealer.LinkKept | server/internal/sealer/sealer.go:216-249 | the rows are the linked log continued from the stored tip, with the matching running hash and next position |
| Sealer.DeletedIds | server/internal/sealer/sealer.go:339-340 | deleting drained and dropped ids, in either order and without repetition, deletes exactly the batch |
| Sealer.WriteBatch | server/internal/sealer/sealer.go:251-342 | copy, tip, checkpoint and delete all happen, or, if and only if the copy is refused, nothing does |
| Sealer.SealShard | server/internal/sealer/sealer.go:146-355 | the tables stay as they are when the row is missing or held; otherwise some drain of the queue is sealed as the protocol's commit does it, or an unsuccessful copy is rolled back |
| SealRuns.SealIsRun | server/internal/sealer/sealer.go:146-346 | lock, drain, look up and commit without interruption form a run, with this exact final state |
| Refinement.SealShardIsRun | server/internal/sealer/sealer.go:146-355 | in a reachable state a call of SealShard is a run of the protocol, and it never fails on the unique indexes |
| Refinement.AcceptIsRun | server/internal/ingest/accept.go:63-248 | a call of Accept is a run of the protocol with the same tables and the same answer, of no step when it is refused |
| Ingest.Accept | server/internal/ingest/accept.go:63-248 | routes by external id, then actor, then the draw; nothing changes without a canonical form; a key already stored for the organization is answered from its row; otherwise the row under organization and key and the pending row are written, column by column from the request, and the body that is answered is the one stored |
| Receipts.CallsCarry | server/internal/ingest/accept.go:70-90 | in every reachable state a call's payload hash is that of its own scope and event at a whole millisecond, and its shard the one its external id, else its actor, selects |
| Receipts.PendingRowsCarry | server/internal/ingest/accept.go:224-238 | every pending row carries the accepted request of its id, column by column |
| Receipts.JournalRowsCarry | server/internal/sealer/sealer.go:436-552 | every journal row carries the accepted request of its id, column by column, under the environment's project and in the chain of its shard |
| Receipts.AnswersAgree | server/internal/ingest/accept.go:172-179 | every 202 answer, fresh or replayed, agrees in id, payload hash, environment, shard and receive time with the pending row and later the journal row that it names |
| Receipts.StoredAnswersAgree | server/internal/queries/idempotency.sql:1-18 | so does every stored answer, and it is stored under the organization and key of the request that claimed it |
| ChainRoute.WalkRows | server/internal/routes/chains.go:138-171 | the rows before the break continue the chain, a missing previous hash read as empty; the one at the break does not, and the break names the row's id and position, the failing check, and its expected and stored values |
| ChainRoute.VerifyRoute | server/internal/routes/chains.go:118-202 | declined exactly above 10,000 events; otherwise valid if and only if all rows continue the chain and the stored tip is the last hash, or rows and chain row are both empty |
| ChainRoute.RouteAgainstCore | server/internal/routes/chains.go:141-171 | the route accepts exactly the prefixes that the core verifier accepts and whose later rows all store a previous hash |
| ChainRoute.RouteCountAtMostCore | server/internal/routes/chains.go:138-171 | the route's count never exceeds the core verifier's, and equals it when only the first row may lack a previous hash |
| ChainRoute.RouteAcceptsServerChains | server/internal/routes/chains.go:118-202 | on one snapshot of any reachable state every chain within the limit is reported valid to its end |
| ChainRoute.RouteTamperEvident | server/internal/routes/chains.go:173-197 | rows that the route accepts under a reachable chain row are that chain, or a collision is named |
| ChainRoute.RouteAcrossReads | server/internal/routes/chains.go:105-202 | when the events are read later than the chain row, every row still walks; the rows are the chain as it was if and only if it did not move or was as long as the limit, and the answer is valid then, and only then unless a collision is named |
| Reads.LaterChain | server/internal/queries/chains.sql:21-26 | between two reads a chain keeps its id and owner, and its events only grow at the end |
| Bundle.IndexTips | cmd/verify/main.go:105-108 | every chain id maps to its published tip |
| Bundle.TipIsLast | cmd/verify/main.go:105-108 | the published tip of a chain is that of its last entry, and there is none without an entry |
| Bundle.GroupByChain | cmd/verify/main.go:110-113 | each chain id of the events maps to its events in order, and there are no other ids |
| Bundle.VerifyGroup | cmd/verify/main.go:121-152 | the report is the core verdict on some arrangement by position, and the tip matches if and only if the walk is valid and ends in the published tip |
| Bundle.VerifyBundle | cmd/verify/main.go:104-159 | one such report per chain id of the events, in the order of the ids; valid if and only if all are |
| BundleProperties.ReportPartitions | cmd/verify/main.go:110-157 | one report per distinct chain id, and the event counts add up to the number of events |
| Sorting.StringAtMostExactly | cmd/verify/main.go:119 | chain ids are ordered as Go strings: a prefix first, otherwise by the first difference |
| BundleOrder.DecidedGroupHasOneReport | cmd/verify/main.go:123-152 | a chain has one report, whatever order its events come in and the sort leaves, if it has no disputed position or its events below the least one do not walk |
| BundleOrder.UndecidedGroupHasTwoReports | cmd/verify/main.go:123-152 | otherwise two orders of its events give different reports, or show a collision among the strings that verifying them hashes |
| BundleOrder.ReportOrderIndependent | cmd/verify/main.go:110-157 | if that holds of every chain, permuting the events, or listing the tips differently, leaves the whole report as it is |
| BundleOrder.UndecidedBundleHasTwoReports | cmd/verify/main.go:110-157 | if it fails for a chain, the bundle has two different reports, or a collision is named |
| BundleProperties.TiesAreAmbiguous | cmd/verify/main.go:124-126 | a bundle with a disputed position that may be reported valid and may be reported invalid |
| BundleProperties.ValidExactly | cmd/verify/main.go:137-155 | a bundle is valid only if every chain with events walks to its published tip, and exactly then when its report does not depend on the order of the events |
| BundleProperties.CanPassExactly | cmd/verify/main.go:137-155 | a bundle can be reported valid if and only if every chain with events walks, in some order by position, to its published tip |
| BundleProperties.HoldingBundleIsValid | cmd/verify/main.go:137-155 | a bundle whose chains all do is reported valid whatever the order, if no chain has a disputed position |
| BundleProperties.HoldingBundleCanFail | cmd/verify/main.go:123-155 | if one has, such a bundle has an invalid report, or a collision is named |
| BundleProperties.TipsReachedExactly | cmd/verify/main.go:115-122 | a valid report backs every published tip if and only if every chain with a tip has an event in the bundle |
| BundleProperties.ErasedChainUnnoticed | cmd/verify/main.go:115-122 | taking out all events of a chain leaves a bundle that is valid exactly when the other chains hold |
| Export.BuildBundle | server/internal/workers/generate_export.go:166-194 | the bundle is the projection of the listed chains and events, in order |
| Export.ExportHolds | server/internal/queries/exports.sql:12-28 | an export holds exactly the project's events received at or after the start and before the end of the window, by chain and position, and exactly the project's chains, each with its own columns |
| Export.ExportedSorted | server/internal/queries/exports.sql:12-22 | however the bundle's events of a chain are arranged by position, they are the exported part of the server's chain in order |
| EndToEnd.PublishedTip | server/internal/queries/exports.sql:24-28 | an export publishes, of every chain of its project, the tip stored when the chains are read |
| EndToEnd.ValidBundleIsServerChain | cmd/verify/main.go:104-158 | a valid bundle that publishes the tip a chain has in a reachable state carries exactly the server's sequence of that chain, or a collision is named |
| EndToEnd.WholeExportIsValid | server/internal/workers/generate_export.go:134-194 | a bundle in which every chain is exported whole, and did not move between the two queries, or is absent, is valid |
| EndToEnd.PartialExportIsInvalid | server/internal/queries/exports.sql:12-22 | a bundle with only a part of some chain, cut by the window or by a sealer between the two queries, is invalid, or a collision is named |
| EndToEnd.FullExportVerifies | server/internal/workers/generate_export.go:134-194 | an export whose window covers the project is valid if no non-empty chain of the project moved between the two queries, and then every such chain is in the report, verified to its end with a matching tip |
| EndToEnd.MovedChainIsInvalid | server/internal/workers/generate_export.go:134-194 | conversely, if one moved, the bundle is invalid, or a collision is named |
| EndToEnd.SnapshotExportVerifies | server/internal/workers/generate_export.go:134-194 | in particular an export whose two queries see one state is valid and complete |
| Races.RacedReads | server/internal/workers/generate_export.go:51-56 | for every plain request, two reachable states of one run, the second later, in which its chain has one event and then two |
| Races.RacedExportIsInvalid | server/internal/workers/generate_export.go:134-194 | every export of these two states whose window covers the project is reported invalid, or a collision is named |
| Classification.Classify | classify/classify.go:68-139 | the classes are the declared ones and those that actor type and event type add, once each and sorted; the level is high, low or else medium by the declared classes, event type, result and actor type |
| Classification.AssessRisk | classify/classify.go:99-133 | raising step by step ends at the highest level called for |
| Classification.ResultUnique | classify/classify.go:93-97 | an event has one result, whatever the order of map iteration |
| Classification.ClassifyIsIdempotent | classify/classify.go:68-139 | classifying with the classes that came out changes nothing |
| ControlMapping.Matches | classify/packs.go:79-110 | true if and only if every populated dimension is satisfied |
| ControlMapping.Rules | classify/packs.go:164-170 | all rules in order |
| ControlMapping.AllRulesAppend | classify/packs.go:164-170 | each pack's rules come in their own order, after those of earlier packs and before those of later ones |
| ControlMapping.Compute | classify/mapcontrols.go:35-83 | the mappings are the split first hits of the matching rules and then the customer; a panic exactly when a matching rule holds a reference without a colon |
| ControlMapping.ComputedFrom | classify/mapcontrols.go:35-83 | the mappings are, in order, the references that no earlier rule or list entry has, each split at its colon and with the reason of its own rule, or customer_declared; no reference of a matching rule, nor of the customer with a colon, is missing |
| ControlMapping.FirstHitsOwn | classify/mapcontrols.go:47-71 | references are distinct, none is lost, and each keeps the reason of the hit that contributed it first |
| ControlMapping.ComputeTotal | classify/packs_test.go:49-53 | with well-formed rules nothing panics |
| ControlMapping.SplitRejoins | classify/mapcontrols.go:74-80 | a reference joins back from its parts, and the framework holds no colon |
| ControlMapping.JoinUnambiguous | server/internal/resolvecontrols/resolve.go:41-48 | pairs whose frameworks hold no colon have different keys |
| ControlMapping.MappingsDistinct | classify/mapcontrols.go:73-82 | different references give different framework and control pairs |
| Catalog.ResolveAgainstCatalog | server/internal/resolvecontrols/resolve.go:41-52 | in place and in order, the first n elements become the mappings whose framework, colon and control are those of a resolved pair, and the rest of the array stays |
| Catalog.KeysAreUnambiguous | server/internal/resolvecontrols/resolve.go:41-52 | when frameworks hold no colon the filter keeps exactly the pairs present in the catalog |
| Catalog.KeepsCatalogPairsExactly | server/internal/resolvecontrols/resolve.go:41-52 | the filter keeps exactly the pairs in the catalog if and only if no proposed pair outside it has the key of a resolved pair |
| Catalog.ColonAdmitsImpostor | server/internal/resolvecontrols/resolve.go:41-43 | such a pair exists once a framework holds a colon |
| Catalog.PipelineKeepsCatalogPairs | server/internal/ingest/accept.go:98-114 | what Compute proposes and the filter keeps are, in order, the first hits whose pair is in the catalog |

## Left out

- SHA-256 and the JCS library: parameters, as described above.
- HTTP, middleware, validation tags, API keys, agent scope checks, rendering, CLI commands, logging, tickers and pools.
- The request hash that Accept computes for the idempotency row, the row's expiry and its status code: no caller compares or deletes them; an error there is a failed call.
- The descriptive columns of buildEventRow, and the classification and mapping copies of a batch: only id, tenant, external id, content, chain, position and hashes are kept.
- Ingest.Accept: the classification, the mappings and the scope check that it stores beside the event are left out (Classify, Compute and ResolveAgainstCatalog are modelled on their own), and so are error returns other than a missing hash, each of which is a failed call of the protocol.
- Sealer.WriteBatch: the copies of classifications and control mappings in the same transaction are left out; they carry no constraint and no hash depends on them.
- Sealer.SealShard: decode errors of stored JSON and the descriptive columns are left out.
- Export.BuildBundle: descriptive fields, totals and the bundle hash are left out, since the bundle verifier reads none of them.
- Idempotency.FailedEventNeverAppears: speaks of calls that fail before their insert; an insert that commits and is reported as an error is an accepted call here, whose event is conserved like any other.
- Decode errors of stored JSON: envelopes and raw payloads are typed, so the error paths of SealShard, and verifySealed's walk without content when a raw payload does not decode, do not arise.
- jsonb's own normalization of numbers and of text, and HashTime's text form, which is taken to be one-to-one with milliseconds.
- Postgres: only row locks with SKIP LOCKED, atomic commit, unique indexes and per-statement committed reads, as step rules; a sealer that would wait for another one's uncommitted chain row is simply not able to take that step yet.
- Refinement.SealShardIsRun: covers calls that no other call interrupts; interleavings of single statements are covered by the protocol, whose steps are those statements.
- Refinement.AcceptIsRun: likewise covers calls that no other call interrupts.
- Liveness: which shards a tick picks is not modelled; RoundsEmptyQueue says what repeated rounds achieve, not that they happen.
- Shard counts of 2^32 and more, where the conversion to an unsigned 32-bit count would lose bits, and 64-bit overflow of positions.
- sort.Slice and sort.Strings: library code, modelled as any sorted arrangement; the insertion sort in Sorting is one way to obtain it.
- The external Anchorer, signing and storing of the bundle, loading of rule files, and migrations.

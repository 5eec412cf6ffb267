# Verification of the hub's protocols and agreements

This project models the core of the Distr hub in Dafny and proves properties of the model. It states what the Go code
and its SQL do, branch by branch, and what follows over every input, every store and every run. Nothing was executed:
all results are proofs about the model.

Check it with either of

```sh
dafny verify dfyconfig.toml
dafny verify --resource-limit 2000000 --verification-time-limit 0 *.dfy
```

## What is modelled

**The timestamp provenance ledger** (`TimestampManifest`, `TimestampVerification`, `TimestampChecks`,
`TimestampApply`, `TimestampPreflight`, `TimestampSupersession`, `TimestampWrites`, `TimestampRuns`,
`TimestampHistory`, `TimestampLedger`, `TimestampMeaning`, `TimestampExample`, `TimestampFailures`, `TimestampTouch`).
A store of timestamp cells, deletion tombstones and manifests; verification as a predicate and as the loops that
strike cells off two maps; apply as a method whose closing verification is decided by its preflight; live writes as
the pair guard lets them in; and runs of all of these. The document validators come from
`internal/externalexecutiontimestamp/manifest.go`, the guards, triggers and unique indexes from
`internal/migrations/sql/138_external_execution_timestamp_expand.up.sql`.

**The lock and transaction around an apply** (`ApplyLock`, `ApplyLockRuns`). One attempt over one pooled connection
with every failure, uncertain answer and panic, those of the driver's calls included; then any number of appliers
sharing the pool, with connections lost at any moment.

**Step graphs and conditions** (`StepGraph`, `StepValidation`, `Conditions`). The depth-first search over mutated
sets, the API's graph with condition edges, the database's without, and evaluation in topological order.

**Agreement with a simpler thing.** Entitlement closure against transitive containment, and the registry's writes
under it (`Entitlements`, `ArtifactRegistry`, `ArtifactRegistryFailures`); the duplicate-key scanner against the token
grammar of RFC 8259 and against decoding to maps, and YAML against JSON (`JsonScan`, `ConfigDocuments`); structural
projection against embedding (`JsonProjection`); plans stored, read back sorted and canonicalised again
(`DeploymentPlans`, `PlanMeaning`, `PlanRoundTrip`, `Ordering`); the paged backfill against one pass
(`CompatibilityBackfill`); the merged timeline against one sort (`DeploymentTimeline`); blob cleanup and its races
(`BlobCleanup`, `BlobCleanupRaces`); the skip scan against DISTINCT and log retention (`LogRecords`); default channels
over every run (`Channels`).

Among the steps of a ledger run are all updates that the triggers let through, whether or not a statement of the
application makes them. Instants and wall clocks are integers of microseconds, UUIDs are naturals or their text, and
SQL tables are maps, sets or sequences of rows. Where SQL may return ties in any order the theorems hold for every
order. Code that works step by step is a class or a method with the source's fields and loops, proved against a
function or predicate; the properties are lemmas about those. Where the code's own decision stands in such a
predicate, a lemma whose name ends in `Means` or `Decides` says the same in the fields of the rows and of the request,
without naming that predicate's branches (`TimestampMeaning`, `PlanMeaning`, and beside the code elsewhere).

## What the proofs found

Where a promise does not hold as one might state it, the code is modelled as it is and the exact condition is proved.

- The preflight of a first manifest does not look at tombstones: the closing verification then fails exactly when a
  tombstone of a row created before the verification exists (`TimestampApply.RootVerifies`,
  `TimestampFailures.FirstApplyRefused`).
- A superseding apply fails its closing verification exactly when a promoted cell was deleted no earlier than the
  apply's clock reading (`TimestampSupersession.NextVerifies`, `TimestampFailures.SecondApplyRefused`);
  `TimestampRuns.StrictClockSuffices` gives the simple sufficient form.
- New rows are dated by their transaction's start, so a transaction that began before the first verification and
  commits after it leaves a row dated before the baseline (`TimestampFailures.EarlyInsertUnreadies`). While it lives,
  the ledger does not verify until the row's creation pair is rewritten at or after the baseline, which the guard
  allows and no statement of the application does (`TimestampHistory.EarlyRowUntilRedated`,
  `TimestampHistory.RedatingRestores`). Once it is deleted, nothing helps (`TimestampHistory.EarlyTombstoneIsFatal`).
- An `updated_at` that has moved on and comes back exactly to the recorded raw value of a cell not resolved to that
  instant breaks verification; every other touch since the baseline that the guard lets through is harmless
  (`TimestampWrites.TouchHarmless`, `TimestampTouch.TouchBackUnreadies`). A first touch at the recorded value itself
  is refused by the guard (`TimestampWrites.TouchRefused`).
- An apply whose unlock fails, or whose commit answer is lost, reports an error over durable work
  (`ApplyLock.OutcomeMeans`).
- A panic inside the try-lock query or BeginTx that took effect on the server hands back a connection with a lock or a
  transaction, and a panic inside the unlock hands back none (`ApplyLock.RunApplyTransaction`). Mutual exclusion
  survives them all (`ApplyLockRuns.OneWorks`); the rest of the protocol's invariant is lost exactly then
  (`ApplyLockRuns.NextInv`, `ApplyLockRuns.PanicStrands`).
- A top-level array is several documents as JSON and one refused document as YAML (`ConfigDocuments.ArraysDiffer`).
- The database's graph check misses cycles through condition outputs (`StepValidation.DatabaseMissesConditionCycles`).
- A plan for several targets with components keeps its canonical form only when the fresh target row ids happen to
  ascend in target order (`PlanRoundTrip.RoundTrip`, `PlanRoundTrip.DescendingTargetsFail`).
- A server-refused insert aborts the batch's transaction, so an applied backfill either succeeds with no refused
  insert or reports an error and loses that page (`CompatibilityBackfill.Backfill.Run`).
- Blob cleanup can delete a referenced blob even when references are made right after upload and never dropped:
  exactly when the key is uploaded again between being listed and being flushed (`BlobCleanupRaces.HarmNeedsReupload`,
  `BlobCleanupRaces.ReuploadedBlobIsLost`).
- Log retention deletes by timestamp, so a resource keeps fewer records than the limit, down to none, exactly when the
  limit-th newest and the next share a timestamp (`LogRecords.RetentionKeepsNewest`,
  `LogRecords.SharedTimestampLosesAll`).
- The timeline orders tasks of one time by queue order within a page and by id in the merge, so a task tied at the end
  of its page may be left out where one sort of everything would show it (`DeploymentTimeline.MergeIsOneSortExactly`,
  `DeploymentTimeline.QueueAgainstIds`).
- A reference that is a stored digest and also the name of a version with another digest means both
  (`Entitlements.AmbiguousExactly`), and then access need not be downward closed
  (`Entitlements.AmbiguousReferenceFails`). It is, for all entitlements, exactly when the manifests it may mean hold
  each other's parts and lead to each other's children (`Entitlements.BlobsFollowExactly`,
  `Entitlements.ChildrenFollowExactly`). The registry's own pushes and deletions never make such a pair
  (`ArtifactRegistry.AccessClosedOverRuns`); the sync of an upstream tag does exactly when the tag moves to a manifest
  without all of its row's parts, as the upsert never removes parts (`ArtifactRegistry.NextKeeps`,
  `ArtifactRegistryFailures.MovedTagFails`).

## Model

| member | source | states |
|---|---|---|
| TimestampVerification.HistoricalCharacterized | internal/db/external_execution_timestamps.go:2063-2129 | A recorded cell verifies if and only if it still shows what its decision recorded, or is a lifecycle column rewritten with one exact UTC pair since the baseline |
| TimestampVerification.ShadowIffResolved | internal/db/external_execution_timestamps.go:2063-2129 | While the raw value is the recorded one, a verified cell has a shadow exactly when its decision is resolved |
| TimestampVerification.ChainUnique | internal/db/external_execution_timestamps.go:2245-2276 | There is only one supersession chain below a manifest, so every walk from it meets the same manifests |
| TimestampVerification.ChainDistinct | internal/db/external_execution_timestamps.go:2250-2255 | A chain that reaches a root visits no manifest twice, so the walks without a cycle check end |
| TimestampVerification.GroundedDecides | internal/db/external_execution_timestamps.go:2290-2494 | Verification at a manifest is decided by the cells alone once the document, the chain, its promotions and the tombstones are sound |
| TimestampLedger.Ledger.LifecycleBaseline | internal/db/external_execution_timestamps.go:2245-2276 | The walk ends for every store; it succeeds with a complete VERIFIED chain and the root's verification time, and fails only if no such chain exists |
| TimestampLedger.Ledger.PromotionTimes | internal/db/external_execution_timestamps.go:2131-2210 | The promotion walk ends though it checks no cycle; it succeeds if and only if every link promotes soundly, and returns each promoted cell's time |
| TimestampChecks.LinkPromotions | internal/db/external_execution_timestamps.go:2166-2206 | One link adds its promotions at the child's apply time, and is refused exactly for a cell without ancestor or one promoted twice |
| TimestampLedger.Ledger.CheckTombstones | internal/db/external_execution_timestamps.go:1914-2006 | Accepts exactly the tombstone sets in which every deleted row has one authorized tombstone per column from one operation at one time |
| TimestampChecks.GroupsDecide | internal/db/external_execution_timestamps.go:1962-2004 | Grouping tombstones by row and comparing ordinal sets decides completeness of every row |
| TimestampChecks.CheckRecorded | internal/db/external_execution_timestamps.go:2408-2472 | The loop that strikes recorded cells off both maps succeeds exactly when every recorded cell verifies against its one source, and its counters agree with the cells seen |
| TimestampChecks.CheckLater | internal/db/external_execution_timestamps.go:2473-2492 | The leftover loop accepts exactly when every leftover cell is one exact pair of a row created at or after the baseline, and counts them all |
| TimestampChecks.VerifyCells | internal/db/external_execution_timestamps.go:2340-2492 | Both loops together succeed if and only if every recorded and every later cell verifies, and then the report's accounting holds |
| TimestampChecks.CountedPartition | internal/db/external_execution_timestamps.go:2455-2469 | The five headings of the report split the recorded cells: none counted twice, none left out |
| TimestampChecks.StruckHits | internal/db/external_execution_timestamps.go:2408-2492 | Through the deletions from the maps, what is left plus what was struck off is what there was |
| TimestampChecks.HitsOnce | internal/db/external_execution_timestamps.go:2415-2471 | Every verified recorded cell is struck off exactly one of the live and the deleted map |
| TimestampChecks.AccountsHold | internal/db/external_execution_timestamps.go:2387-2492 | The provenance rows are the distinct recorded cells; resolved, unresolved, resolved-deleted, unresolved-deleted and Null cells add up to them, and later pairs are live cells plus tombstones minus provenance rows |
| TimestampChecks.CollectRows | internal/db/external_execution_timestamps.go:2349-2386 | The loop over cells collects exactly the ids of the rows they belong to, table by table |
| TimestampChecks.RowsAccounted | internal/db/external_execution_timestamps.go:2387-2399 | In a verified store the live and the deleted rows of a table, counted by distinct id, together are the manifest's source rows and the rows created later, none counted twice |
| TimestampLedger.Ledger.Verify | internal/db/external_execution_timestamps.go:2290-2494 | Succeeds if and only if the whole store verifies at the manifest, in one statement over the chain, the tombstones and every cell; on success the accounting of cells holds and the execution and event counts add up |
| TimestampMeaning.VerifiedMeans | internal/db/external_execution_timestamps.go:2063-2494 | Along a sound chain a store verifies exactly when, in cells and instants: a recorded cell at its wall clock has the instant its decision gives it, raw minus offset or none; off it, it is an update time, or a start or completion not recorded yet, with one instant since the root's verification; a deleted cell is so too, or was deleted undecided before it was decided; and every cell outside the document, alive or deleted, has raw equal to instant on a row whose creation instant is present and not before that verification |
| TimestampMeaning.UnpairedDefeats | internal/db/external_execution_timestamps.go:2025-2054 | Taking the instant off any one cell with a wall clock that the tip does not list defeats verification |
| TimestampMeaning.TombstonesMean | internal/db/external_execution_timestamps.go:1914-2006 | Sound tombstones cover deleted rows whole, each by one operation at one time, for the reason of organization retention |
| TimestampMeaning.HeadingsMean | internal/db/external_execution_timestamps.go:2408-2472 | Each counter of a report is the number of recorded decisions, made or left open, whose row is alive or deleted |
| TimestampLedger.Ledger.UniqueTip | internal/db/external_execution_timestamps.go:2539-2567 | Returns the only tip exactly when nothing is half prepared and there is at most one |
| TimestampPreflight.CheckSnapshot | internal/db/external_execution_timestamps.go:1678-1724 | Accepts exactly when the document lists the live cells with their raw values and its counts are theirs |
| TimestampMeaning.DecisionMeans | internal/externalexecutiontimestamp/manifest.go:318-378 | A decision is admissible exactly as a missing wall clock, a wall clock left alone, or one read at an offset of at most eighteen hours on named evidence, its instant being raw minus offset |
| TimestampMeaning.DocumentMeans | internal/externalexecutiontimestamp/manifest.go:131-463 | A valid document lists whole rows, each cell once, with every column of an execution and the one of an event, and its counts are those of its rows and wall clocks |
| TimestampMeaning.SupersessionMeans | internal/externalexecutiontimestamp/manifest.go:528-714 | A valid document supersedes another exactly when it names it, covers the same cells over the same window, and keeps every decision but for wall clocks decided at last |
| TimestampMeaning.LineageKeeps | internal/externalexecutiontimestamp/manifest.go:615-714 | Down a whole lineage cells, wall clocks and window never change, and a decision once made stays word for word: offset, instant and evidence |
| TimestampMeaning.SnapshotMeans | internal/db/external_execution_timestamps.go:1678-1724 | A valid document matches the rows exactly when it lists every cell at its wall clock; all four counts then follow |
| TimestampMeaning.RootPreflightMeans | internal/db/external_execution_timestamps.go:2683-2750 | A first manifest passes preflight exactly when the schema waits for one of its size and the rows are, cell for cell, its wall clocks without instants |
| TimestampMeaning.TipsMean | internal/db/external_execution_timestamps.go:2539-2567 | A tip is VERIFIED and superseded by nothing but what was revoked, and the ledger is complete when every manifest is VERIFIED or revoked |
| TimestampLedger.Ledger.RequireRoot | internal/db/external_execution_timestamps.go:2683-2750 | First-manifest preflight succeeds exactly on a matching expand state and snapshot without shadows, and returns the resolved cells |
| TimestampLedger.Ledger.RequireNext | internal/db/external_execution_timestamps.go:2569-2681 | Superseding preflight succeeds exactly when the tip verifies and every promoted cell is promotable, and returns the promoted live cells that still show the recorded value |
| TimestampLedger.Ledger.RequireSnapshotForApply | internal/db/external_execution_timestamps.go:2752-2824 | Preflight as a whole decides the preflight predicate and returns exactly the fill set |
| TimestampLedger.Ledger.DryRun | internal/db/external_execution_timestamps.go:2752-2876 | The dry run counts exactly the shadows an apply would fill, on schema 137 from the snapshot alone |
| TimestampApply.PreflightFillReady | internal/db/external_execution_timestamps.go:2752-2824 | Every cell preflight returns is still unshadowed beside its recorded raw value |
| TimestampLedger.Ledger.FillShadow | internal/migrations/sql/138_external_execution_timestamp_expand.up.sql:461-592 | A shadow update finds its row exactly by the recorded raw value beside a null or equal shadow; of a row it finds, the guard refuses exactly a change without this transaction's provenance, and otherwise one row shows the converted instant and nothing else moves |
| TimestampLedger.Ledger.InsertAndFill | internal/db/external_execution_timestamps.go:3313-3339 | After preflight no fill misses its row: the loop ends with exactly the fill set filled and the manifest stored |
| TimestampApply.RootVerifies | internal/db/external_execution_timestamps.go:2683-2750 | A first manifest that passes preflight passes the closing verification if and only if no tombstone of an earlier row exists |
| TimestampSupersession.LiveCellCarries | internal/db/external_execution_timestamps.go:2063-2129 | A live cell that verified under its old decision verifies under the new one once filled |
| TimestampSupersession.DeletedCellCarries | internal/db/external_execution_timestamps.go:2212-2243 | A deleted cell verifies under the new decision, except a promoted one deleted no earlier than the promotion |
| TimestampSupersession.ResolvedAtTip | internal/externalexecutiontimestamp/manifest.go:645-714 | A cell once resolved is resolved in every later manifest of the chain, so no cell is promoted twice |
| TimestampSupersession.NextVerifies | internal/db/external_execution_timestamps.go:2569-2681 | A superseding manifest that passes preflight passes the closing verification if and only if every promoted deleted cell was deleted strictly before the apply |
| TimestampRuns.PreflightSufficient | internal/db/external_execution_timestamps.go:3307-3372 | Preflight is sufficient: first and superseding manifests alike, whatever the clock, pass the closing verification exactly when it is clear of the tombstones |
| TimestampRuns.StrictClockSuffices | internal/db/external_execution_timestamps.go:2752-2824 | No tombstone before a first manifest, or a clock strictly past every deletion, is enough |
| TimestampRuns.ApplyInsertAllowed | internal/migrations/sql/138_external_execution_timestamp_expand.up.sql:147-150 | The insert of an applied manifest never clashes with another active child of its parent |
| TimestampLedger.Ledger.Apply | internal/db/external_execution_timestamps.go:3239-3383 | Succeeds exactly on an accepted request whose repeat verifies or whose preflight and clock are clear; a repeat succeeds only field by field and decision by decision as stored; a repeat or a failure changes nothing, a commit changes exactly the fill set, the manifest and the clock and reports both counts |
| TimestampLedger.RepeatMeans | internal/db/external_execution_timestamps.go:3028-3053 | A request repeats a stored manifest exactly when no header field and no single decision differs |
| TimestampWrites.InsertKeeps | internal/migrations/sql/138_external_execution_timestamp_expand.up.sql:461-592 | A new row keeps a verified store verified if and only if it is dated at or after the baseline and its id was never deleted |
| TimestampWrites.RewriteKeeps | internal/migrations/sql/138_external_execution_timestamp_expand.up.sql:461-659 | An update that the pair guard and the one-shot trigger let through, creation times included, keeps a verified store verified if and only if each recorded cell it changes may evolve at or after the baseline or lands on its own resolved instant, and no unrecorded row is dated before the baseline |
| TimestampWrites.TouchRefused | internal/migrations/sql/138_external_execution_timestamp_expand.up.sql:535-659 | The triggers refuse a status writer exactly when `updated_at` would change in one half only or a lifecycle column it sets has a stray shadow |
| TimestampWrites.TouchHarmless | internal/db/external_executions.go:229-241 | From the baseline on, a status write the triggers let through harms in exactly one way: `updated_at` has moved off its recorded wall clock and comes back to it, not resolved to that instant |
| TimestampTouch.TouchReadies | internal/db/external_executions.go:229-241 | In a ledger of one execution row, a touch from the baseline on is let through and keeps it ready exactly unless it is at the recorded wall clock |
| TimestampTouch.TouchBackUnreadies | internal/migrations/sql/138_external_execution_timestamp_expand.up.sql:535-592 | A reachable failure: an ordinary touch, then one at exactly the recorded wall clock, which the guard accepts, and the ledger is ready no more |
| TimestampLedger.Ledger.InsertRow | internal/migrations/sql/138_external_execution_timestamp_expand.up.sql:461-592 | A new row is accepted exactly as one exact pair per column under an unused id, and its cells are then the given pairs and no other cell changes; along every chain it then keeps the store verified exactly when dated from the baseline under an id never deleted |
| TimestampMeaning.InsertMeans | internal/migrations/sql/138_external_execution_timestamp_expand.up.sql:461-592 | A row may be inserted exactly with all its columns and no other, each one instant or none, and none only for a start or a completion |
| TimestampMeaning.ChangeMeans | internal/migrations/sql/138_external_execution_timestamp_expand.up.sql:461-659 | A cell changes only to one instant in both halves, each of them new; a start or completion only from nothing |
| TimestampMeaning.FillMeans | internal/migrations/sql/138_external_execution_timestamp_expand.up.sql:461-592 | A pair changes as a whole to one instant, new in both halves, or, with its wall clock unchanged, from no instant to one and only under provenance |
| TimestampMeaning.DeleteMeans | internal/migrations/sql/138_external_execution_timestamp_expand.up.sql:367-447 | A row may be deleted exactly when it is there, none of its columns has a tombstone and the operation is named |
| TimestampLedger.Ledger.Touch | internal/db/external_executions.go:399-412 | Fails exactly where the triggers raise, changing nothing; otherwise `updated_at` becomes the instant in both halves, `started_at` and `completed_at` too where set and still null, and no other cell changes |
| TimestampWrites.DeleteKeeps | internal/migrations/sql/138_external_execution_timestamp_expand.up.sql:367-447 | An authorized deletion of any whole row keeps a verified store verified |
| TimestampLedger.Ledger.DeleteRow | internal/migrations/sql/138_external_execution_timestamp_expand.up.sql:367-447 | Each cell of the row moves, as it last was, to one authorized tombstone of one operation and time; no key is lost, every other cell and tombstone stays, and whatever verified goes on verifying along every chain; or nothing happens |
| TimestampRuns.NextIntegrity | internal/migrations/sql/138_external_execution_timestamp_expand.up.sql:343-734 | Every step keeps keys, whole rows and tombstones in order |
| TimestampRuns.NextLineage | internal/db/external_execution_timestamps.go:2776-2802 | Every step keeps the VERIFIED manifests one linear chain; only a committed apply lengthens it, at the tip |
| TimestampRuns.NextReady | internal/db/external_execution_timestamps.go:2290-2494 | A ready ledger stays ready over exactly the harmless steps; commands on manifests and deletions always are |
| TimestampHistory.LineageOverRuns | internal/db/external_execution_timestamps.go:2539-2567 | Over every run the VERIFIED manifests stay one chain, and every earlier chain is a suffix of every later one |
| TimestampHistory.TipOverRuns | internal/db/external_execution_timestamps.go:2539-2567 | From an empty ledger there is always at most one tip, the head of a chain holding every VERIFIED manifest |
| TimestampHistory.ReadyOverRuns | internal/db/external_execution_timestamps.go:2025-2243 | Verification is stable over whole runs of applies, deletions and harmless writes in any order |
| TimestampHistory.EarlyRowNext | internal/db/external_execution_timestamps.go:2025-2054 | One step leaves an unrecorded row dated before the baseline early, alive or as a tombstone, exactly unless it rewrites the creation pair to the baseline or later |
| TimestampHistory.EarlyTombstoneIsFatal | internal/db/external_execution_timestamps.go:2025-2054 | Once such a row is deleted the ledger is unverifiable for good: over no run does it verify or apply again |
| TimestampHistory.EarlyRowUntilRedated | internal/db/external_execution_timestamps.go:2025-2054 | While such a row lives the ledger does not verify over any run that never redates it |
| TimestampHistory.RedatingRestores | internal/migrations/sql/138_external_execution_timestamp_expand.up.sql:535-592 | Redating the only such row is let through by the guard and makes the ledger verify again exactly when the new time is the baseline or later |
| TimestampRuns.ReadyListens | internal/db/external_execution_timestamps.go:1334-1436 | A ready ledger with nothing half prepared passes the startup check, and passing it proves the ledger ready |
| TimestampLedger.Ledger.CheckChain | internal/db/external_execution_timestamps.go:1351-1390 | The startup walk ends and succeeds exactly when a sound chain starts at the tip, returning its members and its root |
| TimestampLedger.SeenCounts | internal/db/external_execution_timestamps.go:1395-1406 | Counting VERIFIED rows against the walk is enough to know that the chain includes all of them |
| TimestampLedger.Ledger.CheckReadiness | internal/db/external_execution_timestamps.go:1334-1436 | The startup check passes if and only if some chain meets everything it asks for |
| TimestampExample.FirstApply | internal/db/external_execution_timestamps.go:3239-3383 | A one-event ledger with an unresolved first manifest is applied and becomes ready: the hypotheses can be met |
| TimestampExample.SecondApply | internal/db/external_execution_timestamps.go:3239-3383 | A second manifest resolving that cell applies over the first, and the ledger stays ready |
| TimestampFailures.FirstApplyRefused | internal/db/external_execution_timestamps.go:2683-2750 | A reachable failure: an event row written and deleted before the first apply, after which the preflight passes and no later reading of the clock lets the apply through |
| TimestampFailures.SecondApplyRefused | internal/db/external_execution_timestamps.go:2212-2243 | A reachable failure: in a ready ledger a cell is deleted at the reading at which its promotion is applied; the preflight passes and the apply does not |
| TimestampFailures.EarlyInsertUnreadies | internal/db/external_execution_timestamps.go:2025-2054 | A reachable failure: a legal insert dated before the baseline makes a ready ledger unready |
| TimestampFailures.RedatedReady | internal/migrations/sql/138_external_execution_timestamp_expand.up.sql:535-592 | Rewriting that row's creation pair to the baseline makes the ledger ready again |
| ApplyLock.EffectsMean | internal/db/external_execution_timestamps.go:3061-3237 | On the server a poll that is granted, or fails or panics having taken effect, adds one lock, an unlock likewise takes one off, and a transaction is open from a begin that took effect until a body, a rollback or a commit that ended it |
| ApplyLock.Attempt.AcquireLock | internal/db/external_execution_timestamps.go:3061-3105 | Polling ends with the first answer that is not busy, uncertain exactly after a failed query, and passes on a panicking one |
| ApplyLock.Attempt.Body | internal/db/external_execution_timestamps.go:3190-3236 | On every exit, panics of the driver's calls included, the flags say exactly what the wrapper knows of the lock and the transaction and the session is what the server made of it; hooks run only after an acknowledged commit, and durability is as the server decided |
| ApplyLock.Attempt.CleanUp | internal/db/external_execution_timestamps.go:3140-3188 | The deferred clean-up hands the connection back exactly when it is believed clean and unlocks, leaves it checked out exactly when the unlock panics, and closes it otherwise |
| ApplyLock.RunApplyTransaction | internal/db/external_execution_timestamps.go:3119-3237 | A connection returns to the pool exactly on the settled exits, then without lock and transaction except exactly when a panic inside the try-lock query or BeginTx had taken effect; hooks run only after a known commit; success and panic are characterised over every outcome |
| ApplyLock.OutcomeMeans | internal/db/external_execution_timestamps.go:3140-3236 | Success means durable; a reported error over durable work happens exactly when the commit's answer or the unlock was lost or a hook panicked |
| ApplyLockRuns.NextHeld | internal/db/external_execution_timestamps.go:3061-3237 | Every step of any applier, every lost connection and every panic of the driver keeps connections apart and the lock with whoever is past it |
| ApplyLockRuns.NextInv | internal/db/external_execution_timestamps.go:3061-3237 | A step keeps the whole invariant exactly unless it is a panic that left behind a lock or a transaction the wrapper does not know of |
| ApplyLockRuns.OneWorks | internal/db/external_execution_timestamps.go:3061-3237 | After any run, panics included, at most one applier is in the transaction body on a served connection, and it is the lock's owner |
| ApplyLockRuns.LockProtocol | internal/db/external_execution_timestamps.go:3061-3237 | After any run at most one applier is in the transaction body on a served connection; unless a panic left something behind, idle connections are clean and no other connection has a transaction open then |
| ApplyLockRuns.NeverStranded | internal/db/external_execution_timestamps.go:3140-3188 | The lock is never left behind: with every applier away only a connection being closed can hold it, unless a panic left it behind |
| ApplyLockRuns.PanicStrands | internal/db/external_execution_timestamps.go:3140-3188 | It can be: after a panic inside the try-lock query that took effect, an idle connection of the pool holds the lock with every applier away |
| ApplyLockRuns.CommitOwnsLock | internal/db/external_execution_timestamps.go:3228-3236 | A commit is acknowledged only to the one owner of the lock |
| ApplyLockRuns.PhasesFollowWrapper | internal/db/external_execution_timestamps.go:3119-3237 | The phases of the many-applier protocol reach the hooks, hand the connection back and abandon it on the wrapper's own exits |
| ApplyLockRuns.EntryFollowsWrapper | internal/db/external_execution_timestamps.go:3061-3146 | Polling goes on exactly while the wrapper's verdict rests on later answers, the lock and the transaction are reached exactly when it obtains them, and on every other answer the connection is handed back or abandoned exactly when it does so |
| StepGraph.TopologicalAcyclic | api/deployment_process.go:247-273 | A topological order rules out every cycle, stated over paths |
| StepGraph.Walk.Visit | api/deployment_process.go:250-266 | The recursive search ends; it reports a cycle only if one exists, and otherwise extends a topological finishing order |
| StepGraph.Walk.Search | api/deployment_process.go:267-272 | Whatever order the keys come in, a cycle is reported if and only if the graph has one |
| StepValidation.CollectNeeds | api/deployment_process.go:209-244 | A step's edges are its declared dependencies and the steps its condition refers to, refused exactly for a local fault |
| StepValidation.ValidateDependencies | api/deployment_process.go:204-273 | The API accepts exactly the locally valid graphs without a cycle through declared or condition edges, and what it accepts has a topological order |
| StepValidation.ValidateGraph | internal/db/deployment_processes.go:500-551 | The database accepts exactly the locally valid graphs without a cycle through declared edges |
| StepValidation.ValidateRequest | api/deployment_process.go:40-118 | Trims the steps in place and accepts exactly a non-empty list of distinct non-empty keys with an accepted graph |
| StepValidation.NormalizeRevision | internal/db/deployment_processes.go:417-498 | Trims the same steps in place and accepts exactly a non-empty list of distinct non-empty keys with a declared graph it accepts |
| StepValidation.TrimTwice | api/deployment_process.go:146-156 | Trimming leaves nothing to trim, so both validators see the same strings |
| StepValidation.TrimKeeps | api/deployment_process.go:146-156 | Trimming takes Unicode white space off both ends and nothing else |
| StepValidation.ApiImpliesDatabase | internal/db/deployment_processes.go:500-551 | Whatever the API accepted the database accepts, unchanged |
| StepValidation.DatabaseMissesConditionCycles | internal/db/deployment_processes.go:500-551 | Not the other way round: two steps waiting for each other's outputs pass the database and fail the API |
| StepValidation.ConditionSeesEarlierSteps | internal/conditions/conditions.go:87-125 | In any topological order of an accepted revision, a condition depends only on channel, environment, variables, success, failure and the outputs of strictly earlier steps |
| Conditions.EvaluateSees | internal/conditions/conditions.go:98-125 | Evaluation sees the setting and the outputs referred to, and of sensitive or redacted ones only that they are hidden |
| Conditions.EvaluateDecides | internal/conditions/conditions.go:98-125 | success() holds exactly in successful runs and failure() in failed ones, the empty condition and always() everywhere, production exactly there; equality holds exactly when the operand is to be had and alike to the literal, inequality exactly when it is to be had and not alike; a verdict is open exactly while the operand is not to be had |
| Conditions.CompareDecides | internal/conditions/conditions.go:244-287 | Two values are alike exactly when they denote one number or, where one is no number, are shown alike |
| Conditions.NotEqualNegates | internal/conditions/conditions.go:112-121 | Inequality is the negation of equality except that neither is ready without its left operand |
| Entitlements.RoundExactly | internal/db/artifacts.go:543-548 | Round n of the recursive query holds exactly the versions reached over n levels of containment |
| Entitlements.TerminatesIffAcyclic | internal/db/artifacts.go:534-548 | The recursion ends if and only if no version above the seed contains itself |
| Entitlements.Aggregate | internal/db/artifacts.go:534-548 | Where it ends, the query yields exactly the versions that transitively contain the seed |
| Entitlements.CheckEntitlementForArtifact | internal/db/artifacts.go:518-576 | Allowed exactly when no entitlements exist or an unexpired one covers a version transitively containing the referenced manifest |
| Entitlements.CheckEntitlementForArtifactBlob | internal/db/artifacts.go:578-626 | Allowed exactly when no entitlements exist or an unexpired one covers a version transitively containing the blob |
| Entitlements.GrantMeans | internal/db/artifacts.go:518-626 | Where the organization has entitlements a customer is let through exactly by an unexpired one of its own that lists, as a whole artifact or this version, something the seed is nested in part by part |
| Entitlements.SeedsMean | internal/db/artifacts.go:535-542 | A reference stands for the versions of the artifact named by it, of that digest, or of the digest of one named by it; a blob for the versions that list it |
| Entitlements.OnlyOwnCounts | internal/db/artifacts.go:552-558 | While the organization keeps one, changing other customers' entitlements or expired ones never changes a customer's answer, and with none of its own unexpired it is refused |
| Entitlements.AmbiguousExactly | internal/db/artifacts.go:535-542 | With unique names, a reference means two digests exactly when it is a stored digest and also names a version with another one |
| Entitlements.FollowsExactly | internal/db/artifacts.go:518-626 | For fixed versions a grant on one seed brings a grant on another, whatever the entitlements, exactly when everything in the first is reached from the second |
| Entitlements.BlobsFollowExactly | internal/db/artifacts.go:593-613 | Who may pull by a reference may pull every blob of every manifest it may mean, for all entitlements, exactly when any two of those manifests hold each other's parts |
| Entitlements.ChildrenFollowExactly | internal/db/artifacts.go:534-558 | Who may pull by a reference may pull every stored child manifest under any reference to it, for all entitlements, exactly when any two manifests the reference may mean lead to each other's children |
| Entitlements.UnambiguousFollows | internal/db/artifacts.go:534-613 | With content-addressed manifests both hold for every reference that means one digest |
| Entitlements.AmbiguousGrant | internal/db/artifacts.go:518-626 | A version named by another version's digest makes the reference mean both, and a customer entitled to the hashed one alone is granted the reference but not the named one's blob |
| Entitlements.AmbiguousReferenceFails | internal/db/artifacts.go:518-626 | Two such versions can stand in one table with unique ids, unique names and content-addressed manifests |
| ArtifactRegistry.Registry.PutManifest | internal/registry/manifest/db/handler.go:201-261 | A put succeeds exactly on a new name within quota, a name that is its own digest, or a tag that may be replaced; it then replaces exactly that name, and otherwise changes nothing |
| ArtifactRegistry.Registry.PushManifest | internal/registry/manifest.go:469-475 | A push stores the manifest under its digest and under the target or changes nothing, and either way every stored manifest stays named by its digest |
| ArtifactRegistry.SoundMeansOne | internal/db/artifacts.go:535-542 | While every stored manifest is named by its digest no reference means two manifests |
| ArtifactRegistry.Registry.SyncManifest | internal/registry/upstream/upstream.go:76-217 | A completed sync upserts the manifest under its tag and its digest, keeping ids and parts; it keeps what pushes keep exactly when neither name holds a part the manifest lacks |
| ArtifactRegistry.NextKeeps | internal/db/artifacts.go:1289-1327 | A push, a deletion or a sync keeps every manifest content-addressed and named by its digest exactly unless it syncs a name whose row holds a part that the fetched manifest lacks |
| ArtifactRegistry.AccessClosedOverRuns | internal/registry/manifest.go:469-475 | After any run of pushes, tag deletions, artifact deletions and syncs in which no synced name holds a part that the fetched manifest lacks, access is downward closed for every artifact, every reference and every set of entitlements |
| ArtifactRegistry.RemovedMeans | internal/db/artifacts.go:1220-1258 | After an artifact is removed no reference to it means anything, and references to others mean what they did |
| ArtifactRegistryFailures.MovedTagFails | internal/registry/upstream/upstream.go:76-155 | A tag synced before and after it moves upstream to a manifest without the old blob: the blob stays on the tag's row, and someone granted the tag is not granted that blob |
| ArtifactRegistryFailures.MovedTagExample | internal/registry/upstream/upstream.go:76-155 | Such a tag, with its two manifests and the blob |
| JsonScan.ReadExactly | internal/configascode/validation.go:183-243 | Reading one value succeeds on exactly the streams that start with a document, and the document and the rest are unique |
| JsonScan.WrittenIsRead | internal/configascode/validation.go:183-243 | The tokens of any document followed by anything are read back as that document, leaving the rest |
| JsonScan.Decoder.Scan | internal/configascode/validation.go:183-243 | The scanner consumes exactly one document's tokens and reports exactly its repeated member names, in document order |
| JsonScan.Decoder.ScanMembers | internal/configascode/validation.go:195-223 | The object loop with its seen set reports a member exactly when an earlier one of the object has its name |
| JsonScan.DetectDuplicates | internal/configascode/validation.go:170-181 | Succeeds exactly on the tokens of one document with nothing after it, with that document's repeated names |
| JsonScan.FieldCount | internal/configascode/validation.go:144-168 | A decoded map is as large as its object exactly when no name is repeated |
| JsonScan.SilentIffKept | internal/configascode/validation.go:144-168 | Nothing is reported if and only if collapsing every object to a map loses no member, at any depth |
| ConfigDocuments.NodeToValue | internal/configascode/validation.go:268-319 | The YAML conversion computes value and faults in one pass: depth, anchors and repeated keys in document order, the first of equal keys kept |
| ConfigDocuments.AcceptedMeans | internal/configascode/validation.go:268-319 | A tree is read without a fault exactly when it has no anchor, no alias, no key twice in one mapping and nothing below the 64th level |
| ConfigDocuments.AcceptedMirrors | internal/configascode/validation.go:268-319 | And then as a value of its shape: its scalars, its entries under their keys and its nodes in their places |
| ConfigDocuments.FormatsAgree | internal/configascode/validation.go:268-319 | At any depth a node tree is accepted by the YAML conversion exactly when the JSON reader accepts it, and then both read the same value |
| ConfigDocuments.TextsAgree | internal/configascode/validation.go:131-168 | Unless its root is an array, a text is one document in both formats, accepted in both or in neither, with one value |
| ConfigDocuments.ArraysDiffer | internal/configascode/validation.go:160-168 | A root array is one JSON document per element, accepted exactly when each element would be accepted as a YAML text of its own with the same value, while as YAML the array is refused |
| JsonProjection.ProjectsIffEmbeds | internal/db/deployment_preflight.go:252-289 | Projection succeeds with the stored value if and only if the stored value embeds in the current one |
| JsonProjection.EmbedsItself | internal/db/deployment_preflight.go:252-289 | Embedding is reflexive |
| JsonProjection.EmbedsThrough | internal/db/deployment_preflight.go:252-289 | Embedding is transitive |
| JsonProjection.EmbedsBothWays | internal/db/deployment_preflight.go:252-289 | Values that embed in each other are equal |
| JsonProjection.AddingNeverInvalidates | internal/db/deployment_preflight.go:229-244 | Adding a field at any depth of nested objects, which is then to be read there, never invalidates a stored payload |
| JsonProjection.CanonicalStateValid | internal/db/deployment_preflight.go:223-250 | Valid means the checksum and the exact bytes, or for a payload with a status that the rest of it embeds in the current form |
| DeploymentPlans.ResolveTargets | internal/db/deployment_plans.go:347-391 | Targets are numbered by tens in query order under their fresh ids, and a missing one fails the request |
| DeploymentPlans.Draft.ResolveComponents | internal/db/deployment_plans.go:393-436 | Components are snapshotted per target in target order, numbered by their place among the affected names |
| DeploymentPlans.Draft.AddSteps | internal/db/deployment_plans.go:526-607 | Steps are planned in stable order with every finding, numbered on from the issues before |
| PlanMeaning.StepsMean | internal/db/deployment_plans.go:526-597 | Every process step is planned in the order of sort order and key, included exactly when its channel list is empty or has the plan's channel and its environment list is empty or has the plan's environment |
| PlanMeaning.FindingsMean | internal/db/deployment_plans.go:537-607 | The findings are, for each step, an unregistered action, a refused input of a registered one and a condition that does not parse or asks for an unknown step's output, and that no step serves the plan |
| PlanMeaning.ComponentsMean | internal/db/deployment_plans.go:393-436 | The component rows are, for each target, the contract's last component of each affected name with the state the target is expected in |
| DeploymentPlans.Draft.AddVariables | internal/db/deployment_plans.go:700-737 | Variables are added in stable order and each required unresolved one blocks |
| PlanRoundTrip.Resolve | internal/db/deployment_plans.go:280-328 | The assembled plan is the specified one; it is ready exactly when no finding from elsewhere blocks, every step has a registered action, an accepted input and an answerable condition, some step serves the plan's channel and environment if there are steps, and every required variable is resolved |
| PlanRoundTrip.ComponentsReturn | internal/db/deployment_plans.go:1303-1328 | Component rows come back in order if and only if there are none or the target row ids ascend in target order |
| PlanRoundTrip.StepsReturn | internal/db/deployment_plans.go:1330-1371 | Steps come back as written exactly when their bindings survive the JSON column |
| PlanRoundTrip.VariablesReturn | internal/db/deployment_plans.go:1373-1444 | Variables come back as written exactly when no redacted one has a value, no value is JSON null and the JSON column keeps value and trace |
| PlanRoundTrip.RoundTrip | internal/db/deployment_plans.go:867-980 | However ties are ordered, a hydrated plan re-canonicalises to its stored form if and only if its components' target rows ascend and its variables and bindings are kept |
| PlanRoundTrip.SingleTargetSurvives | internal/db/deployment_plans.go:867-980 | A single-target plan always survives, given lossless columns and no value where one is redacted or null |
| PlanRoundTrip.DescendingTargetsFail | internal/db/deployment_plans.go:1303-1328 | A two-target plan with components does not, when the second target row drew the lower id |
| Ordering.SortedReading | internal/db/deployment_plans.go:1271-1301 | Rows written in ascending order are read back exactly as written by any sorted reading |
| CompatibilityBackfill.ListedExactly | internal/db/deployment_compatibility.go:132-187 | The listing holds every revision beyond the cursor once, in (created_at, id) order |
| CompatibilityBackfill.ListedFrom | internal/db/deployment_compatibility.go:180-186 | Continuing after the last row of a page lists exactly the rest |
| CompatibilityBackfill.PageMeans | internal/db/deployment_compatibility.go:74-100 | A page is a prefix of the listing: all of it, or as many rows as asked for, 500 where nothing sensible is asked and never over 5000 |
| CompatibilityBackfill.TotalsCount | internal/db/deployment_compatibility.go:232-280 | Scanned is eligible plus skipped and also projected plus already present plus failed, each counter counting its own outcome |
| CompatibilityBackfill.TotalsMerge | internal/db/deployment_compatibility.go:117-130 | Reports of consecutive pages add up to the report of the whole |
| CompatibilityBackfill.Backfill.ProcessPage | internal/db/deployment_compatibility.go:232-280 | A page is aborted exactly when an insert in it is refused, and otherwise reports and stores every row's outcome |
| CompatibilityBackfill.Backfill.Run | internal/db/deployment_compatibility.go:74-115 | The paged loop ends; it succeeds exactly when no insert is refused, with totals and rows free of the batch size, and a refusal keeps exactly the pages before it |
| CompatibilityBackfill.SecondRunProjectsNothing | internal/db/deployment_compatibility.go:238-278 | Applying twice projects nothing the second time |
| DeploymentTimeline.Timeline | internal/db/deployment_timeline.go:185-368 | Under the clamped limit the timeline shows as many entries as there are up to the limit, newest first and none twice, and leaves out nothing newer than what it shows, with and without legacy revisions |
| DeploymentTimeline.MergeKeepsNewest | internal/db/deployment_timeline.go:348-366 | The timeline has the limit's or all entries, newest first, none twice, and no entry it leaves out of either source is newer than one it shows |
| DeploymentTimeline.ShownMeans | internal/db/deployment_timeline.go:348-366 | In completion, start or queue times: no entry is left out for one that happened before it, and none is shown out of order |
| DeploymentTimeline.MergeIsOneSort | internal/db/deployment_timeline.go:348-366 | When times differ, the merge is exactly one sort of everything cut once |
| DeploymentTimeline.MergeIsOneSortExactly | internal/db/deployment_timeline.go:273-366 | With equal times too, the merge is one sort of everything cut once exactly when every task that ties with its page's kept ones but is left out has at least the limit's number of entries before it in the merge's order |
| DeploymentTimeline.QueueAgainstIds | internal/db/deployment_timeline.go:273-366 | It can differ: of two tasks of one time, with room for one, the page keeps the one queued later and one sort the one with the greater id |
| BlobCleanup.Cleanup.FlushDelete | internal/cleanup/artifact_blobs.go:40-55 | An answered request counts every submitted key once, as deleted or as an error |
| BlobCleanup.Cleanup.Run | internal/cleanup/artifact_blobs.go:56-92 | With every answer given, the requests are exactly the eligible keys in listing order cut into batches, as few as can be, and deleted plus errors is their number; otherwise a prefix was submitted |
| BlobCleanup.BatchesCount | internal/cleanup/artifact_blobs.go:78-92 | The number of requests is the number of keys divided by the batch size, rounded up |
| BlobCleanup.OneRequestEach | internal/cleanup/artifact_blobs.go:63-92 | The requests hold exactly the eligible keys, each in one request only and once in it |
| BlobCleanup.BatchesKeep | internal/cleanup/artifact_blobs.go:78-92 | Batches lose nothing and hold between 1 and 1000 keys |
| BlobCleanup.SubmittedOnce | internal/cleanup/artifact_blobs.go:63-78 | Each eligible key of a listing is submitted exactly once and no other ever |
| BlobCleanup.RequestsSpare | internal/cleanup/artifact_blobs.go:56-92 | Requested are exactly the digests not referenced whose object's time is unknown or not past the cutoff |
| BlobCleanupRaces.HarmNeedsReupload | internal/cleanup/artifact_blobs.go:24-92 | Over every interleaving a flush deletes a referenced blob exactly when a pending key was uploaded again after it was listed and is referenced |
| BlobCleanupRaces.FlushesHarmless | internal/cleanup/artifact_blobs.go:24-92 | In a run where no key is uploaded between its listing and the next flush, no flush deletes a referenced blob |
| BlobCleanupRaces.ReuploadedBlobIsLost | internal/cleanup/artifact_blobs.go:24-92 | That happens: a key listed while old and unreferenced, uploaded again and referenced at once, is deleted |
| LogRecords.SkipScan | internal/db/deployment_log_record.go:106-161 | The repeated least-name-above recursion ends with exactly the distinct names in strictly increasing order |
| LogRecords.DistinctIsAscending | internal/db/deployment_log_record.go:106-161 | The direct DISTINCT list is strictly increasing over the same names |
| Ordering.AscendingUnique | internal/db/deployment_log_record.go:106-161 | Two strictly increasing lists of the same names are the same list, so the skip scan is DISTINCT |
| LogRecords.Resources | internal/db/deployment_log_record.go:106-161 | Active and archived names are ordered, lose and share nothing, and are told apart by a record of one of the five latest revisions |
| LogRecords.LatestMeans | internal/db/deployment_log_record.go:129-161 | The latest revisions are at most five of the deployment's, none left out is later than one of them, and with fewer than five none is left out |
| LogRecords.LogsMean | internal/db/deployment_log_record.go:129-161 | A name is active when a record of one of those revisions has it |
| LogRecords.LogTable.Cleanup | internal/db/deployment_log_record.go:293-348 | Deletes exactly what is no newer than its group's pivot, skipping failed groups, and counts every deleted record |
| LogRecords.RetentionKeepsNewest | internal/db/deployment_log_record.go:302-345 | A group keeps all of its records within the limit; beyond it, exactly those newer than the newest record over the limit, which are as many as the limit or, exactly when the limit-th newest record and the next share a timestamp, fewer |
| LogRecords.SharedTimestampLosesAll | internal/db/deployment_log_record.go:326-332 | A group over the limit whose records share one timestamp loses all of them |
| Channels.ChannelTable.Create | internal/db/channels.go:38-114 | Creation fails exactly on a missing reference, a taken name or a negative order, never on the default index, and a failure changes nothing |
| Channels.ChannelTable.Update | internal/db/channels.go:168-254 | An update, moves between applications included, fails exactly on the stated guards and changes exactly the row and the demoted defaults |
| Channels.ChannelTable.Delete | internal/db/channels.go:256-307 | Deletes any channel but a default, a managed or a protected one |
| Channels.ChannelTable.EnsureDefaults | internal/db/channels.go:309-354 | One default per application with channels is kept, every application of the organization has exactly one default if there is a lifecycle, no channel that was there changes, and only applications without channels get a new one |
| Channels.WriteAllowed | internal/db/channels.go:391-433 | After demoting the other channels the default index has no objection to the write |
| Channels.WritableMeans | internal/migrations/sql/110_channels.up.sql:1-18 | The table takes a row exactly with a sort order that is not negative, a name no other channel of the application has, and as a default only where no other is |
| Channels.WrittenMeans | internal/db/channels.go:38-254 | The written channel is as asked and a default if it asks to be or no other is; the other channels of its application give way to a default that was asked for, and no other row changes |
| Channels.WrittenKeeps | internal/db/channels.go:38-254 | Create and update keep exactly one default per application with channels, for the old application and the new one |
| Channels.DefaultsOverRuns | internal/db/channels.go:38-433 | Over every serial run each application with a channel has exactly one default |
| Channels.KeysOverRuns | internal/db/channels.go:38-433 | Over every serial run channels stay with applications and lifecycles of their own organization, under names unique in their application |
| Channels.EnsuredCovers | internal/db/channels.go:309-354 | Right after the defaults are ensured every application of the organization has exactly one |

## Left out

- TimestampLedger.Ledger.Apply: the evidence lookups and approval metadata enter as two flags of the request, and a failed transaction restores the three tables by assignment.
- TimestampLedger.Ledger.CheckReadiness: covers the startup check of stores migrated with history; the zero-history check, the same per-cell rule over an empty ledger, is left out.
- Checksums of cells, decisions and snapshots are equality of content; patterns of evidence and approval text, text formatting of clocks and the year range are left out.
- Catalog, index, guard-body and schema-marker checks, and the inspect, validate and seal commands, are environment facts or reports.
- ApplyLockRuns.LockProtocol: a closed connection may keep its session, lock included, until the server notices; only exclusivity on the server is relied on meanwhile. Where a panic of the driver left a lock or a transaction behind, only mutual exclusion is promised.
- ApplyLockRuns.NeverStranded: promised where no panic of the driver left the lock behind; `ApplyLockRuns.PanicStrands` is a run where one did.
- ApplyLock.RunApplyTransaction: timeouts and driver errors are outcomes given from outside, the pool's own check of a returned connection is left out, and the body is taken not to commit by itself, which its interface does not let it do.
- Conditions.EvaluateSees: starts from the parser's result; the regular expressions of the parser and the formatting of values for comparison are parameters.
- StepValidation.ValidateRequest: field checks besides keys, dependencies and conditions, and the action registry, are left out.
- StepValidation.NormalizeRevision: so are the database's field checks besides keys and dependencies.
- Entitlements.Aggregate: the query is evaluated in full; a database that stops early at the first match could also end on a cycle.
- Artifact version listing, tag counting and version deletion checks are left out, as are the authorizer's organization and role checks.
- ArtifactRegistry.AccessClosedOverRuns: a sync is one step; its statements are not in one transaction, and syncs that fail midway or interleave with other writes are not among the steps.
- JsonScan.DetectDuplicates: works on tokens; bytes, encoding and the rendering of issue paths as text are left out.
- ConfigDocuments.TextsAgree: is about JSON texts whose first character is a brace or bracket, as the reader is chosen by it; scalars are taken to be read alike by both decoders; number canonicalisation, kind schemas, secrets and repository paths are left out.
- PlanRoundTrip.RoundTrip: JSON encoding of the canonical form is taken to be injective, the plan header's JSON column and the text arrays to be lossless, text order is byte order, and eligibility, platform and capability findings are inputs.
- Resolution of target-scoped variables is an input to the plan; only their order, findings and storage are modelled.
- CompatibilityBackfill.Backfill.Run: whether a revision projects and how its insert ends are fixed per revision; failing queries are left out.
- DeploymentTimeline.Timeline: filters, the last-successful flag, components and the comparison of two entries are left out.
- BlobCleanup.Cleanup.Run: the counters of skipped objects are left out; a delete request takes effect at once.
- LogRecords.Resources: text order is byte order, and revisions created at one time are ranked in table order.
- Channels.DefaultsOverRuns: concerns serial runs; concurrent transactions meet the unique default index, which refuses the second writer.
- `api/runbook.go` has the same graph validator as the deployment process and is not modelled again.

/** Theorems over whole runs of the ledger. */
module TimestampHistory {
  import opened Wrappers
  import opened TimestampManifest
  import opened TimestampVerification
  import opened TimestampApply
  import opened TimestampSupersession
  import opened TimestampWrites
  import opened TimestampRuns

  ghost predicate Legal(s: Store, steps: seq<Step>)
    requires Integrity(s)
    decreases |steps|
  {
    steps == [] ||
    (Enabled(s, steps[0]) && (NextIntegrity(s, steps[0]); Legal(Next(s, steps[0]), steps[1..])))
  }

  ghost function Run(s: Store, steps: seq<Step>): Store
    requires Integrity(s) && Legal(s, steps)
    decreases |steps|
  {
    if steps == [] then s
    else
      NextIntegrity(s, steps[0]);
      Run(Next(s, steps[0]), steps[1..])
  }

  function RunChain(steps: seq<Step>, chain: seq<Id>): seq<Id> {
    if steps == [] then chain else RunChain(steps[1..], NextChain(steps[0], chain))
  }

  /** Over every run the VERIFIED manifests are one supersession chain that only ever grows at its tip. */
  lemma {:induction false} LineageOverRuns(s: Store, steps: seq<Step>, chain: seq<Id>)
    requires Integrity(s) && Legal(s, steps) && Lineage(s.manifests, chain)
    ensures Integrity(Run(s, steps)) && Lineage(Run(s, steps).manifests, RunChain(steps, chain))
    ensures |chain| <= |RunChain(steps, chain)|
    ensures RunChain(steps, chain)[|RunChain(steps, chain)| - |chain|..] == chain
    decreases |steps|
  {
    hide Integrity, Lineage, Enabled, Next;
    if steps != [] {
      NextIntegrity(s, steps[0]);
      NextLineage(s, steps[0], chain);
      LineageOverRuns(Next(s, steps[0]), steps[1..], NextChain(steps[0], chain));
    }
  }

  /** From an empty ledger: at any later moment with nothing half prepared there is at most one tip, and it
      is the head of a chain that holds every VERIFIED manifest. */
  lemma TipOverRuns(s: Store, steps: seq<Step>)
    requires Integrity(s) && s.manifests == map[] && Legal(s, steps)
    ensures var ms, chain := Run(s, steps).manifests, RunChain(steps, []);
            && (chain != [] ==> IsChain(ms, chain))
            && (forall id :: id in ms ==> (ms[id].state == Verified <==> id in chain))
            && (!Incomplete(ms) ==> Tips(ms) == if chain == [] then {} else {chain[0]})
  {
    assert Lineage(s.manifests, []);
    LineageOverRuns(s, steps, []);
    hide Integrity, ValidDocument, ValidSupersession, IsTip;
    if !Incomplete(Run(s, steps).manifests) {
      LineageTips(Run(s, steps).manifests, RunChain(steps, []));
    }
  }

  ghost predicate AllHarmless(s: Store, chain: seq<Id>, steps: seq<Step>)
    requires Integrity(s) && Legal(s, steps) && chain != [] && Lineage(s.manifests, chain)
    decreases |steps|
  {
    steps == [] ||
    (LineageIsChain(s.manifests, chain);
     NextIntegrity(s, steps[0]);
     NextLineage(s, steps[0], chain);
     Harmless(s, chain, steps[0]) && AllHarmless(Next(s, steps[0]), NextChain(steps[0], chain), steps[1..]))
  }

  /** Readiness survives any run of applies, preparations, revocations, deletions and harmless writes. */
  lemma {:induction false} ReadyOverRuns(s: Store, steps: seq<Step>, chain: seq<Id>)
    requires Ready(s, chain) && Legal(s, steps) && AllHarmless(s, chain, steps)
    ensures Ready(Run(s, steps), RunChain(steps, chain))
    decreases |steps|
  {
    hide Lineage, Enabled, Next, Harmless, VerifiedAlong, MatchesExpand;
    if steps != [] {
      LineageIsChain(s.manifests, chain);
      NextIntegrity(s, steps[0]);
      NextLineage(s, steps[0], chain);
      NextReady(s, steps[0], chain);
      ReadyOverRuns(Next(s, steps[0]), steps[1..], NextChain(steps[0], chain));
    }
  }

  // ---------------------------------------------------------------- rows dated before the baseline

  predicate Predates(created: Option<Instant>, baseline: Instant) {
    created.Some? && created.value < baseline
  }

  ghost predicate Unrecorded(s: Store, chain: seq<Id>, k: CellKey)
    requires IsChain(s.manifests, chain)
  {
    k.column == CreatedAt && k !in KeysOf(TipDocument(s, chain).cells)
  }

  /** A live row the manifests never listed, dated before the baseline. */
  ghost predicate EarlyRow(s: Store, chain: seq<Id>, k: CellKey)
    requires IsChain(s.manifests, chain)
  {
    Unrecorded(s, chain, k) && k in s.cells && Predates(s.cells[k].instant, Baseline(s.manifests, chain))
  }

  /** Such a row, deleted since. */
  ghost predicate EarlyTombstone(s: Store, chain: seq<Id>, k: CellKey)
    requires IsChain(s.manifests, chain)
  {
    Unrecorded(s, chain, k) && k in s.tombstones && Predates(s.tombstones[k].view.rowCreated, Baseline(s.manifests, chain))
  }

  ghost predicate Early(s: Store, chain: seq<Id>, k: CellKey)
    requires IsChain(s.manifests, chain)
  {
    EarlyRow(s, chain, k) || EarlyTombstone(s, chain, k)
  }

  /** The one write that helps: the row's creation pair rewritten at or after the baseline. */
  predicate Redates(step: Step, k: CellKey, baseline: Instant) {
    step.Rewrite? && k in step.delta && !Predates(step.delta[k].instant, baseline)
  }

  lemma EarlyFails(s: Store, chain: seq<Id>, k: CellKey)
    requires IsChain(s.manifests, chain) && Early(s, chain, k)
    ensures !VerifiedAlong(s, chain)
  {
    hide ValidDocument, ValidTombstones, ChainPromotes;
    assert k in s.cells ==> LiveView(s.cells, k).rowCreated == s.cells[k].instant;
    assert !LaterCellsVerified(s, KeysOf(TipDocument(s, chain).cells), Baseline(s.manifests, chain));
  }

  /** While a verification fails, no manifest is applied, so the chain stays. */
  lemma NoApplyAfter(s: Store, step: Step, chain: seq<Id>)
    requires Integrity(s) && Enabled(s, step) && chain != [] && Lineage(s.manifests, chain) && !VerifiedAlong(s, chain)
    ensures !step.Apply? && NextChain(step, chain) == chain
  {
    if step.Apply? {
      PreflightHead(s, chain, step.m);
      VerifiedOnLineage(s, chain);
    }
  }

  /** What a step makes of one creation time. */
  lemma CreationAfter(s: Store, step: Step, k: CellKey)
    requires Integrity(s) && Enabled(s, step) && !step.Apply? && k.column == CreatedAt && k in s.cells
    ensures var after := Next(s, step);
            if step.Rewrite? && k in step.delta then
              k in after.cells && after.cells[k] == step.delta[k] && after.tombstones == s.tombstones
            else
              (k in after.cells && after.cells[k] == s.cells[k])
              || (k in after.tombstones && after.tombstones[k].view.rowCreated == s.cells[k].instant)
  {
    hide ValidTombstones, WholeRows, Keyed, ParentTaken;
    match step
    case Insert(row, pairs) =>
      assert k in s.cells ==> k !in RowKeys(row);
    case Delete(row, operation, at) =>
      assert k in RowKeys(row) ==> RowTombstones(s, row, operation, at)[k].view == LiveView(s.cells, k) by {
        assert RowTombstones(s, row, operation, at).Keys == RowKeys(row);
      }
    case _ =>
  }

  lemma TombstonesStay(s: Store, step: Step, k: CellKey)
    requires Integrity(s) && Enabled(s, step) && k in s.tombstones
    ensures k in Next(s, step).tombstones && Next(s, step).tombstones[k] == s.tombstones[k]
  {
    hide ValidTombstones, WholeRows, Keyed, ParentTaken;
    if step.Delete? {
      assert RowTombstones(s, step.row, step.operation, step.at).Keys == RowKeys(step.row);
    }
  }

  lemma ChainFramed(s: Store, after: Store, chain: seq<Id>)
    requires IsChain(s.manifests, chain) && IsChain(after.manifests, chain)
    requires forall id :: id in chain ==> id in after.manifests && after.manifests[id] == s.manifests[id]
    ensures TipDocument(after, chain) == TipDocument(s, chain) && Baseline(after.manifests, chain) == Baseline(s.manifests, chain)
  {
    assert chain[0] in chain && chain[|chain| - 1] in chain;
  }

  /** Whatever step is taken, the chain, its tip and its baseline stay while an early row is there. */
  lemma EarlyStep(s: Store, step: Step, chain: seq<Id>, k: CellKey)
    requires Integrity(s) && Enabled(s, step) && chain != [] && Lineage(s.manifests, chain)
    requires IsChain(s.manifests, chain) && Early(s, chain, k)
    ensures !step.Apply? && NextChain(step, chain) == chain && IsChain(Next(s, step).manifests, chain)
    ensures TipDocument(Next(s, step), chain) == TipDocument(s, chain)
    ensures Baseline(Next(s, step).manifests, chain) == Baseline(s.manifests, chain)
  {
    hide Enabled, Next, Lineage, Integrity, IsChain, VerifiedAlong, Early, TipDocument, Baseline;
    EarlyFails(s, chain, k);
    NoApplyAfter(s, step, chain);
    NextLineage(s, step, chain);
    LineageIsChain(Next(s, step).manifests, chain);
    RecordsStay(s, step, chain);
    ChainFramed(s, Next(s, step), chain);
  }

  /** An early tombstone stays one. */
  lemma EarlyTombstoneNext(s: Store, step: Step, chain: seq<Id>, k: CellKey)
    requires Integrity(s) && Enabled(s, step) && chain != [] && Lineage(s.manifests, chain)
    requires IsChain(s.manifests, chain) && EarlyTombstone(s, chain, k)
    ensures IsChain(Next(s, step).manifests, chain) && EarlyTombstone(Next(s, step), chain, k)
  {
    EarlyStep(s, step, chain, k);
    TombstonesStay(s, step, k);
    hide Enabled, Next, Lineage, Integrity, IsChain, KeysOf, TipDocument, Baseline;
  }

  /** One step leaves an early row early, alive or as a tombstone, exactly unless it redates it. */
  lemma EarlyRowNext(s: Store, step: Step, chain: seq<Id>, k: CellKey)
    requires Integrity(s) && Enabled(s, step) && chain != [] && Lineage(s.manifests, chain)
    requires IsChain(s.manifests, chain) && EarlyRow(s, chain, k)
    ensures IsChain(Next(s, step).manifests, chain)
    ensures !Redates(step, k, Baseline(s.manifests, chain)) ==> Early(Next(s, step), chain, k)
    ensures Redates(step, k, Baseline(s.manifests, chain)) ==> !EarlyRow(Next(s, step), chain, k)
  {
    EarlyStep(s, step, chain, k);
    CreationAfter(s, step, k);
    if step.Rewrite? && k in step.delta { RewritesKeepInstants(s, step, k); }
    hide Enabled, Next, Lineage, Integrity, IsChain, KeysOf, TipDocument, Baseline;
  }

  lemma RewritesKeepInstants(s: Store, step: Step, k: CellKey)
    requires Integrity(s) && Enabled(s, step) && step.Rewrite? && k in step.delta && k in s.cells && k.column == CreatedAt
    ensures s.cells[k].instant.Some? ==> step.delta[k].instant.Some?
  {
    if step.delta[k] != s.cells[k] { ChangedIsExact(k, s.cells[k], step.delta[k]); }
  }

  ghost predicate NeverRedated(steps: seq<Step>, k: CellKey, baseline: Instant) {
    forall step :: step in steps ==> !Redates(step, k, baseline)
  }

  /** An early row that was deleted is fatal for good: no run makes the ledger verify again. */
  lemma {:induction false} EarlyTombstoneIsFatal(s: Store, steps: seq<Step>, chain: seq<Id>, k: CellKey)
    requires Integrity(s) && Legal(s, steps) && chain != [] && Lineage(s.manifests, chain)
    requires IsChain(s.manifests, chain) && EarlyTombstone(s, chain, k)
    ensures IsChain(Run(s, steps).manifests, chain)
    ensures !VerifiedAlong(Run(s, steps), chain) && RunChain(steps, chain) == chain
    decreases |steps|
  {
    hide Lineage, Integrity, Enabled, Next, EarlyTombstone, EarlyRow, IsChain, Redates;
    if steps == [] {
      EarlyFails(s, chain, k);
    } else {
      NextIntegrity(s, steps[0]);
      NextLineage(s, steps[0], chain);
      EarlyStep(s, steps[0], chain, k);
      EarlyTombstoneNext(s, steps[0], chain, k);
      EarlyTombstoneIsFatal(Next(s, steps[0]), steps[1..], chain, k);
    }
  }

  /** A live one keeps the ledger from verifying over every run that never redates it, deletions included. */
  lemma {:induction false} EarlyRowUntilRedated(s: Store, steps: seq<Step>, chain: seq<Id>, k: CellKey)
    requires Integrity(s) && Legal(s, steps) && chain != [] && Lineage(s.manifests, chain)
    requires IsChain(s.manifests, chain) && Early(s, chain, k) && NeverRedated(steps, k, Baseline(s.manifests, chain))
    ensures IsChain(Run(s, steps).manifests, chain)
    ensures !VerifiedAlong(Run(s, steps), chain) && RunChain(steps, chain) == chain
    decreases |steps|
  {
    hide Lineage, Integrity, Enabled, Next, EarlyTombstone, EarlyRow, IsChain, Redates, Baseline;
    if steps == [] {
      EarlyFails(s, chain, k);
    } else {
      NextIntegrity(s, steps[0]);
      NextLineage(s, steps[0], chain);
      EarlyStep(s, steps[0], chain, k);
      assert steps[0] in steps;
      if EarlyRow(s, chain, k) {
        EarlyRowNext(s, steps[0], chain, k);
      } else {
        EarlyTombstoneNext(s, steps[0], chain, k);
      }
      EarlyRowUntilRedated(Next(s, steps[0]), steps[1..], chain, k);
    }
  }

  ghost predicate RecordedVerified(s: Store, m: Manifest, baseline: Instant, promoted: map<CellKey, Instant>) {
    forall p :: p in m.cells ==> CellVerified(s, p, baseline, Lookup(promoted, p.key))
  }

  /** The unrecorded cells verify, but for one row, whose pairs are exact. */
  ghost predicate LaterBut(s: Store, recorded: set<CellKey>, row: RowKey, baseline: Instant) {
    && CellKey(row, CreatedAt) in s.cells && CellKey(row, CreatedAt) !in recorded
    && (forall k :: k in s.cells && k !in recorded ==>
          if k.row == row then ExactPair(s.cells[k]) else VerifyPostBaseline(LiveView(s.cells, k), baseline).Ok?)
    && (forall k :: k in s.tombstones && k !in recorded ==> VerifyPostBaseline(s.tombstones[k].view, baseline).Ok?)
  }

  /** Everything verifies but one unrecorded live row, whose pairs are exact. */
  ghost predicate SoleFault(s: Store, chain: seq<Id>, row: RowKey) {
    && Grounded(s, chain)
    && RecordedVerified(s, s.manifests[chain[0]].doc, Baseline(s.manifests, chain), AllPromotions(s.manifests, chain))
    && LaterBut(s, KeysOf(s.manifests[chain[0]].doc.cells), row, Baseline(s.manifests, chain))
  }

  /** Redating the only early row is let through, and makes the ledger verify exactly from the baseline on. */
  lemma RedatingRestores(s: Store, chain: seq<Id>, row: RowKey, at: Instant)
    requires Integrity(s) && SoleFault(s, chain, row)
    requires s.cells[CellKey(row, CreatedAt)].raw != Some(at) && s.cells[CellKey(row, CreatedAt)].instant != Some(at)
    ensures var delta := map[CellKey(row, CreatedAt) := Exact(at)];
            CanRewrite(s, delta) && (VerifiedAlong(Rewritten(s, delta), chain) <==> Baseline(s.manifests, chain) <= at)
  {
    var delta := map[CellKey(row, CreatedAt) := Exact(at)];
    RedatingAllowed(s, row, at);
    hide Grounded, CellsVerified, CanRewrite, RecordedVerified, VerifyPostBaseline, KeysOf, LiveView, Baseline, AllPromotions,
         ValidDocument, ChainPromotes;
    RedatedCells(s, s.manifests[chain[0]].doc, row, at, Baseline(s.manifests, chain), AllPromotions(s.manifests, chain));
    assert Rewritten(s, delta).cells.Keys == s.cells.Keys;
    GroundedSame(s, Rewritten(s, delta), chain);
  }

  lemma GroundedSame(s: Store, after: Store, chain: seq<Id>)
    requires Grounded(s, chain) && after.manifests == s.manifests && after.tombstones == s.tombstones
    requires after.cells.Keys == s.cells.Keys
    ensures Grounded(after, chain)
  {
    hide ValidDocument, ValidTombstones, ChainPromotes, Keyed, IsChain;
  }

  lemma RedatedRecorded(s: Store, m: Manifest, row: RowKey, at: Instant, baseline: Instant, promoted: map<CellKey, Instant>)
    requires RecordedVerified(s, m, baseline, promoted) && CellKey(row, CreatedAt) in s.cells
    requires CellKey(row, CreatedAt) !in KeysOf(m.cells)
    ensures RecordedVerified(Rewritten(s, map[CellKey(row, CreatedAt) := Exact(at)]), m, baseline, promoted)
  {
    hide VerifyHistorical, VerifyDeleted;
    forall p | p in m.cells
      ensures CellVerified(Rewritten(s, map[CellKey(row, CreatedAt) := Exact(at)]), p, baseline, Lookup(promoted, p.key))
    {
      assert CellVerified(s, p, baseline, Lookup(promoted, p.key)) && p.key in KeysOf(m.cells);
    }
  }

  lemma RedatedCells(s: Store, m: Manifest, row: RowKey, at: Instant, baseline: Instant, promoted: map<CellKey, Instant>)
    requires RecordedVerified(s, m, baseline, promoted) && LaterBut(s, KeysOf(m.cells), row, baseline)
    ensures CellsVerified(Rewritten(s, map[CellKey(row, CreatedAt) := Exact(at)]), m, baseline, promoted) <==> baseline <= at
  {
    RedatedLater(s, KeysOf(m.cells), row, at, baseline);
    RedatedRecorded(s, m, row, at, baseline, promoted);
    hide CellVerified, LaterBut, LaterCellsVerified, Rewritten;
  }

  lemma RedatingAllowed(s: Store, row: RowKey, at: Instant)
    requires CellKey(row, CreatedAt) in s.cells
    requires s.cells[CellKey(row, CreatedAt)].raw != Some(at) && s.cells[CellKey(row, CreatedAt)].instant != Some(at)
    ensures CanRewrite(s, map[CellKey(row, CreatedAt) := Exact(at)])
  {
  }

  lemma RedatedLater(s: Store, recorded: set<CellKey>, row: RowKey, at: Instant, baseline: Instant)
    requires LaterBut(s, recorded, row, baseline)
    ensures LaterCellsVerified(Rewritten(s, map[CellKey(row, CreatedAt) := Exact(at)]), recorded, baseline) <==> baseline <= at
  {
    var c := CellKey(row, CreatedAt);
    var after := Rewritten(s, map[c := Exact(at)]);
    assert after.cells.Keys == s.cells.Keys && LiveView(after.cells, c).rowCreated == Some(at);
    forall k | k in s.cells && k.row != row
      ensures LiveView(after.cells, k) == LiveView(s.cells, k)
    {
    }
    forall k | k in s.cells && k.row == row && k !in recorded
      ensures VerifyPostBaseline(LiveView(after.cells, k), baseline).Ok? <==> baseline <= at
    {
    }
    hide LiveView, Rewritten, VerifyPostBaseline;
  }
}

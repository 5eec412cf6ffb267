/** Reachable ledgers on which a promise fails: each exact condition proved elsewhere, missed by one concrete run. */
module TimestampFailures {
  import opened Wrappers
  import opened TimestampManifest
  import opened TimestampVerification
  import opened TimestampApply
  import opened TimestampSupersession
  import opened TimestampWrites
  import opened TimestampRuns
  import opened TimestampHistory
  import opened TimestampExample

  function Dated(at: Instant): map<Column, Pair> {
    map[CreatedAt := Exact(at)]
  }

  lemma EventRowKeys(k: CellKey)
    requires EventCell(k)
    ensures RowKeys(k.row) == {k}
  {
    RowKeysMembers(k.row);
    assert k == CellKey(k.row, CreatedAt);
  }

  lemma OneStep(s: Store, a: Step)
    requires Integrity(s) && Enabled(s, a) && Integrity(Next(s, a))
    ensures Legal(s, [a]) && Run(s, [a]) == Next(s, a)
  {
    hide Enabled, Next, Integrity;
    assert [a][1..] == [];
  }

  /** The ledger of the first manifest is ready. */
  lemma FirstReady(k: CellKey, raw: Wall, id: Id)
    requires EventCell(k) && id != NIL_ID
    ensures var s := Verified1(k, raw, id);
            Ready(s, [id]) && Integrity(s) && Keyed(s.manifests) && VerifiesAt(s, id) && Lineage(s.manifests, [id])
  {
    hide *;
    FirstApply(k, raw, id);
    AfterFirst(k, raw, id);
    ReadyGives(Verified1(k, raw, id), [id]);
  }

  lemma TwoSteps(s: Store, a: Step, b: Step)
    requires Integrity(s) && Enabled(s, a) && Integrity(Next(s, a)) && Enabled(Next(s, a), b) && Integrity(Next(Next(s, a), b))
    ensures Legal(s, [a, b]) && Run(s, [a, b]) == Next(Next(s, a), b)
  {
    hide Enabled, Next, Integrity;
    assert [a, b][1..] == [b] && [b][1..] == [];
    assert Legal(Next(s, a), [b]) && Run(Next(s, a), [b]) == Next(Next(s, a), b);
  }

  /** After the given steps the manifest passes its preflight and is still not applied. */
  ghost predicate RefusedAfter(s: Store, steps: seq<Step>, m: Manifest, t1: Instant, t2: Instant) {
    && Integrity(s) && Legal(s, steps) && Integrity(Run(s, steps))
    && Applicable(Run(s, steps), m, t1, t2) && !Enabled(Run(s, steps), Step.Apply(m, t1, t2))
  }

  lemma RefusedAt(s: Store, steps: seq<Step>, after: Store, m: Manifest, t1: Instant, t2: Instant)
    requires Integrity(s) && Legal(s, steps) && Run(s, steps) == after && Integrity(after)
    requires Applicable(after, m, t1, t2) && !Enabled(after, Step.Apply(m, t1, t2))
    ensures RefusedAfter(s, steps, m, t1, t2)
  {
    hide Integrity, Legal, Run, Applicable, Enabled;
  }

  /** An apply whose clock is not clear of the tombstones does not happen. */
  lemma Clouded(s: Store, chain: seq<Id>, m: Manifest, t1: Instant, t2: Instant)
    requires Integrity(s) && Lineage(s.manifests, chain) && Applicable(s, m, t1, t2)
    requires DistinctKeys(m.cells) && Keyed(s.manifests) && (chain != [] ==> chain[0] in s.manifests)
    requires !ClockClear(s, chain, m, t1, t2)
    ensures !Enabled(s, Step.Apply(m, t1, t2))
  {
    hide Integrity, Lineage, Applicable, ClockClear, VerifiesAt, AfterApply, DistinctKeys, Keyed;
    ApplicableIsAdmitted(s, m, t1, t2);
    PreflightSufficient(s, chain, m, t1, t2);
  }

  // ---------------------------------------------------------------- a first manifest after a deletion

  function Grave(at: Instant): Tombstone {
    Tombstone(View(Exact(at), Some(at)), 1, RETENTION, at)
  }

  lemma BornCells(s: Store, g: CellKey, at: Instant)
    requires EventCell(g) && RowKeys(g.row) == {g} && g !in s.cells
    ensures CanInsert(s, g.row, Dated(at)) && Inserted(s, g.row, Dated(at)) == s.(cells := s.cells[g := Exact(at)])
  {
  }

  lemma BuriedAgain(s: Store, born: Store, g: CellKey, at: Instant)
    requires EventCell(g) && RowKeys(g.row) == {g} && g !in s.cells && born == s.(cells := s.cells[g := Exact(at)])
    requires WholeRows(born.cells.Keys) && CanDelete(born, g.row, 1)
    ensures Deleted(born, g.row, 1, at) == s.(tombstones := s.tombstones[g := Grave(at)], clock := at)
  {
    assert CellKey(g.row, CreatedAt) == g;
    assert LiveView(born.cells, g) == View(Exact(at), Some(at));
    assert born.cells - {g} == s.cells;
    assert RowTombstones(born, g.row, 1, at) == map[g := Grave(at)];
  }

  /** An event row written and deleted again leaves the live cells as they were, and a tombstone. */
  lemma BornAndBuried(s: Store, g: CellKey, at: Instant)
    requires Integrity(s) && EventCell(g) && g !in s.cells && g !in s.tombstones && s.clock <= at
    ensures Legal(s, Passing(g.row, at))
    ensures Run(s, Passing(g.row, at)) == s.(tombstones := s.tombstones[g := Grave(at)], clock := at)
  {
    var born := s.(cells := s.cells[g := Exact(at)]);
    EventRowKeys(g);
    BornCells(s, g, at);
    assert CellKey(g.row, CreatedAt) == g && CanDelete(born, g.row, 1);
    hide Integrity, CanDelete, CanInsert, RowKeys, Inserted, EventCell;
    NextIntegrity(s, Insert(g.row, Dated(at)));
    assert WholeRows(born.cells.Keys) by { IntegrityGives(born); }
    BuriedAgain(s, born, g, at);
    NextIntegrity(born, Step.Delete(g.row, 1, at));
    hide WholeRows, Deleted;
    TwoSteps(s, Insert(g.row, Dated(at)), Step.Delete(g.row, 1, at));
  }

  lemma IntegrityGives(s: Store)
    requires Integrity(s)
    ensures Keyed(s.manifests) && WholeRows(s.cells.Keys)
  {
  }

  /** Before a first manifest the preflight looks at live cells alone. */
  lemma TombstonesUnseen(s: Store, after: Store, m: Manifest)
    requires Keyed(s.manifests) && Preflight(s, m) && Tips(s.manifests) == {}
    requires after.cells == s.cells && after.manifests == s.manifests && after.expand == s.expand
    ensures Preflight(after, m)
  {
  }

  /** An event row written and deleted at one moment. */
  function Passing(row: RowKey, at: Instant): seq<Step> {
    [Insert(row, Dated(at)), Step.Delete(row, 1, at)]
  }

  /** A row written and deleted between the migration and the first apply: the preflight passes, and no reading of the
      clock past the row's creation lets the closing verification pass. */
  lemma FirstApplyRefused(k: CellKey, raw: Wall, id: Id, g: CellKey, t1: Instant, t2: Instant)
    requires EventCell(k) && EventCell(g) && g != k && id != NIL_ID && 0 <= t1 <= t2 && 0 < t2
    ensures RefusedAfter(Migrated(k, raw), Passing(g.row, 0), Document(id, None, k, raw, false), t1, t2)
  {
    var s, m := Migrated(k, raw), Document(id, None, k, raw, false);
    var after := s.(tombstones := s.tombstones[g := Grave(0)], clock := 0);
    MigratedShape(k, raw, id);
    hide *;
    MigratedIntegrity(k, raw);
    FirstPreflight(k, raw, id);
    DocumentValid(id, None, k, raw, false);
    BornAndBuried(s, g, 0);
    LineageOverRuns(s, Passing(g.row, 0), []);
    IntegrityGives(s);
    TombstonesUnseen(s, after, m);
    NoChain(g.row);
    BuriedBeforeApply(s, after, m, g, t1, t2);
    RefusedAt(s, Passing(g.row, 0), after, m, t1, t2);
  }

  lemma NoChain(row: RowKey)
    ensures RunChain(Passing(row, 0), []) == []
  {
    var steps := Passing(row, 0);
    assert steps[1..] == [Step.Delete(row, 1, 0)] && steps[1..][1..] == [];
    assert RunChain(steps[1..], []) == RunChain([], []);
  }

  lemma MigratedShape(k: CellKey, raw: Wall, id: Id)
    ensures var s, m := Migrated(k, raw), Document(id, None, k, raw, false);
            && s.clock == 0 && s.tombstones == map[] && s.manifests == map[] && s.cells.Keys == {k} && Tips(s.manifests) == {}
            && m.approvedAt == 0 && m.id == id && DistinctKeys(m.cells)
  {
  }

  lemma BuriedBeforeApply(s: Store, after: Store, m: Manifest, g: CellKey, t1: Instant, t2: Instant)
    requires after == s.(tombstones := s.tombstones[g := Grave(0)], clock := 0) && s.manifests == map[]
    requires Integrity(after) && Lineage(after.manifests, []) && ValidDocument(m) && DistinctKeys(m.cells)
    requires Keyed(s.manifests) && Preflight(after, m) && m.approvedAt == 0 && 0 <= t1 <= t2 && 0 < t2
    ensures Applicable(after, m, t1, t2) && !Enabled(after, Step.Apply(m, t1, t2))
  {
    hide Integrity, Lineage, ValidDocument, DistinctKeys, Preflight, Keyed, Enabled, ClockClear;
    GraveClouds(after, m, g, t1, t2);
    Clouded(after, [], m, t1, t2);
  }

  lemma GraveClouds(s: Store, m: Manifest, g: CellKey, t1: Instant, t2: Instant)
    requires DistinctKeys(m.cells) && Keyed(s.manifests) && g in s.tombstones && s.tombstones[g] == Grave(0) && 0 < t2
    ensures !ClockClear(s, [], m, t1, t2)
  {
    assert VerifyPostBaseline(s.tombstones[g].view, t2).Err?;
    hide DistinctKeys, Keyed;
  }

  // ---------------------------------------------------------------- a promotion coinciding with a deletion

  lemma PromotedKey(k: CellKey, raw: Wall, id: Id, later: Id)
    ensures var a, b := Document(id, None, k, raw, false), Document(later, Some(id), k, raw, true);
            DistinctKeys(a.cells) && DistinctKeys(b.cells) && PromotedBy(a, b) == {k}
            && CellMap(a.cells)[k] == Decided(k, raw, false)
  {
    DocumentKeys(Document(id, None, k, raw, false), k, raw, false);
    DocumentKeys(Document(later, Some(id), k, raw, true), k, raw, true);
    hide DistinctKeys, KeysOf;
  }

  /** The store of the first manifest once its one row is deleted. */
  function Buried1(k: CellKey, raw: Wall, id: Id, at: Instant): Store {
    Verified1(k, raw, id).(cells := map[],
                           tombstones := map[k := Tombstone(View(Pair(Some(raw), None), None), 1, RETENTION, at)],
                           clock := at)
  }

  /** Deleting the row at reading 1 of the clock. */
  function Burial(k: CellKey): Step {
    Step.Delete(k.row, 1, 1)
  }

  lemma Burying(k: CellKey, raw: Wall, id: Id)
    requires EventCell(k) && Integrity(Verified1(k, raw, id))
    ensures Enabled(Verified1(k, raw, id), Burial(k)) && Next(Verified1(k, raw, id), Burial(k)) == Buried1(k, raw, id, 1)
  {
    var s := Verified1(k, raw, id);
    EventRowKeys(k);
    assert CellKey(k.row, CreatedAt) == k;
    assert CanDelete(s, k.row, 1);
    assert WholeRows(s.cells.Keys) by { IntegrityGives(s); }
    hide Integrity, CanDelete, WholeRows;
    assert LiveView(s.cells, k) == View(Pair(Some(raw), None), None);
    assert RowTombstones(s, k.row, 1, 1) == Buried1(k, raw, id, 1).tombstones;
    assert s.cells - {k} == map[];
  }

  lemma BuriedPreflight(k: CellKey, raw: Wall, id: Id, later: Id, at: Instant)
    requires EventCell(k) && id != NIL_ID && later != NIL_ID && later != id
    requires Keyed(Verified1(k, raw, id).manifests) && VerifiesAt(Buried1(k, raw, id, at), id)
    requires VerifiesAt(Verified1(k, raw, id), id)
    ensures Preflight(Buried1(k, raw, id, at), Document(later, Some(id), k, raw, true))
  {
    var s, m := Buried1(k, raw, id, at), Document(later, Some(id), k, raw, true);
    SecondPreflight(k, raw, id, later);
    PromotedKey(k, raw, id, later);
    assert s.manifests == Verified1(k, raw, id).manifests && s.manifests[id].doc == Document(id, None, k, raw, false);
    hide ValidSupersession, VerifiesAt, Keyed, DistinctKeys, PromotedBy, Incomplete, IsTip, Document, CellMap;
    assert Promotable(s, Decided(k, raw, false), k);
  }

  lemma DeletionStaysReady(s: Store, chain: seq<Id>, step: Step)
    requires Ready(s, chain) && Integrity(s) && Enabled(s, step) && step.Delete?
    ensures Ready(Next(s, step), chain)
  {
    hide Integrity, Lineage, VerifiedAlong, MatchesExpand, CanDelete, Deleted;
    LineageIsChain(s.manifests, chain);
    NextReady(s, step, chain);
  }

  lemma BuriedApplicable(k: CellKey, raw: Wall, id: Id, later: Id)
    requires later != id && Integrity(Buried1(k, raw, id, 1)) && Keyed(Buried1(k, raw, id, 1).manifests)
    requires ValidDocument(Document(later, Some(id), k, raw, true))
    requires Preflight(Buried1(k, raw, id, 1), Document(later, Some(id), k, raw, true))
    ensures Applicable(Buried1(k, raw, id, 1), Document(later, Some(id), k, raw, true), 1, 1)
  {
    hide Integrity, Keyed, ValidDocument, Preflight;
  }

  lemma RefusedByPromotion(k: CellKey, raw: Wall, id: Id, later: Id)
    requires Integrity(Buried1(k, raw, id, 1)) && Lineage(Buried1(k, raw, id, 1).manifests, [id])
    requires Applicable(Buried1(k, raw, id, 1), Document(later, Some(id), k, raw, true), 1, 1)
    ensures !Enabled(Buried1(k, raw, id, 1), Step.Apply(Document(later, Some(id), k, raw, true), 1, 1))
  {
    var s, m := Buried1(k, raw, id, 1), Document(later, Some(id), k, raw, true);
    BuriedClouds(k, raw, id, later);
    hide *;
    Clouded(s, [id], m, 1, 1);
  }

  lemma BuriedClouds(k: CellKey, raw: Wall, id: Id, later: Id)
    requires Keyed(Buried1(k, raw, id, 1).manifests)
    ensures var s, m := Buried1(k, raw, id, 1), Document(later, Some(id), k, raw, true);
            DistinctKeys(m.cells) && id in s.manifests && !ClockClear(s, [id], m, 1, 1)
  {
    var s, m := Buried1(k, raw, id, 1), Document(later, Some(id), k, raw, true);
    PromotedKey(k, raw, id, later);
    assert s.manifests[id].doc == Document(id, None, k, raw, false) && k in s.tombstones && s.tombstones[k].deletedAt == 1;
    hide DistinctKeys, PromotedBy, Document, Keyed, Buried1;
    assert !DeletionsPrecede(s, s.manifests[id].doc, m, 1);
  }

  /** A promoted cell deleted at the very reading of the clock at which the promotion is applied: the ledger is ready
      before and after the deletion, the preflight passes, and the closing verification does not. */
  lemma SecondApplyRefused(k: CellKey, raw: Wall, id: Id, later: Id)
    requires EventCell(k) && id != NIL_ID && later != NIL_ID && later != id
    ensures Ready(Verified1(k, raw, id), [id])
    ensures RefusedAfter(Verified1(k, raw, id), [Burial(k)], Document(later, Some(id), k, raw, true), 1, 1)
  {
    var s, after, m := Verified1(k, raw, id), Buried1(k, raw, id, 1), Document(later, Some(id), k, raw, true);
    hide *;
    FirstReady(k, raw, id);
    BuryingRuns(k, raw, id);
    BuriedRefused(k, raw, id, later);
    RefusedAt(s, [Burial(k)], after, m, 1, 1);
  }

  lemma BuryingRuns(k: CellKey, raw: Wall, id: Id)
    requires EventCell(k) && id != NIL_ID
    ensures Integrity(Verified1(k, raw, id)) && Ready(Buried1(k, raw, id, 1), [id])
    ensures Legal(Verified1(k, raw, id), [Burial(k)])
    ensures Run(Verified1(k, raw, id), [Burial(k)]) == Buried1(k, raw, id, 1)
  {
    hide *;
    FirstReady(k, raw, id);
    Burying(k, raw, id);
    BurialReady(Verified1(k, raw, id), [id], k);
    OneStep(Verified1(k, raw, id), Burial(k));
  }

  lemma BurialReady(s: Store, chain: seq<Id>, k: CellKey)
    requires Ready(s, chain) && Integrity(s) && Enabled(s, Burial(k))
    ensures Ready(Next(s, Burial(k)), chain) && Integrity(Next(s, Burial(k)))
  {
    assert Burial(k).Delete?;
    hide *;
    DeletionStaysReady(s, chain, Burial(k));
    ReadyGives(Next(s, Burial(k)), chain);
  }

  lemma BuriedRefused(k: CellKey, raw: Wall, id: Id, later: Id)
    requires EventCell(k) && id != NIL_ID && later != NIL_ID && later != id && Ready(Buried1(k, raw, id, 1), [id])
    ensures var s, m := Buried1(k, raw, id, 1), Document(later, Some(id), k, raw, true);
            Integrity(s) && Applicable(s, m, 1, 1) && !Enabled(s, Step.Apply(m, 1, 1))
  {
    hide *;
    FirstReady(k, raw, id);
    ReadyGives(Buried1(k, raw, id, 1), [id]);
    BuriedPreflight(k, raw, id, later, 1);
    DocumentValid(later, Some(id), k, raw, true);
    BuriedApplicable(k, raw, id, later);
    RefusedByPromotion(k, raw, id, later);
  }

  // ---------------------------------------------------------------- a row dated before the baseline

  /** Into the ready ledger of the first manifest, whose baseline is 0, a row dated before it is let in, and the ledger
      is ready no more. */
  lemma EarlyInsertUnreadies(k: CellKey, raw: Wall, id: Id, g: CellKey)
    requires EventCell(k) && EventCell(g) && g != k && id != NIL_ID
    ensures Integrity(Verified1(k, raw, id)) && Ready(Verified1(k, raw, id), [id])
    ensures Enabled(Verified1(k, raw, id), Insert(g.row, Dated(-1)))
    ensures !Ready(Next(Verified1(k, raw, id), Insert(g.row, Dated(-1))), [id])
  {
    hide *;
    FirstReady(k, raw, id);
    FirstShape(k, raw, id, g);
    InsertDecides(Verified1(k, raw, id), [id], g, -1);
  }

  lemma FirstShape(k: CellKey, raw: Wall, id: Id, g: CellKey)
    requires g != k
    ensures g !in Verified1(k, raw, id).cells && g !in Verified1(k, raw, id).tombstones
    ensures Standing(Verified1(k, raw, id).manifests, id) && Baseline(Verified1(k, raw, id).manifests, [id]) == 0
  {
  }

  lemma InsertDecides(s: Store, chain: seq<Id>, g: CellKey, at: Instant)
    requires Ready(s, chain) && Integrity(s) && EventCell(g) && g !in s.cells && g !in s.tombstones
    ensures CanInsert(s, g.row, Dated(at)) && Inserted(s, g.row, Dated(at)) == s.(cells := s.cells[g := Exact(at)])
    ensures Enabled(s, Insert(g.row, Dated(at))) && Next(s, Insert(g.row, Dated(at))) == Inserted(s, g.row, Dated(at))
    ensures Integrity(Inserted(s, g.row, Dated(at))) && chain != [] && IsChain(s.manifests, chain)
    ensures Ready(Inserted(s, g.row, Dated(at)), chain) <==> Baseline(s.manifests, chain) <= at
  {
    hide Integrity, RowKeys, Inserted, EventCell, CanInsert, VerifiedAlong, MatchesExpand, Lineage;
    EventRowKeys(g);
    BornCells(s, g, at);
    NextIntegrity(s, Insert(g.row, Dated(at)));
    LineageIsChain(s.manifests, chain);
    hide Ready, IsChain, Baseline;
    InsertReady(s, g.row, Dated(at), chain);
    assert CellKey(g.row, CreatedAt) == g by { EventKey(g); }
  }

  lemma EventKey(g: CellKey)
    requires EventCell(g)
    ensures CellKey(g.row, CreatedAt) == g
  {
  }

  /** Redating the early row at the baseline makes the ledger ready again. */
  lemma RedatedReady(k: CellKey, raw: Wall, id: Id, g: CellKey)
    requires EventCell(k) && EventCell(g) && g != k && id != NIL_ID
    ensures Integrity(Verified1(k, raw, id)) && Legal(Verified1(k, raw, id), Redating(g))
    ensures Ready(Run(Verified1(k, raw, id), Redating(g)), [id])
  {
    var s := Verified1(k, raw, id);
    hide *;
    FirstReady(k, raw, id);
    FirstShape(k, raw, id, g);
    InsertDecides(s, [id], g, -1);
    InsertDecides(s, [id], g, 0);
    RedatingRuns(s, g);
  }

  function Redating(g: CellKey): seq<Step> {
    [Insert(g.row, Dated(-1)), Rewrite(map[g := Exact(0)])]
  }

  lemma RedatingRuns(s: Store, g: CellKey)
    requires Integrity(s) && EventCell(g) && Enabled(s, Insert(g.row, Dated(-1)))
    requires Next(s, Insert(g.row, Dated(-1))) == s.(cells := s.cells[g := Exact(-1)])
    requires Inserted(s, g.row, Dated(0)) == s.(cells := s.cells[g := Exact(0)])
    ensures Legal(s, Redating(g)) && Run(s, Redating(g)) == Inserted(s, g.row, Dated(0))
  {
    var born, step := s.(cells := s.cells[g := Exact(-1)]), Rewrite(map[g := Exact(0)]);
    hide Integrity, Inserted;
    NextIntegrity(s, Insert(g.row, Dated(-1)));
    RedatedAgain(s, born, g);
    NextIntegrity(born, step);
    hide Enabled, Next, CanRewrite, Rewritten;
    TwoSteps(s, Insert(g.row, Dated(-1)), step);
  }

  lemma RedatedAgain(s: Store, born: Store, g: CellKey)
    requires EventCell(g) && born == s.(cells := s.cells[g := Exact(-1)]) && Integrity(born)
    ensures Enabled(born, Rewrite(map[g := Exact(0)]))
    ensures Next(born, Rewrite(map[g := Exact(0)])) == s.(cells := s.cells[g := Exact(0)])
  {
    hide Integrity;
    assert CellMayBecome(g, Exact(-1), Exact(0));
    assert s.cells[g := Exact(-1)] + map[g := Exact(0)] == s.cells[g := Exact(0)];
  }
}

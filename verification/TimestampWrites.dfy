/** The writes that go on after a manifest is verified — new rows, rewritten pairs, authorized deletions —
    and exactly when each keeps the store verifying. */
module TimestampWrites {
  import opened Wrappers
  import opened TimestampManifest
  import opened TimestampVerification
  import opened TimestampApply

  function RowKeys(row: RowKey): set<CellKey> {
    set c | c in Columns(row.table) :: CellKey(row, c)
  }

  lemma RowKeysMembers(row: RowKey)
    ensures forall k :: k in RowKeys(row) <==> k.row == row && k.column in Columns(row.table)
  {
    forall k: CellKey | k.row == row && k.column in Columns(row.table)
      ensures k in RowKeys(row)
    {
      assert k == CellKey(row, k.column);
    }
  }

  // ---------------------------------------------------------------- inserting a row

  function RowCells(row: RowKey, pairs: map<Column, Pair>): map<CellKey, Pair>
    requires pairs.Keys == Columns(row.table)
  {
    map k | k in RowKeys(row) :: pairs[k.column]
  }

  /** What the pair guard and the NOT NULL columns let through. */
  predicate CanInsert(s: Store, row: RowKey, pairs: map<Column, Pair>) {
    && row.id != NIL_ID
    && pairs.Keys == Columns(row.table)
    && (forall c :: c in pairs ==> ExactPair(pairs[c]))
    && pairs[CreatedAt].raw.Some?
    && (row.table == Execution ==> pairs[UpdatedAt].raw.Some? && pairs[CallbackDeadlineAt].raw.Some?)
    && RowKeys(row) !! s.cells.Keys
  }

  function Inserted(s: Store, row: RowKey, pairs: map<Column, Pair>): Store
    requires pairs.Keys == Columns(row.table)
  {
    s.(cells := s.cells + RowCells(row, pairs))
  }

  /** A row keeps the store verifying exactly when it is dated at or after the baseline and its id was
      never deleted. */
  predicate HarmlessInsert(s: Store, row: RowKey, pairs: map<Column, Pair>, baseline: Instant)
    requires CanInsert(s, row, pairs)
  {
    baseline <= pairs[CreatedAt].instant.value && CellKey(row, CreatedAt) !in s.tombstones
  }

  lemma TombstoneRow(ts: map<CellKey, Tombstone>, k: CellKey)
    requires ValidTombstones(ts) && k in ts
    ensures CellKey(k.row, CreatedAt) in ts.Keys
  {
    assert RowWhole(ts.Keys, k.row) && CreatedAt in Columns(k.row.table);
  }

  lemma InsertedCells(s: Store, row: RowKey, pairs: map<Column, Pair>)
    requires CanInsert(s, row, pairs) && (forall k :: k in s.cells ==> ValidKey(k))
    ensures var after := Inserted(s, row, pairs);
            && after.cells.Keys == s.cells.Keys + RowKeys(row)
            && (forall k :: k in s.cells ==> k.row != row && after.cells[k] == s.cells[k]
                                             && LiveView(after.cells, k) == LiveView(s.cells, k))
            && (forall k :: k in RowKeys(row) ==> LiveView(after.cells, k) == View(pairs[k.column], pairs[CreatedAt].instant))
  {
    RowKeysMembers(row);
    forall k | k in s.cells
      ensures k.row != row
    {
      assert k.row == row ==> k in RowKeys(row);
    }
    hide ValidKey, RowKeys;
    assert CellKey(row, CreatedAt) in RowKeys(row);
  }

  lemma RecordedAreHeld(s: Store, m: Manifest, baseline: Instant, promoted: map<CellKey, Instant>)
    requires CellsVerified(s, m, baseline, promoted)
    ensures KeysOf(m.cells) <= s.cells.Keys + s.tombstones.Keys
  {
    forall k | k in KeysOf(m.cells)
      ensures k in s.cells.Keys + s.tombstones.Keys
    {
      var p :| p in m.cells && p.key == k;
      assert CellVerified(s, p, baseline, Lookup(promoted, p.key));
    }
  }

  lemma NewKeysUnrecorded(s: Store, m: Manifest, row: RowKey, baseline: Instant, promoted: map<CellKey, Instant>)
    requires CellsVerified(s, m, baseline, promoted) && RowKeys(row) !! s.cells.Keys && RowKeys(row) !! s.tombstones.Keys
    ensures RowKeys(row) !! KeysOf(m.cells)
  {
    RecordedAreHeld(s, m, baseline, promoted);
  }

  lemma InsertedLater(s: Store, recorded: set<CellKey>, row: RowKey, pairs: map<Column, Pair>, baseline: Instant)
    requires CanInsert(s, row, pairs) && (forall k :: k in s.cells ==> ValidKey(k))
    requires LaterCellsVerified(s, recorded, baseline) && RowKeys(row) !! recorded
    ensures LaterCellsVerified(Inserted(s, row, pairs), recorded, baseline) <==> baseline <= pairs[CreatedAt].instant.value
  {
    var after := Inserted(s, row, pairs);
    InsertedCells(s, row, pairs);
    RowKeysMembers(row);
    assert CellKey(row, CreatedAt) in RowKeys(row);
    forall k | k in RowKeys(row)
      ensures VerifyPostBaseline(View(pairs[k.column], pairs[CreatedAt].instant), baseline).Ok?
              <==> baseline <= pairs[CreatedAt].instant.value
    {
      assert ExactPair(pairs[k.column]) && ExactPair(pairs[CreatedAt]);
    }
    assert after.tombstones == s.tombstones;
    hide LiveView, Inserted, ValidKey, RowKeys, VerifyPostBaseline, CanInsert;
  }

  lemma InsertedRecorded(s: Store, m: Manifest, row: RowKey, pairs: map<Column, Pair>, baseline: Instant, promoted: map<CellKey, Instant>)
    requires CanInsert(s, row, pairs) && (forall k :: k in s.cells ==> ValidKey(k))
    requires CellsVerified(s, m, baseline, promoted) && RowKeys(row) !! s.tombstones.Keys
    ensures CellsVerified(Inserted(s, row, pairs), m, baseline, promoted) <==> baseline <= pairs[CreatedAt].instant.value
  {
    var after := Inserted(s, row, pairs);
    InsertedCells(s, row, pairs);
    NewKeysUnrecorded(s, m, row, baseline, promoted);
    InsertedLater(s, KeysOf(m.cells), row, pairs, baseline);
    assert after.tombstones == s.tombstones;
    hide VerifyHistorical, VerifyDeleted, LiveView, Inserted, ValidKey, RowKeys, CanInsert, LaterCellsVerified;
    forall p | p in m.cells
      ensures CellVerified(after, p, baseline, Lookup(promoted, p.key))
    {
      assert CellVerified(s, p, baseline, Lookup(promoted, p.key));
      assert p.key in KeysOf(m.cells);
    }
  }

  lemma InsertKeeps(s: Store, chain: seq<Id>, row: RowKey, pairs: map<Column, Pair>)
    requires Integrity(s) && VerifiedAlong(s, chain) && CanInsert(s, row, pairs)
    ensures VerifiedAlong(Inserted(s, row, pairs), chain) <==> HarmlessInsert(s, row, pairs, Baseline(s.manifests, chain))
  {
    var m, b, promoted := s.manifests[chain[0]].doc, Baseline(s.manifests, chain), AllPromotions(s.manifests, chain);
    RowKeysMembers(row);
    InsertedCells(s, row, pairs);
    hide ValidDocument, ChainPromotes, CellsVerified, LiveView;
    if CellKey(row, CreatedAt) in s.tombstones {
      assert CellKey(row, CreatedAt) in RowKeys(row);
    } else {
      forall k | k in RowKeys(row)
        ensures k !in s.tombstones.Keys
      {
        if k in s.tombstones { TombstoneRow(s.tombstones, k); }
      }
      InsertedRecorded(s, m, row, pairs, b, promoted);
    }
  }

  // ---------------------------------------------------------------- rewriting cells

  /** The pair guard on one updated cell, outside a shadow fill: a pair changes as a whole, to one exact UTC pair.
      Filling a shadow alone needs provenance of the filling transaction, which only an apply writes. */
  predicate PairGuard(before: Pair, after: Pair) {
    after == before || (after.raw != before.raw && after.instant != before.instant && ExactPair(after))
  }

  /** The guard inside an apply: with provenance of its own transaction a null shadow may also be filled alone. */
  predicate FillGuard(before: Pair, after: Pair, licensed: bool) {
    PairGuard(before, after)
    || (licensed && after.raw == before.raw && before.raw.Some? && before.instant.None? && after.instant.Some?)
  }

  /** The trigger on `started_at` and `completed_at`: a pair once set stays. */
  predicate OneShot(before: Pair, after: Pair) {
    if before.instant.Some? then after == before
    else if before.raw.Some? then after.raw == before.raw
    else ExactPair(after)
  }

  predicate Lifecycle(c: Column) {
    c == StartedAt || c == CompletedAt
  }

  /** What the triggers and the NOT NULL columns let one update make of a cell. */
  predicate CellMayBecome(k: CellKey, before: Pair, after: Pair) {
    && PairGuard(before, after)
    && (if Lifecycle(k.column) then OneShot(before, after) else after.raw.Some?)
  }

  /** Updates of any cells, creation times included, that the triggers let through. */
  predicate CanRewrite(s: Store, delta: map<CellKey, Pair>) {
    delta.Keys <= s.cells.Keys && forall k :: k in delta ==> CellMayBecome(k, s.cells[k], delta[k])
  }

  function Rewritten(s: Store, delta: map<CellKey, Pair>): Store {
    s.(cells := s.cells + delta)
  }

  /** A pair that really changes becomes one exact UTC instant. */
  lemma ChangedIsExact(k: CellKey, before: Pair, after: Pair)
    requires CellMayBecome(k, before, after) && after != before
    ensures after.raw.Some? && after.instant == after.raw && before.raw != after.raw
  {
  }

  /** What a writer could test before moving one recorded cell to the instant `at`. */
  predicate HarmlessRewriteOf(p: CellDecision, at: Instant, baseline: Instant) {
    if p.raw == Some(at) then ExpectedInstant(p) == Some(at)
    else MayEvolve(p) && baseline <= at
  }

  /** No rewrite moves the creation of an unrecorded row before the baseline. */
  ghost predicate DatedFrom(s: Store, recorded: set<CellKey>, delta: map<CellKey, Pair>, baseline: Instant)
    requires CanRewrite(s, delta)
  {
    forall k :: k in delta && k !in recorded && k.column == CreatedAt && delta[k] != s.cells[k] && delta[k].instant.Some? ==>
      baseline <= delta[k].instant.value
  }

  /** Every recorded cell that changes may evolve, and every unrecorded row stays dated from the baseline on. */
  ghost predicate HarmlessRewrite(s: Store, m: Manifest, delta: map<CellKey, Pair>, baseline: Instant)
    requires CanRewrite(s, delta)
  {
    && (forall p :: p in m.cells && p.key in delta && delta[p.key] != s.cells[p.key] && delta[p.key].raw.Some? ==>
          HarmlessRewriteOf(p, delta[p.key].raw.value, baseline))
    && DatedFrom(s, KeysOf(m.cells), delta, baseline)
  }

  lemma RewriteOfDecides(p: CellDecision, v: Pair, baseline: Instant)
    requires ExactPair(v) && v.raw.Some?
    ensures VerifyHistorical(p, v, baseline).Ok? <==> HarmlessRewriteOf(p, v.raw.value, baseline)
  {
    HistoricalCharacterized(p, v, baseline);
    hide VerifyHistorical;
  }

  lemma RewrittenRecorded(s: Store, p: CellDecision, delta: map<CellKey, Pair>, baseline: Instant, promotedAt: Option<Instant>)
    requires CanRewrite(s, delta) && CellVerified(s, p, baseline, promotedAt) && s.cells.Keys !! s.tombstones.Keys
    ensures CellVerified(Rewritten(s, delta), p, baseline, promotedAt) <==>
            (p.key in delta && delta[p.key] != s.cells[p.key] && delta[p.key].raw.Some? ==>
               HarmlessRewriteOf(p, delta[p.key].raw.value, baseline))
  {
    if p.key in delta && delta[p.key] != s.cells[p.key] {
      ChangedIsExact(p.key, s.cells[p.key], delta[p.key]);
      RewriteOfDecides(p, delta[p.key], baseline);
    }
    hide VerifyHistorical, VerifyDeleted, HarmlessRewriteOf, CellMayBecome;
  }

  /** Whole rows are recorded or not at all. */
  ghost predicate RecordedByRow(cells: set<CellKey>, recorded: set<CellKey>) {
    forall k :: k in cells && k !in recorded ==> CellKey(k.row, CreatedAt) !in recorded && CellKey(k.row, CreatedAt) in cells
  }

  lemma RewrittenExact(s: Store, delta: map<CellKey, Pair>, k: CellKey)
    requires CanRewrite(s, delta) && k in s.cells && ExactPair(s.cells[k])
    ensures ExactPair(Rewritten(s, delta).cells[k])
  {
    if k in delta && delta[k] != s.cells[k] { ChangedIsExact(k, s.cells[k], delta[k]); }
  }

  lemma RewriteKeepsLater(s: Store, delta: map<CellKey, Pair>, recorded: set<CellKey>, baseline: Instant)
    requires CanRewrite(s, delta) && LaterCellsVerified(s, recorded, baseline) && RecordedByRow(s.cells.Keys, recorded)
    ensures LaterCellsVerified(Rewritten(s, delta), recorded, baseline) <==> DatedFrom(s, recorded, delta, baseline)
  {
    var after := Rewritten(s, delta);
    if DatedFrom(s, recorded, delta, baseline) {
      forall k | k in s.cells && k !in recorded
        ensures VerifyPostBaseline(LiveView(after.cells, k), baseline).Ok?
      {
        LaterCellRewritten(s, delta, recorded, baseline, k);
      }
    } else {
      var k :| k in delta && k !in recorded && k.column == CreatedAt && delta[k] != s.cells[k] && delta[k].instant.Some?
               && delta[k].instant.value < baseline;
      assert k == CellKey(k.row, CreatedAt);
      assert after.cells[k] == delta[k];
      assert VerifyPostBaseline(LiveView(after.cells, k), baseline).Err?;
    }
  }

  lemma LaterCellRewritten(s: Store, delta: map<CellKey, Pair>, recorded: set<CellKey>, baseline: Instant, k: CellKey)
    requires CanRewrite(s, delta) && LaterCellsVerified(s, recorded, baseline) && RecordedByRow(s.cells.Keys, recorded)
    requires DatedFrom(s, recorded, delta, baseline) && k in s.cells && k !in recorded
    ensures VerifyPostBaseline(LiveView(Rewritten(s, delta).cells, k), baseline).Ok?
  {
    var c := CellKey(k.row, CreatedAt);
    assert VerifyPostBaseline(LiveView(s.cells, k), baseline).Ok?;
    RewrittenExact(s, delta, k);
    if c in delta && delta[c] != s.cells[c] { ChangedIsExact(c, s.cells[c], delta[c]); }
    hide CellMayBecome, ExactPair;
  }

  lemma RewriteKeepsCells(s: Store, m: Manifest, delta: map<CellKey, Pair>, baseline: Instant, promoted: map<CellKey, Instant>)
    requires CanRewrite(s, delta) && CellsVerified(s, m, baseline, promoted) && s.cells.Keys !! s.tombstones.Keys
    requires RecordedByRow(s.cells.Keys, KeysOf(m.cells))
    ensures CellsVerified(Rewritten(s, delta), m, baseline, promoted) <==> HarmlessRewrite(s, m, delta, baseline)
  {
    forall p | p in m.cells
      ensures CellVerified(Rewritten(s, delta), p, baseline, Lookup(promoted, p.key)) <==>
              (p.key in delta && delta[p.key] != s.cells[p.key] && delta[p.key].raw.Some? ==>
                 HarmlessRewriteOf(p, delta[p.key].raw.value, baseline))
    {
      assert CellVerified(s, p, baseline, Lookup(promoted, p.key));
      RewrittenRecorded(s, p, delta, baseline, Lookup(promoted, p.key));
    }
    RewriteKeepsLater(s, delta, KeysOf(m.cells), baseline);
    hide HarmlessRewriteOf, CellVerified, LaterCellsVerified, CellMayBecome, CanRewrite, RecordedByRow, DatedFrom;
  }

  lemma RecordedRows(s: Store, m: Manifest)
    requires WholeRows(s.cells.Keys) && WholeRows(KeysOf(m.cells)) && forall k :: k in s.cells ==> ValidKey(k)
    ensures RecordedByRow(s.cells.Keys, KeysOf(m.cells))
  {
    forall k | k in s.cells.Keys
      ensures CellKey(k.row, CreatedAt) in KeysOf(m.cells) ==> k in KeysOf(m.cells)
      ensures CellKey(k.row, CreatedAt) in s.cells.Keys
    {
      assert RowWhole(s.cells.Keys, k.row) && ValidKey(k);
      if CellKey(k.row, CreatedAt) in KeysOf(m.cells) { RowInside(KeysOf(m.cells), k); }
    }
  }

  lemma RewriteKeeps(s: Store, chain: seq<Id>, delta: map<CellKey, Pair>)
    requires Integrity(s) && VerifiedAlong(s, chain) && CanRewrite(s, delta)
    ensures VerifiedAlong(Rewritten(s, delta), chain)
            <==> HarmlessRewrite(s, s.manifests[chain[0]].doc, delta, Baseline(s.manifests, chain))
  {
    var m := s.manifests[chain[0]].doc;
    assert WholeRows(KeysOf(m.cells)) && WholeRows(s.cells.Keys);
    hide ValidDocument, ValidTombstones, ChainPromotes, CellsVerified, HarmlessRewrite, CanRewrite, WholeRows, RecordedByRow;
    RecordedRows(s, m);
    RewriteKeepsCells(s, m, delta, Baseline(s.manifests, chain), AllPromotions(s.manifests, chain));
    assert delta.Keys <= s.cells.Keys by { RewriteWithin(s, delta); }
    assert Rewritten(s, delta).cells.Keys == s.cells.Keys;
  }

  lemma RewriteWithin(s: Store, delta: map<CellKey, Pair>)
    requires CanRewrite(s, delta)
    ensures delta.Keys <= s.cells.Keys
  {
  }

  function Exact(at: Instant): Pair {
    Pair(Some(at), Some(at))
  }

  /** The rewrite of the trigger and callback writers: `updated_at` always, and `started_at` or
      `completed_at` only while still null. */
  function TouchDelta(s: Store, row: RowKey, at: Instant, start: bool, complete: bool): map<CellKey, Pair>
    requires CellKey(row, StartedAt) in s.cells && CellKey(row, CompletedAt) in s.cells
  {
    map[CellKey(row, UpdatedAt) := Exact(at)]
    + (if start && s.cells[CellKey(row, StartedAt)].raw.None? then map[CellKey(row, StartedAt) := Exact(at)] else map[])
    + (if complete && s.cells[CellKey(row, CompletedAt)].raw.None? then map[CellKey(row, CompletedAt) := Exact(at)] else map[])
  }

  /** Exactly one half of the pair already shows the instant, so the other half would change alone. */
  predicate HalfThere(v: Pair, at: Instant) {
    (v.raw == Some(at)) != (v.instant == Some(at))
  }

  /** A shadow without its wall clock, which no verified store holds. */
  predicate Stray(v: Pair) {
    v.raw.None? && v.instant.Some?
  }

  /** The triggers refuse a touch exactly when `updated_at` would change in one half only, or a lifecycle column it
      sets has a stray shadow. */
  lemma TouchRefused(s: Store, row: RowKey, at: Instant, start: bool, complete: bool)
    requires row.table == Execution && RowKeys(row) <= s.cells.Keys && CellKey(row, UpdatedAt) in s.cells
    requires CellKey(row, StartedAt) in s.cells && CellKey(row, CompletedAt) in s.cells
    ensures CanRewrite(s, TouchDelta(s, row, at, start, complete)) <==>
            !HalfThere(s.cells[CellKey(row, UpdatedAt)], at)
            && (start ==> !Stray(s.cells[CellKey(row, StartedAt)])) && (complete ==> !Stray(s.cells[CellKey(row, CompletedAt)]))
  {
    var delta := TouchDelta(s, row, at, start, complete);
    var u, b, c := CellKey(row, UpdatedAt), CellKey(row, StartedAt), CellKey(row, CompletedAt);
    assert u in delta && delta[u] == Exact(at) && delta.Keys <= {u, b, c};
    assert b in delta ==> delta[b] == Exact(at);
    assert c in delta ==> delta[c] == Exact(at);
    hide RowKeys, TouchDelta;
    assert CellMayBecome(u, s.cells[u], Exact(at)) <==> !HalfThere(s.cells[u], at);
  }

  /** A recorded `updated_at` that has moved on and would come back to its recorded wall clock, unresolved there. */
  ghost predicate ComesBack(s: Store, m: Manifest, k: CellKey, at: Instant)
    requires k in s.cells
  {
    exists p :: p in m.cells && p.key == k && p.raw == Some(at) && s.cells[k].raw != p.raw && ExpectedInstant(p) != Some(at)
  }

  /** From the baseline on, a touch the triggers let through harms in exactly one way: `updated_at` comes back to
      its recorded wall clock after having moved off it. One-shot lifecycle writes never harm. */
  lemma TouchHarmless(s: Store, m: Manifest, row: RowKey, at: Instant, start: bool, complete: bool, baseline: Instant,
                      promoted: map<CellKey, Instant>)
    requires CellsVerified(s, m, baseline, promoted) && row.table == Execution && baseline <= at
    requires RowKeys(row) <= s.cells.Keys && CellKey(row, UpdatedAt) in s.cells
    requires CellKey(row, StartedAt) in s.cells && CellKey(row, CompletedAt) in s.cells
    requires CanRewrite(s, TouchDelta(s, row, at, start, complete))
    ensures HarmlessRewrite(s, m, TouchDelta(s, row, at, start, complete), baseline)
            <==> !ComesBack(s, m, CellKey(row, UpdatedAt), at)
  {
    var delta := TouchDelta(s, row, at, start, complete);
    TouchedKeys(s, row, at, start, complete);
    forall p | p in m.cells && p.key in delta && delta[p.key] != s.cells[p.key]
      ensures HarmlessRewriteOf(p, at, baseline) <==>
              !(p.key.column == UpdatedAt && p.raw == Some(at) && s.cells[p.key].raw != p.raw && ExpectedInstant(p) != Some(at))
    {
      TouchOfDecides(s, p, delta, at, baseline, Lookup(promoted, p.key));
    }
    hide ExpectedInstant, HarmlessRewriteOf, CanRewrite, CellsVerified, TouchDelta, RowKeys;
    assert CellKey(row, UpdatedAt) in delta;
    assert DatedFrom(s, KeysOf(m.cells), delta, baseline);
  }

  lemma TouchedKeys(s: Store, row: RowKey, at: Instant, start: bool, complete: bool)
    requires CellKey(row, StartedAt) in s.cells && CellKey(row, CompletedAt) in s.cells
    ensures var delta := TouchDelta(s, row, at, start, complete);
            && CellKey(row, UpdatedAt) in delta
            && forall k :: k in delta ==> delta[k] == Exact(at) && k.row == row
                                          && (k.column == UpdatedAt || (Lifecycle(k.column) && k in s.cells && s.cells[k].raw.None?))
  {
  }

  lemma TouchOfDecides(s: Store, p: CellDecision, delta: map<CellKey, Pair>, at: Instant, baseline: Instant,
                       promotedAt: Option<Instant>)
    requires CanRewrite(s, delta) && CellVerified(s, p, baseline, promotedAt) && baseline <= at
    requires p.key in delta && delta[p.key] == Exact(at) && delta[p.key] != s.cells[p.key] && p.key.row.table == Execution
    requires p.key.column == UpdatedAt || (Lifecycle(p.key.column) && s.cells[p.key].raw.None?)
    ensures HarmlessRewriteOf(p, at, baseline) <==>
            !(p.key.column == UpdatedAt && p.raw == Some(at) && s.cells[p.key].raw != p.raw && ExpectedInstant(p) != Some(at))
  {
    ChangedIsExact(p.key, s.cells[p.key], delta[p.key]);
    HistoricalCharacterized(p, s.cells[p.key], baseline);
    hide VerifyHistorical, VerifyDeleted;
  }

  // ---------------------------------------------------------------- authorized deletion of a row

  predicate CanDelete(s: Store, row: RowKey, operation: Id) {
    CellKey(row, CreatedAt) in s.cells && operation != NIL_ID && RowKeys(row) !! s.tombstones.Keys
  }

  /** The deletion trigger: the row goes, and one tombstone per column stays. */
  function Deleted(s: Store, row: RowKey, operation: Id, at: Instant): Store
    requires WholeRows(s.cells.Keys) && CanDelete(s, row, operation)
  {
    s.(cells := s.cells - RowKeys(row),
       tombstones := s.tombstones + RowTombstones(s, row, operation, at),
       clock := at)
  }

  function RowTombstones(s: Store, row: RowKey, operation: Id, at: Instant): map<CellKey, Tombstone>
    requires WholeRows(s.cells.Keys) && CanDelete(s, row, operation)
  {
    assert RowWhole(s.cells.Keys, CellKey(row, CreatedAt).row);
    map k | k in RowKeys(row) :: Tombstone(LiveView(s.cells, k), operation, RETENTION, at)
  }

  lemma DeletedKeys(s: Store, row: RowKey, operation: Id, at: Instant)
    requires Integrity(s) && CanDelete(s, row, operation)
    ensures RowKeys(row) <= s.cells.Keys
    ensures forall k :: k in s.tombstones ==> k.row != row
  {
    RowKeysMembers(row);
    assert RowWhole(s.cells.Keys, CellKey(row, CreatedAt).row) && CellKey(row, CreatedAt) in RowKeys(row);
    forall k | k in s.tombstones && k.row == row
      ensures false
    {
      TombstoneRow(s.tombstones, k);
    }
  }

  lemma WholeRowsJoin(keys: set<CellKey>, row: RowKey)
    requires WholeRows(keys)
    ensures WholeRows(keys + RowKeys(row))
  {
    RowKeysMembers(row);
    forall k | k in keys + RowKeys(row)
      ensures RowWhole(keys + RowKeys(row), k.row)
    {
      if k in keys { assert RowWhole(keys, k.row); }
    }
  }

  lemma TombstonesJoin(ts: map<CellKey, Tombstone>, gone: map<CellKey, Tombstone>, row: RowKey, operation: Id, at: Instant)
    requires ValidTombstones(ts) && gone.Keys == RowKeys(row) && forall k :: k in ts ==> k.row != row
    requires forall k :: k in gone ==> k.row == row && Authorized(gone[k]) && ValidKey(k)
    requires forall k :: k in gone ==> gone[k].operation == operation && gone[k].deletedAt == at
    ensures ValidTombstones(ts + gone)
  {
    hide Authorized, ValidKey, RowWhole, RowKeys;
    assert (ts + gone).Keys == ts.Keys + RowKeys(row);
    WholeRowsJoin(ts.Keys, row);
    assert OneDeletionPerRow(ts + gone);
  }

  lemma DeletedTombstones(s: Store, row: RowKey, operation: Id, at: Instant)
    requires Integrity(s) && CanDelete(s, row, operation)
    ensures ValidTombstones(Deleted(s, row, operation, at).tombstones)
  {
    DeletedKeys(s, row, operation, at);
    RowKeysMembers(row);
    hide LiveView, RowKeys, WholeRows, OneDeletionPerRow;
    TombstonesJoin(s.tombstones, RowTombstones(s, row, operation, at), row, operation, at);
  }

  lemma DeletedIntegrity(s: Store, row: RowKey, operation: Id, at: Instant)
    requires Integrity(s) && CanDelete(s, row, operation)
    ensures Integrity(Deleted(s, row, operation, at))
  {
    var after := Deleted(s, row, operation, at);
    DeletedTombstones(s, row, operation, at);
    RowKeysMembers(row);
    forall k | k in after.cells.Keys
      ensures RowWhole(after.cells.Keys, k.row)
    {
      assert RowWhole(s.cells.Keys, k.row);
    }
    hide ValidTombstones, Keyed, RowWhole;
  }

  /** A verified live cell, moved to a tombstone, verifies there. */
  lemma CellDies(p: CellDecision, v: View, baseline: Instant, operation: Id, at: Instant, promotedAt: Option<Instant>)
    requires ValidDecision(p) && VerifyHistorical(p, v.pair, baseline).Ok?
    ensures VerifyDeleted(p, Tombstone(v, operation, RETENTION, at), baseline, promotedAt).Ok?
  {
    if p.raw == v.pair.raw { ShadowIffResolved(p, v.pair, baseline); }
  }

  /** Where one cell is after the deletion. */
  lemma DeletedCell(s: Store, row: RowKey, operation: Id, at: Instant, k: CellKey)
    requires Integrity(s) && CanDelete(s, row, operation)
    ensures WholeRows(s.cells.Keys)
    ensures var after := Deleted(s, row, operation, at);
            if k in RowKeys(row) then
              k in s.cells && k !in after.cells && k in after.tombstones
              && after.tombstones[k] == Tombstone(LiveView(s.cells, k), operation, RETENTION, at)
            else
              (k in after.cells <==> k in s.cells) && (k in s.cells ==> after.cells[k] == s.cells[k])
              && (k in after.tombstones <==> k in s.tombstones) && (k in s.tombstones ==> after.tombstones[k] == s.tombstones[k])
  {
    DeletedKeys(s, row, operation, at);
    hide RowKeys, LiveView, CanDelete;
  }

  lemma DeleteKeepsCell(s: Store, p: CellDecision, row: RowKey, operation: Id, at: Instant, baseline: Instant,
                        promotedAt: Option<Instant>)
    requires Integrity(s) && CanDelete(s, row, operation) && ValidDecision(p) && CellVerified(s, p, baseline, promotedAt)
    requires WholeRows(s.cells.Keys)
    ensures CellVerified(Deleted(s, row, operation, at), p, baseline, promotedAt)
  {
    hide VerifyHistorical, VerifyDeleted, RowKeys, ValidDecision, Deleted, CanDelete, Integrity, WholeRows;
    DeletedCell(s, row, operation, at, p.key);
    if p.key in RowKeys(row) {
      CellDies(p, LiveView(s.cells, p.key), baseline, operation, at, promotedAt);
    }
  }

  lemma DeleteKeepsCells(s: Store, m: Manifest, row: RowKey, operation: Id, at: Instant, baseline: Instant,
                         promoted: map<CellKey, Instant>)
    requires Integrity(s) && CanDelete(s, row, operation)
    requires (forall p :: p in m.cells ==> ValidDecision(p)) && CellsVerified(s, m, baseline, promoted)
    ensures CellsVerified(Deleted(s, row, operation, at), m, baseline, promoted)
  {
    assert WholeRows(s.cells.Keys);
    hide Integrity, CanDelete, Deleted, ValidDecision, CellVerified, LaterCellsVerified, WholeRows;
    forall p | p in m.cells
      ensures CellVerified(Deleted(s, row, operation, at), p, baseline, Lookup(promoted, p.key))
    {
      DeleteKeepsCell(s, p, row, operation, at, baseline, Lookup(promoted, p.key));
    }
    DeleteKeepsLater(s, row, operation, at, KeysOf(m.cells), baseline);
  }

  lemma DeleteKeepsLater(s: Store, row: RowKey, operation: Id, at: Instant, recorded: set<CellKey>, baseline: Instant)
    requires Integrity(s) && CanDelete(s, row, operation) && LaterCellsVerified(s, recorded, baseline)
    ensures LaterCellsVerified(Deleted(s, row, operation, at), recorded, baseline)
  {
    var after := Deleted(s, row, operation, at);
    assert WholeRows(s.cells.Keys);
    hide Integrity, VerifyPostBaseline, CanDelete, Deleted, WholeRows, RowKeys;
    forall k | k !in recorded && k in after.cells
      ensures VerifyPostBaseline(LiveView(after.cells, k), baseline).Ok?
    {
      DeletedCell(s, row, operation, at, k);
      DeletedView(s, row, operation, at, k);
    }
    forall k | k !in recorded && k in after.tombstones
      ensures VerifyPostBaseline(after.tombstones[k].view, baseline).Ok?
    {
      DeletedCell(s, row, operation, at, k);
    }
  }

  /** A cell that stays keeps its row's creation time. */
  lemma DeletedView(s: Store, row: RowKey, operation: Id, at: Instant, k: CellKey)
    requires Integrity(s) && CanDelete(s, row, operation) && WholeRows(s.cells.Keys)
    requires k in s.cells && k in Deleted(s, row, operation, at).cells
    ensures LiveView(Deleted(s, row, operation, at).cells, k) == LiveView(s.cells, k)
  {
    RowKeysMembers(row);
    assert ValidKey(k) && k !in RowKeys(row);
    assert k.row != row;
    DeletedCell(s, row, operation, at, CellKey(k.row, CreatedAt));
    hide Integrity, CanDelete, RowKeys;
  }

  /** Deleting any live row under an authorized operation keeps the store verifying. */
  lemma DeleteKeeps(s: Store, chain: seq<Id>, row: RowKey, operation: Id, at: Instant)
    requires Integrity(s) && VerifiedAlong(s, chain) && CanDelete(s, row, operation)
    ensures VerifiedAlong(Deleted(s, row, operation, at), chain)
  {
    DeletedKeys(s, row, operation, at);
    DeletedIntegrity(s, row, operation, at);
    assert forall p :: p in s.manifests[chain[0]].doc.cells ==> ValidDecision(p);
    hide ValidDocument, ValidTombstones, ChainPromotes, CellsVerified, ValidDecision;
    DeleteKeepsCells(s, s.manifests[chain[0]].doc, row, operation, at, Baseline(s.manifests, chain),
                     AllPromotions(s.manifests, chain));
  }
}

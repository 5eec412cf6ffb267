/** One execution row whose recorded `updated_at` was ahead of UTC: its ledger becomes ready, an ordinary touch keeps it
    so, and a later touch at exactly the recorded wall clock, which the guard accepts, does not. */
module TimestampTouch {
  import opened Wrappers
  import opened TimestampManifest
  import opened TimestampVerification
  import opened TimestampApply
  import opened TimestampSupersession
  import opened TimestampWrites
  import opened TimestampRuns
  import opened TimestampExample

  predicate ExecutionRow(row: RowKey) {
    row.table == Execution && row.id != NIL_ID
  }

  /** Created and due at 0, last updated at `w`, never started. */
  function RawOf(c: Column, w: Wall): Option<Wall> {
    match c
    case UpdatedAt => Some(w)
    case StartedAt | CompletedAt => None
    case _ => Some(0)
  }

  function Undecided(k: CellKey, w: Wall): CellDecision {
    var raw := RawOf(k.column, w);
    CellDecision(k, raw, if raw.Some? then Unresolved else NullValue, None, None, NO_EVIDENCE)
  }

  function RowDecisions(row: RowKey, w: Wall): seq<CellDecision> {
    [Undecided(CellKey(row, CreatedAt), w), Undecided(CellKey(row, UpdatedAt), w), Undecided(CellKey(row, StartedAt), w),
     Undecided(CellKey(row, CompletedAt), w), Undecided(CellKey(row, CallbackDeadlineAt), w)]
  }

  function RowDocument(id: Id, row: RowKey, w: Wall): Manifest {
    Manifest(id, None, SOURCE_SCHEMA_VERSION, 0, 0, 1, 0, 5, 3, 0, RowDecisions(row, w))
  }

  function RowPairs(row: RowKey, w: Wall): map<CellKey, Pair> {
    map k | k in RowKeys(row) :: Pair(RawOf(k.column, w), None)
  }

  function RowStore(row: RowKey, w: Wall): Store {
    Store(RowPairs(row, w), map[], map[], ExpandState(ManifestRequired, 1, 0, 5, 0), 0)
  }

  lemma DecisionKeys(row: RowKey, w: Wall)
    requires ExecutionRow(row)
    ensures DistinctKeys(RowDecisions(row, w)) && KeysOf(RowDecisions(row, w)) == RowKeys(row)
    ensures forall c :: c in RowDecisions(row, w) ==> c == Undecided(c.key, w)
  {
    var cells := RowDecisions(row, w);
    RowKeysMembers(row);
    forall k | k in RowKeys(row)
      ensures k in KeysOf(cells)
    {
      assert Undecided(k, w) in cells;
    }
  }

  lemma RowCounts(row: RowKey)
    requires ExecutionRow(row)
    ensures RowIds(RowKeys(row), Execution) == {row.id} && RowIds(RowKeys(row), Event) == {}
    ensures WholeRows(RowKeys(row)) && forall k :: k in RowKeys(row) ==> ValidKey(k)
  {
    RowKeysMembers(row);
    assert CellKey(row, CreatedAt) in RowKeys(row);
    hide RowKeys;
  }

  lemma PopulatedNext(cells: seq<CellDecision>, n: nat)
    requires n < |cells|
    ensures Populated(cells[..n + 1]) == Populated(cells[..n]) + (if cells[n].raw.Some? then 1 else 0)
  {
    assert cells[..n + 1][..n] == cells[..n];
  }

  lemma PopulatedEnds(cells: seq<CellDecision>)
    ensures Populated(cells[..0]) == 0 && cells[..|cells|] == cells
  {
  }

  lemma RowRaws(row: RowKey, w: Wall)
    ensures var cells := RowDecisions(row, w);
            && |cells| == 5 && cells[0].raw.Some? && cells[1].raw.Some? && cells[2].raw.None? && cells[3].raw.None?
            && cells[4].raw.Some?
  {
  }

  lemma RowPopulated(row: RowKey, w: Wall)
    ensures Populated(RowDecisions(row, w)) == 3
  {
    var cells := RowDecisions(row, w);
    hide *;
    RowRaws(row, w);
    PopulatedEnds(cells);
    PopulatedNext(cells, 0);
    PopulatedNext(cells, 1);
    PopulatedNext(cells, 2);
    PopulatedNext(cells, 3);
    PopulatedNext(cells, 4);
  }

  lemma RowDocumentValid(id: Id, row: RowKey, w: Wall)
    requires ExecutionRow(row) && id != NIL_ID
    ensures ValidDocument(RowDocument(id, row, w))
  {
    var m := RowDocument(id, row, w);
    DecisionKeys(row, w);
    RowCounts(row);
    RowPopulated(row, w);
    assert ValidHeader(m);
    hide DistinctKeys, KeysOf, RowIds, Populated, WholeRows, RowDecisions, RowKeys, ValidHeader;
    forall c | c in m.cells
      ensures ValidKey(c.key) && ValidDecision(c)
    {
      assert c.key in KeysOf(m.cells) by { KeyOfMember(m.cells, c); }
    }
  }

  lemma KeyOfMember(cells: seq<CellDecision>, c: CellDecision)
    requires c in cells
    ensures c.key in KeysOf(cells)
  {
  }

  lemma RowCellCounts(row: RowKey, w: Wall)
    requires ExecutionRow(row)
    ensures |RowPairs(row, w)| == 5 && |set k | k in RowPairs(row, w) && RowPairs(row, w)[k].raw.Some?| == 3
  {
    RowKeysMembers(row);
    var (a, b, c, d, e) := (CellKey(row, CreatedAt), CellKey(row, UpdatedAt), CellKey(row, StartedAt),
                            CellKey(row, CompletedAt), CellKey(row, CallbackDeadlineAt));
    assert RowPairs(row, w).Keys == {a, b, c, d, e};
    assert |RowPairs(row, w)| == |RowPairs(row, w).Keys|;
    assert (set k | k in RowPairs(row, w) && RowPairs(row, w)[k].raw.Some?) == {a, b, e};
  }

  lemma RowListed(row: RowKey, w: Wall)
    requires ExecutionRow(row)
    ensures forall c :: c in RowDecisions(row, w) ==> c.key in RowPairs(row, w) && RowPairs(row, w)[c.key] == Pair(c.raw, None)
  {
    DecisionKeys(row, w);
    assert RowPairs(row, w).Keys == RowKeys(row);
    hide RowDecisions, KeysOf, RowKeys;
    forall c | c in RowDecisions(row, w)
      ensures c.key in RowKeys(row)
    {
      KeyOfMember(RowDecisions(row, w), c);
    }
  }

  lemma RowMatches(id: Id, row: RowKey, w: Wall)
    requires ExecutionRow(row)
    ensures var s, m := RowStore(row, w), RowDocument(id, row, w);
            m.supersedes.None? && MatchesExpand(m, s.expand) && MatchesCounts(m, s.cells)
  {
    RowCounts(row);
    RowCellCounts(row, w);
    assert RowPairs(row, w).Keys == RowKeys(row);
    hide RowDecisions, RowKeys, RowIds, RowPairs;
  }

  lemma RowCells(id: Id, row: RowKey, w: Wall)
    requires ExecutionRow(row)
    ensures ListsCells(RowDocument(id, row, w), RowStore(row, w).cells) && NoShadows(RowDocument(id, row, w), RowStore(row, w).cells)
  {
    DecisionKeys(row, w);
    RowListed(row, w);
    assert RowPairs(row, w).Keys == RowKeys(row);
    hide RowDecisions, KeysOf, RowKeys, RowPairs, DistinctKeys;
  }

  lemma RowSnapshot(id: Id, row: RowKey, w: Wall)
    requires ExecutionRow(row)
    ensures PreflightRoot(RowStore(row, w), RowDocument(id, row, w))
  {
    hide *;
    RowMatches(id, row, w);
    RowCells(id, row, w);
    RootOf(RowStore(row, w), RowDocument(id, row, w));
  }

  lemma RowPreflight(id: Id, row: RowKey, w: Wall)
    requires ExecutionRow(row)
    ensures Keyed(RowStore(row, w).manifests) && Preflight(RowStore(row, w), RowDocument(id, row, w))
  {
    RowSnapshot(id, row, w);
    hide PreflightRoot, RowDocument, RowPairs, Preflight;
    RootIsPreflight(RowStore(row, w), RowDocument(id, row, w));
  }

  lemma RowStart(row: RowKey, w: Wall)
    requires ExecutionRow(row)
    ensures Integrity(RowStore(row, w)) && Lineage(RowStore(row, w).manifests, [])
  {
    RowCounts(row);
    assert RowPairs(row, w).Keys == RowKeys(row);
    hide RowKeys, RowPairs;
    assert Keyed(RowStore(row, w).manifests) && ValidTombstones(RowStore(row, w).tombstones);
  }

  lemma RowApplicable(id: Id, row: RowKey, w: Wall)
    requires ExecutionRow(row) && id != NIL_ID
    ensures Integrity(RowStore(row, w)) && Applicable(RowStore(row, w), RowDocument(id, row, w), 0, 0)
  {
    RowStart(row, w);
    RowDocumentValid(id, row, w);
    RowPreflight(id, row, w);
    hide Integrity, ValidDocument, Preflight, RowPairs, RowDecisions;
  }

  /** The ledger of the row once a manifest that decides nothing is verified at 0. */
  function RowVerified(id: Id, row: RowKey, w: Wall): Store {
    RowStore(row, w).(manifests := map[id := Record(RowDocument(id, row, w), Verified, Some(0), Some(0))])
  }

  /** A first manifest that resolves nothing fills nothing. */
  lemma NoneResolved(s: Store, m: Manifest)
    requires Keyed(s.manifests) && DistinctKeys(m.cells) && m.supersedes.None? && forall c :: c in m.cells ==> !Resolved(c)
    ensures AfterApply(s, m, 0, 0) == s.(manifests := s.manifests[m.id := Record(m, Verified, Some(0), Some(0))], clock := 0)
  {
    hide DistinctKeys, Resolved, KeysOf, Keyed;
    assert FillSet(s, m) == {};
    hide FillSet;
    assert Filled(s.cells, m, {}) == s.cells;
  }

  lemma RowNothingFilled(id: Id, row: RowKey, w: Wall)
    requires ExecutionRow(row)
    ensures var s, m := RowStore(row, w), RowDocument(id, row, w);
            Keyed(s.manifests) && DistinctKeys(m.cells) && AfterApply(s, m, 0, 0) == RowVerified(id, row, w)
  {
    var s, m := RowStore(row, w), RowDocument(id, row, w);
    DecisionKeys(row, w);
    assert forall c :: c in RowDecisions(row, w) ==> !Resolved(c);
    hide DistinctKeys, RowDecisions, RowPairs, AfterApply, Resolved;
    NoneResolved(s, m);
  }

  lemma RowReady(id: Id, row: RowKey, w: Wall)
    requires ExecutionRow(row) && id != NIL_ID
    ensures Ready(RowVerified(id, row, w), [id]) && Integrity(RowVerified(id, row, w))
  {
    var s, m := RowStore(row, w), RowDocument(id, row, w);
    assert m.id == id && s.tombstones == map[];
    hide *;
    RowStart(row, w);
    RowApplicable(id, row, w);
    RowNothingFilled(id, row, w);
    ApplicableIsAdmitted(s, m, 0, 0);
    StrictClockSuffices(s, [], m, 0, 0);
    RowApplied(s, m, RowVerified(id, row, w));
    assert [id] + [] == [id];
  }

  lemma RowApplied(s: Store, m: Manifest, after: Store)
    requires Integrity(s) && Lineage(s.manifests, []) && Applicable(s, m, 0, 0)
    requires Keyed(s.manifests) && DistinctKeys(m.cells) && (m.supersedes.Some? ==> m.supersedes.value in s.manifests)
    requires VerifiesAt(AfterApply(s, m, 0, 0), m.id) && AfterApply(s, m, 0, 0) == after
    ensures Ready(after, [m.id] + []) && Integrity(after)
  {
    hide Integrity, Lineage, Applicable, VerifiesAt, Ready, AfterApply, DistinctKeys, Keyed, MatchesExpand;
    AppliesReady(s, [], m, 0, 0);
    NextIntegrity(s, Step.Apply(m, 0, 0));
  }

  // ---------------------------------------------------------------- touching the row

  function LastUpdate(row: RowKey): CellKey {
    CellKey(row, UpdatedAt)
  }

  /** Setting `updated_at` alone. */
  function Touching(row: RowKey, at: Instant): Step {
    Rewrite(map[LastUpdate(row) := Exact(at)])
  }

  lemma TouchLands(s: Store, row: RowKey, at: Instant)
    requires Integrity(s) && LastUpdate(row) in s.cells
    requires s.cells[LastUpdate(row)].raw != Some(at) && s.cells[LastUpdate(row)].instant != Some(at)
    ensures Enabled(s, Touching(row, at))
    ensures Next(s, Touching(row, at)) == s.(cells := s.cells[LastUpdate(row) := Exact(at)])
    ensures Integrity(Next(s, Touching(row, at)))
  {
    hide Integrity;
    assert CellMayBecome(LastUpdate(row), s.cells[LastUpdate(row)], Exact(at));
    assert s.cells + map[LastUpdate(row) := Exact(at)] == s.cells[LastUpdate(row) := Exact(at)];
    NextIntegrity(s, Touching(row, at));
  }

  lemma TouchHarms(s: Store, id: Id, row: RowKey, w: Wall, at: Instant)
    requires ExecutionRow(row) && LastUpdate(row) in s.cells && 0 <= at && CanRewrite(s, map[LastUpdate(row) := Exact(at)])
    requires s.cells[LastUpdate(row)] != Exact(at)
    ensures HarmlessRewrite(s, RowDocument(id, row, w), map[LastUpdate(row) := Exact(at)], 0) <==> at != w
  {
    DecisionKeys(row, w);
    var p := Undecided(LastUpdate(row), w);
    assert p in RowDecisions(row, w);
    hide RowDecisions, KeysOf, CanRewrite, DistinctKeys;
    assert HarmlessRewriteOf(p, at, 0) <==> at != w;
  }

  /** From a ready ledger of the row, a touch from the baseline on leaves it ready exactly unless it is at the recorded
      wall clock. */
  lemma TouchReadies(s: Store, id: Id, row: RowKey, w: Wall, at: Instant)
    requires ExecutionRow(row) && 0 <= at && Ready(s, [id]) && Integrity(s) && LastUpdate(row) in s.cells
    requires s.manifests == RowVerified(id, row, w).manifests
    requires s.cells[LastUpdate(row)].raw != Some(at) && s.cells[LastUpdate(row)].instant != Some(at)
    ensures Enabled(s, Touching(row, at)) && Integrity(Next(s, Touching(row, at)))
    ensures Next(s, Touching(row, at)) == s.(cells := s.cells[LastUpdate(row) := Exact(at)])
    ensures Ready(Next(s, Touching(row, at)), [id]) <==> at != w
  {
    hide *;
    TouchLands(s, row, at);
    RowTip(s, id, row, w);
    assert s.cells[LastUpdate(row)] != Exact(at) by { ExactRaw(at); }
    TouchStepHarms(s, id, row, w, at);
  }

  lemma TouchStepHarms(s: Store, id: Id, row: RowKey, w: Wall, at: Instant)
    requires ExecutionRow(row) && 0 <= at && Ready(s, [id]) && Integrity(s) && IsChain(s.manifests, [id])
    requires LastUpdate(row) in s.cells && s.cells[LastUpdate(row)] != Exact(at) && Enabled(s, Touching(row, at))
    requires TipDocument(s, [id]) == RowDocument(id, row, w) && Baseline(s.manifests, [id]) == 0
    ensures Ready(Next(s, Touching(row, at)), [id]) <==> at != w
  {
    hide RowDocument, HarmlessRewrite, CanRewrite, Lineage, MatchesExpand, IsChain, Ready, Integrity, Baseline, TipDocument,
         Rewritten, ExecutionRow, LastUpdate;
    NextReady(s, Touching(row, at), [id]);
    TouchHarms(s, id, row, w, at);
  }

  lemma RowTip(s: Store, id: Id, row: RowKey, w: Wall)
    requires s.manifests == RowVerified(id, row, w).manifests
    ensures IsChain(s.manifests, [id]) && TipDocument(s, [id]) == RowDocument(id, row, w) && Baseline(s.manifests, [id]) == 0
  {
    hide RowDocument;
    assert RowDocument(id, row, w).supersedes.None? by { RowRoot(id, row, w); }
  }

  lemma RowRoot(id: Id, row: RowKey, w: Wall)
    ensures RowDocument(id, row, w).supersedes.None?
  {
  }

  /** An ordinary touch keeps the ledger ready. A later one at exactly the recorded wall clock is let through by the guard
      and takes the readiness away: the cell is back at its undecided value, now with a shadow. */
  lemma TouchBackUnreadies(id: Id, row: RowKey, w: Wall, at: Instant)
    requires ExecutionRow(row) && id != NIL_ID && 0 <= at && 0 <= w && at != w
    ensures var s := RowVerified(id, row, w);
            var touched := s.(cells := s.cells[LastUpdate(row) := Exact(at)]);
            && Ready(s, [id]) && Integrity(s) && Enabled(s, Touching(row, at)) && Next(s, Touching(row, at)) == touched
            && Ready(touched, [id]) && Integrity(touched) && Enabled(touched, Touching(row, w))
            && !Ready(Next(touched, Touching(row, w)), [id])
  {
    var s := RowVerified(id, row, w);
    var touched := s.(cells := s.cells[LastUpdate(row) := Exact(at)]);
    RowKeysMembers(row);
    assert s.cells[LastUpdate(row)] == Pair(Some(w), None);
    hide *;
    RowReady(id, row, w);
    TouchReadies(s, id, row, w, at);
    assert touched.cells[LastUpdate(row)].raw == Some(at) by { ExactRaw(at); }
    TouchReadies(touched, id, row, w, w);
  }

  lemma ExactRaw(at: Instant)
    ensures Exact(at).raw == Some(at) && Exact(at).instant == Some(at)
  {
  }
}

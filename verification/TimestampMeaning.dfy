/** What the rules of the ledger come to on the rows themselves: which documents are accepted, what may supersede them,
    what a verified store shows in its cells and tombstones, and what the guards let through. */
module TimestampMeaning {
  import opened Wrappers
  import opened TimestampManifest
  import opened TimestampVerification
  import opened TimestampChecks
  import opened TimestampApply
  import opened TimestampSupersession
  import opened TimestampWrites

  // ---------------------------------------------------------------- decisions and documents

  predicate Decided(c: CellDecision) {
    c.decision == Proven || c.decision == Attested
  }

  /** A decision is admissible exactly as one of three: no wall clock and nothing else; a wall clock left alone; or a
      wall clock read at an offset of at most eighteen hours, on named evidence. */
  lemma DecisionMeans(c: CellDecision)
    ensures ValidDecision(c) <==>
              if Decided(c) then
                && c.raw.Some?
                && c.offset.Some? && -64800 <= c.offset.value <= 64800
                && c.converted == Some(c.raw.value - c.offset.value * 1_000_000)
                && |c.evidence.reference| > 0 && |c.evidence.checksum| > 0 && |c.evidence.approver| > 0
              else
                && (c.raw == None <==> c.decision == NullValue)
                && c.offset == None && c.converted == None && c.evidence == Evidence("", "", "", "")
  {
  }

  predicate HasColumn(table: Table, column: Column) {
    table == Execution || column == CreatedAt
  }

  function Populates(cells: seq<CellDecision>): set<CellKey> {
    set c | c in cells && c.raw.Some? :: c.key
  }

  function RowsOf(cells: seq<CellDecision>, table: Table): set<Id> {
    set c | c in cells && c.key.row.table == table :: c.key.row.id
  }

  lemma LastIsNew(front: seq<CellDecision>, last: CellDecision)
    requires DistinctKeys(front + [last])
    ensures DistinctKeys(front) && last.key !in Populates(front)
    ensures Populates(front + [last]) == Populates(front) + (if last.raw.Some? then {last.key} else {})
  {
    var cells := front + [last];
    assert cells[..|front|] == front;
    forall c | c in front
      ensures c.key != last.key
    {
      var i :| 0 <= i < |front| && front[i] == c;
      assert cells[i] == c && cells[|front|] == last;
    }
  }

  lemma {:induction false} PopulatedCounts(cells: seq<CellDecision>)
    requires DistinctKeys(cells)
    ensures Populated(cells) == |Populates(cells)|
  {
    if cells == [] {
      assert Populates(cells) == {};
    } else {
      var front, last := cells[..|cells| - 1], cells[|cells| - 1];
      assert cells == front + [last];
      LastIsNew(front, last);
      PopulatedCounts(front);
    }
  }

  lemma ColumnMeans(table: Table, column: Column)
    ensures column in Columns(table) <==> HasColumn(table, column)
  {
  }

  /** Every row in full, and nothing of a row that does not exist. */
  predicate FullRows(keys: set<CellKey>) {
    forall k, column :: k in keys ==> k.row.id != 0 && (CellKey(k.row, column) in keys <==> HasColumn(k.row.table, column))
  }

  lemma RowsMean(keys: set<CellKey>)
    ensures (forall k :: k in keys ==> ValidKey(k)) && WholeRows(keys) <==> FullRows(keys)
  {
    if (forall k :: k in keys ==> ValidKey(k)) && WholeRows(keys) {
      forall k, column | k in keys
        ensures k.row.id != 0 && (CellKey(k.row, column) in keys <==> HasColumn(k.row.table, column))
      {
        ColumnMeans(k.row.table, column);
        assert RowWhole(keys, k.row);
        assert CellKey(k.row, column) in keys ==> ValidKey(CellKey(k.row, column));
      }
    }
    if FullRows(keys) {
      forall k | k in keys
        ensures ValidKey(k) && RowWhole(keys, k.row)
      {
        ColumnMeans(k.row.table, k.column);
        assert CellKey(k.row, k.column) == k;
        forall c | c in Columns(k.row.table)
          ensures CellKey(k.row, c) in keys
        {
          ColumnMeans(k.row.table, c);
        }
      }
    }
  }

  lemma CellsMean(cells: seq<CellDecision>)
    ensures (forall c :: c in cells ==> ValidKey(c.key) && ValidDecision(c)) && WholeRows(KeysOf(cells))
            <==> (forall c :: c in cells ==> ValidDecision(c)) && FullRows(KeysOf(cells))
  {
    RowsMean(KeysOf(cells));
    hide ValidKey, WholeRows, FullRows, ValidDecision;
    assert (forall k :: k in KeysOf(cells) ==> ValidKey(k)) <==> forall c :: c in cells ==> ValidKey(c.key);
  }

  /** A manifest of schema 137, of an id of its own, with five cells for each execution and one for each event. */
  predicate HeadFits(m: Manifest) {
    && m.id != 0 && m.sourceVersion == 137 && m.snapshotStart <= m.snapshotEnd
    && (m.supersedes.Some? ==> m.supersedes.value != 0 && m.supersedes.value != m.id)
    && m.rawCellCount == |m.cells| == 5 * m.executionCount + m.eventCount <= 0xFFFF_FFFF_FFFF_FFFF
  }

  lemma HeadMeans(m: Manifest)
    ensures ValidHeader(m) <==> HeadFits(m)
  {
  }

  /** A valid document covers whole rows, each cell once, and its counts are those of its rows and wall clocks. */
  lemma DocumentMeans(m: Manifest)
    ensures ValidDocument(m) <==>
              && HeadFits(m)
              && DistinctKeys(m.cells)
              && (forall c :: c in m.cells ==> ValidDecision(c))
              && FullRows(KeysOf(m.cells))
              && |RowsOf(m.cells, Execution)| == m.executionCount
              && |RowsOf(m.cells, Event)| == m.eventCount
              && |Populates(m.cells)| == m.populatedCount
  {
    HeadMeans(m);
    CellsMean(m.cells);
    if DistinctKeys(m.cells) { PopulatedCounts(m.cells); }
    DocumentRowIds(m, Execution);
    DocumentRowIds(m, Event);
    hide ValidHeader, HeadFits, ValidKey, WholeRows, FullRows, ValidDecision, Populated, Populates, RowIds, RowsOf, DistinctKeys, KeysOf;
  }

  lemma DocumentRowIds(m: Manifest, table: Table)
    ensures RowIds(KeysOf(m.cells), table) == RowsOf(m.cells, table)
  {
    forall c | c in m.cells
      ensures c.key in KeysOf(m.cells)
    {
    }
  }

  // ---------------------------------------------------------------- supersession

  /** The same decision, or for a wall clock left alone a first one. */
  predicate Develops(previous: CellDecision, next: CellDecision) {
    next == previous || (previous.decision == Unresolved && Decided(next) && next.raw == previous.raw)
  }

  lemma SupersededCellMeans(previous: CellDecision, next: CellDecision)
    requires ValidDecision(previous) && ValidDecision(next) && previous.key == next.key
    ensures ValidSupersededCell(previous, next) <==> Develops(previous, next)
  {
  }

  predicate AllDevelop(previous: seq<CellDecision>, next: seq<CellDecision>) {
    forall p, c :: p in previous && c in next && p.key == c.key ==> Develops(p, c)
  }

  lemma DocumentGives(m: Manifest)
    requires ValidDocument(m)
    ensures DistinctKeys(m.cells) && forall c :: c in m.cells ==> ValidDecision(c)
  {
    hide ValidHeader, DistinctKeys, ValidDecision, WholeRows, Populated, RowIds;
  }

  lemma CountsFollow(previous: Manifest, next: Manifest)
    requires ValidDocument(previous) && ValidDocument(next) && KeysOf(next.cells) == KeysOf(previous.cells)
    ensures next.sourceVersion == previous.sourceVersion && next.rawCellCount == previous.rawCellCount
    ensures next.executionCount == previous.executionCount && next.eventCount == previous.eventCount
    ensures Populated(previous.cells) == previous.populatedCount && Populated(next.cells) == next.populatedCount
  {
    hide KeysOf, DistinctKeys, ValidDecision, WholeRows, Populated, RowIds, ValidKey;
  }

  lemma DevelopedCells(previous: seq<CellDecision>, next: seq<CellDecision>)
    requires DistinctKeys(previous) && DistinctKeys(next) && KeysOf(next) == KeysOf(previous)
    requires (forall c :: c in previous ==> ValidDecision(c)) && forall c :: c in next ==> ValidDecision(c)
    ensures (forall k :: k in CellMap(previous) ==> ValidSupersededCell(CellMap(previous)[k], CellMap(next)[k]))
            <==> AllDevelop(previous, next)
  {
    var before, after := CellMap(previous), CellMap(next);
    hide ValidDecision, ValidSupersededCell, Develops, DistinctKeys, CellMap, KeysOf;
    forall k | k in before
      ensures ValidSupersededCell(before[k], after[k]) <==> Develops(before[k], after[k])
    {
      assert before[k] in previous && after[k] in next;
      SupersededCellMeans(before[k], after[k]);
    }
  }

  lemma PopulatedAt(cells: seq<CellDecision>, k: CellKey)
    requires DistinctKeys(cells) && k in KeysOf(cells)
    ensures k in Populates(cells) <==> CellMap(cells)[k].raw.Some?
  {
    hide DistinctKeys;
  }

  lemma SamePopulated(previous: seq<CellDecision>, next: seq<CellDecision>)
    requires DistinctKeys(previous) && DistinctKeys(next)
    requires KeysOf(previous) == KeysOf(next) && AllDevelop(previous, next)
    ensures Populated(previous) == Populated(next)
  {
    PopulatedCounts(previous);
    PopulatedCounts(next);
    forall k
      ensures k in Populates(previous) <==> k in Populates(next)
    {
      if k in KeysOf(previous) {
        PopulatedAt(previous, k);
        PopulatedAt(next, k);
        assert Develops(CellMap(previous)[k], CellMap(next)[k]);
      }
      hide CellMap, DistinctKeys;
    }
    assert Populates(previous) == Populates(next);
  }

  /** A valid document supersedes another exactly when it names it, covers the same cells over the same window, and keeps
      every decision but for wall clocks decided at last. */
  lemma SupersessionMeans(previous: Manifest, next: Manifest)
    requires ValidDocument(previous) && ValidDocument(next)
    ensures ValidSupersession(previous, next) <==>
              && next.supersedes == Some(previous.id) && next.id != previous.id
              && next.snapshotStart == previous.snapshotStart && next.snapshotEnd == previous.snapshotEnd
              && KeysOf(next.cells) == KeysOf(previous.cells) && AllDevelop(previous.cells, next.cells)
  {
    hide ValidDocument, ValidSupersededCell, AllDevelop, ValidDecision, Populated, KeysOf, DistinctKeys;
    DocumentGives(previous);
    DocumentGives(next);
    if KeysOf(next.cells) == KeysOf(previous.cells) {
      CountsFollow(previous, next);
      DevelopedCells(previous.cells, next.cells);
      if AllDevelop(previous.cells, next.cells) {
        SamePopulated(previous.cells, next.cells);
        var before, after := CellMap(previous.cells), CellMap(next.cells);
        forall k | k in before
          ensures ValidSupersededCell(before[k], after[k])
        {
          assert k in CellMap(previous.cells);
        }
      }
    }
  }

  lemma ChainMember(ms: map<Id, Record>, chain: seq<Id>, i: nat)
    requires Lineage(ms, chain) && i < |chain|
    ensures chain[i] in ms && DistinctKeys(ms[chain[i]].doc.cells)
  {
    hide ValidDocument, ValidSupersession, IsChain, DistinctKeys, KeysOf;
    DocumentGives(ms[chain[i]].doc);
  }

  lemma KeyOfMember(cells: seq<CellDecision>, c: CellDecision)
    requires c in cells
    ensures c.key in KeysOf(cells)
  {
  }

  lemma LinkKeeps(ms: map<Id, Record>, chain: seq<Id>, i: nat)
    requires Lineage(ms, chain) && i + 1 < |chain| && chain[i] in ms && chain[i + 1] in ms
    ensures var parent, child := ms[chain[i + 1]].doc, ms[chain[i]].doc;
            && KeysOf(child.cells) == KeysOf(parent.cells) && AllDevelop(parent.cells, child.cells) && DistinctKeys(child.cells)
            && child.snapshotStart == parent.snapshotStart && child.snapshotEnd == parent.snapshotEnd
  {
    hide ValidDocument, AllDevelop, ValidSupersession, DistinctKeys, IsChain, KeysOf;
    assert Succeeds(ms, chain, i);
    DocumentGives(ms[chain[i]].doc);
    SupersessionMeans(ms[chain[i + 1]].doc, ms[chain[i]].doc);
  }

  lemma {:induction false} DevelopsOn(ms: map<Id, Record>, chain: seq<Id>, i: nat, j: nat, p: CellDecision, c: CellDecision)
    requires Lineage(ms, chain) && i <= j < |chain| && chain[i] in ms && chain[j] in ms
    requires p in ms[chain[j]].doc.cells && c in ms[chain[i]].doc.cells && p.key == c.key
    ensures Develops(p, c)
    decreases j - i
  {
    hide ValidDocument, ValidSupersession, IsChain, DistinctKeys, KeysOf;
    ChainMember(ms, chain, j);
    if i == j {
      assert CellMap(ms[chain[i]].doc.cells)[p.key] == p == c;
    } else {
      ChainMember(ms, chain, j - 1);
      var parent, child := ms[chain[j]].doc, ms[chain[j - 1]].doc;
      LinkKeeps(ms, chain, j - 1);
      KeyOfMember(parent.cells, p);
      var q := CellMap(child.cells)[p.key];
      assert Develops(p, q);
      hide Develops, Lineage, CellMap;
      DevelopsOn(ms, chain, i, j - 1, q, c);
    }
  }

  /** Down a whole lineage the cells, their wall clocks and the window never change, and a decision once made stays word
      for word: offset, instant and evidence. */
  lemma {:induction false} LineageKeeps(ms: map<Id, Record>, chain: seq<Id>, i: nat, j: nat)
    requires Lineage(ms, chain) && i <= j < |chain| && chain[i] in ms && chain[j] in ms
    ensures var early, late := ms[chain[j]].doc, ms[chain[i]].doc;
            && KeysOf(early.cells) == KeysOf(late.cells) && AllDevelop(early.cells, late.cells)
            && late.snapshotStart == early.snapshotStart && late.snapshotEnd == early.snapshotEnd
  {
    forall p, c | p in ms[chain[j]].doc.cells && c in ms[chain[i]].doc.cells && p.key == c.key
      ensures Develops(p, c)
    {
      DevelopsOn(ms, chain, i, j, p, c);
    }
    hide Develops;
    SameWindow(ms, chain, i, j);
  }

  lemma {:induction false} SameWindow(ms: map<Id, Record>, chain: seq<Id>, i: nat, j: nat)
    requires Lineage(ms, chain) && i <= j < |chain| && chain[i] in ms && chain[j] in ms
    ensures KeysOf(ms[chain[j]].doc.cells) == KeysOf(ms[chain[i]].doc.cells)
    ensures ms[chain[i]].doc.snapshotStart == ms[chain[j]].doc.snapshotStart
    ensures ms[chain[i]].doc.snapshotEnd == ms[chain[j]].doc.snapshotEnd
    decreases j - i
  {
    hide Lineage, KeysOf, AllDevelop, DistinctKeys;
    if i < j {
      ChainMember(ms, chain, j - 1);
      LinkKeeps(ms, chain, j - 1);
      SameWindow(ms, chain, i, j - 1);
    }
  }

  // ---------------------------------------------------------------- what a verified store shows

  /** The instant a decision gives its wall clock. */
  function Given(p: CellDecision): Option<Instant> {
    if Decided(p) && p.raw.Some? && p.offset.Some? then Some(p.raw.value - p.offset.value * 1_000_000) else None
  }

  /** At its recorded wall clock a cell has the instant its decision gives it, and none if it gives none. Off it only an
      update time, or a start or completion not yet recorded, set since the baseline. */
  predicate RecordedFits(p: CellDecision, v: Pair, baseline: Instant) {
    if v.raw == p.raw then v.instant == Given(p)
    else
      && v.raw.Some? && v.instant == v.raw && baseline <= v.raw.value && p.key.row.table == Execution
      && (p.key.column == UpdatedAt || (p.raw == None && (p.key.column == StartedAt || p.key.column == CompletedAt)))
  }

  /** A deleted cell as it last was, or one deleted undecided before it was decided. */
  predicate DeletedFits(p: CellDecision, t: Tombstone, baseline: Instant, decidedAt: Option<Instant>) {
    || RecordedFits(p, t.view.pair, baseline)
    || (Decided(p) && decidedAt.Some? && t.view.pair.raw == p.raw && t.view.pair.instant == None
        && t.deletedAt < decidedAt.value)
  }

  /** A cell the document does not list: one instant, on a row created since the baseline. */
  predicate LaterFits(v: View, baseline: Instant) {
    v.pair.raw == v.pair.instant && v.rowCreated.Some? && v.rowCreated.value >= baseline
  }

  lemma RecordedMeans(p: CellDecision, v: Pair, baseline: Instant)
    requires ValidDecision(p)
    ensures VerifyHistorical(p, v, baseline).Ok? <==> RecordedFits(p, v, baseline)
  {
    HistoricalCharacterized(p, v, baseline);
    hide VerifyHistorical;
  }

  lemma DeletedMeans(p: CellDecision, t: Tombstone, baseline: Instant, decidedAt: Option<Instant>)
    requires ValidDecision(p)
    ensures VerifyDeleted(p, t, baseline, decidedAt).Ok? <==> DeletedFits(p, t, baseline, decidedAt)
  {
    RecordedMeans(p, t.view.pair, baseline);
    hide VerifyHistorical;
  }

  lemma LaterMeans(s: Store, recorded: set<CellKey>, baseline: Instant)
    ensures LaterCellsVerified(s, recorded, baseline) <==>
              && (forall k :: k in s.cells && k !in recorded ==>
                    && s.cells[k].raw == s.cells[k].instant
                    && CellKey(k.row, CreatedAt) in s.cells && s.cells[CellKey(k.row, CreatedAt)].instant.Some?
                    && s.cells[CellKey(k.row, CreatedAt)].instant.value >= baseline)
              && (forall k :: k in s.tombstones && k !in recorded ==> LaterFits(s.tombstones[k].view, baseline))
  {
  }

  /** Every tombstone stands for one column of a row deleted whole, by one operation of organization retention. */
  lemma TombstonesMean(ts: map<CellKey, Tombstone>)
    ensures ValidTombstones(ts) <==>
              && (forall k :: k in ts ==> ts[k].reason == "ORGANIZATION_RETENTION" && ts[k].operation != 0)
              && FullRows(ts.Keys)
              && (forall k, l :: k in ts && l in ts && k.row == l.row ==>
                    ts[k].operation == ts[l].operation && ts[k].deletedAt == ts[l].deletedAt)
  {
    RowsMean(ts.Keys);
    hide FullRows, WholeRows, ValidKey;
  }

  /** Along a sound chain a store verifies exactly when its rows show all of this. */
  lemma VerifiedMeans(s: Store, chain: seq<Id>)
    requires Grounded(s, chain)
    ensures var m, baseline := s.manifests[chain[0]].doc, s.manifests[chain[|chain| - 1]].verifiedAt.value;
            VerifiedAlong(s, chain) <==>
              && (forall p :: p in m.cells && p.key in s.cells ==> RecordedFits(p, s.cells[p.key], baseline))
              && (forall p :: p in m.cells && p.key !in s.cells ==>
                    p.key in s.tombstones
                    && DeletedFits(p, s.tombstones[p.key], baseline, Lookup(AllPromotions(s.manifests, chain), p.key)))
              && (forall k :: k in s.cells && k !in KeysOf(m.cells) ==>
                    && s.cells[k].raw == s.cells[k].instant
                    && CellKey(k.row, CreatedAt) in s.cells && s.cells[CellKey(k.row, CreatedAt)].instant.Some?
                    && s.cells[CellKey(k.row, CreatedAt)].instant.value >= baseline)
              && (forall k :: k in s.tombstones && k !in KeysOf(m.cells) ==> LaterFits(s.tombstones[k].view, baseline))
  {
    var m, baseline := s.manifests[chain[0]].doc, Baseline(s.manifests, chain);
    var promoted := AllPromotions(s.manifests, chain);
    DocumentGives(m);
    LaterMeans(s, KeysOf(m.cells), baseline);
    hide ValidDocument, ValidTombstones, ChainPromotes, AllPromotions, LaterCellsVerified, LaterFits, RecordedFits, DeletedFits,
         VerifyHistorical, VerifyDeleted, ValidDecision, DistinctKeys, KeysOf;
    forall p | p in m.cells
      ensures CellVerified(s, p, baseline, Lookup(promoted, p.key)) <==>
                if p.key in s.cells then RecordedFits(p, s.cells[p.key], baseline)
                else p.key in s.tombstones && DeletedFits(p, s.tombstones[p.key], baseline, Lookup(promoted, p.key))
    {
      if p.key in s.cells { RecordedMeans(p, s.cells[p.key], baseline); }
      if p.key in s.tombstones { DeletedMeans(p, s.tombstones[p.key], baseline, Lookup(promoted, p.key)); }
    }
    hide CellVerified;
  }

  /** Taking the instant off one cell that no manifest recorded defeats verification. */
  lemma UnpairedDefeats(s: Store, chain: seq<Id>, k: CellKey)
    requires k in s.cells && s.cells[k].raw.Some? && IsChain(s.manifests, chain)
    requires k !in KeysOf(s.manifests[chain[0]].doc.cells)
    ensures !VerifiedAlong(s.(cells := s.cells[k := Pair(s.cells[k].raw, None)]), chain)
  {
    var after := s.(cells := s.cells[k := Pair(s.cells[k].raw, None)]);
    LaterMeans(after, KeysOf(s.manifests[chain[0]].doc.cells), Baseline(s.manifests, chain));
    hide LaterCellsVerified, ValidDocument, ValidTombstones, ChainPromotes, IsChain, KeysOf;
    assert after.cells[k].raw != after.cells[k].instant;
  }

  // ---------------------------------------------------------------- what a report counts

  function Classed(tombstones: map<CellKey, Tombstone>, cells: seq<CellDecision>, c: Class): set<CellDecision> {
    set p | p in cells && ClassOf(tombstones, p) == c
  }

  lemma ClassedGrows(tombstones: map<CellKey, Tombstone>, front: seq<CellDecision>, last: CellDecision, c: Class)
    requires last !in front
    ensures |Classed(tombstones, front + [last], c)|
            == |Classed(tombstones, front, c)| + (if ClassOf(tombstones, last) == c then 1 else 0)
  {
    hide ClassOf;
    assert Classed(tombstones, front + [last], c)
        == Classed(tombstones, front, c) + (if ClassOf(tombstones, last) == c then {last} else {});
  }

  lemma {:induction false} CountedCells(tombstones: map<CellKey, Tombstone>, cells: seq<CellDecision>, n: nat, c: Class)
    requires DistinctKeys(cells) && n <= |cells|
    ensures |Counted(tombstones, cells, n, c)| == |Classed(tombstones, cells[..n], c)|
  {
    if n == 0 {
      assert Counted(tombstones, cells, 0, c) == {};
      assert Classed(tombstones, cells[..0], c) == {};
    } else {
      CountedCells(tombstones, cells, n - 1, c);
      CountedStep(tombstones, cells, n - 1, c);
      assert cells[..n] == cells[..n - 1] + [cells[n - 1]];
      assert cells[n - 1] !in cells[..n - 1];
      hide ClassOf, Counted, Classed;
      ClassedGrows(tombstones, cells[..n - 1], cells[n - 1], c);
    }
  }

  /** The decisions a report counts under a heading. */
  function Heading(s: Store, m: Manifest, decided: bool, deleted: bool): set<CellDecision> {
    set p | p in m.cells && Decided(p) == decided && (decided || p.decision == Unresolved) && (p.key in s.tombstones) == deleted
  }

  lemma HeadingCounts(s: Store, m: Manifest, c: Class, decided: bool, deleted: bool)
    requires DistinctKeys(m.cells)
    requires c == if decided then (if deleted then ResolvedDeleted else ResolvedShadow)
                  else if deleted then UnresolvedDeleted else UnresolvedShadow
    ensures |Counted(s.tombstones, m.cells, |m.cells|, c)| == |Heading(s, m, decided, deleted)|
  {
    CountedCells(s.tombstones, m.cells, |m.cells|, c);
    assert m.cells[..|m.cells|] == m.cells;
    assert Classed(s.tombstones, m.cells, c) == Heading(s, m, decided, deleted);
  }

  /** Each counter of a report is the number of recorded cells, decided or left alone, whose row is alive or deleted. */
  lemma HeadingsMean(s: Store, m: Manifest, r: Report)
    requires Accounts(s, m, r)
    ensures r.resolvedShadows == |Heading(s, m, true, false)| && r.resolvedDeleted == |Heading(s, m, true, true)|
    ensures r.unresolvedShadows == |Heading(s, m, false, false)| && r.unresolvedDeleted == |Heading(s, m, false, true)|
    ensures r.tombstoneRows == |s.tombstones| && r.provenanceRows == |m.cells|
  {
    HeadingCounts(s, m, ResolvedShadow, true, false);
    HeadingCounts(s, m, ResolvedDeleted, true, true);
    HeadingCounts(s, m, UnresolvedShadow, false, false);
    HeadingCounts(s, m, UnresolvedDeleted, false, true);
    hide Heading, Counted, DistinctKeys;
  }

  // ---------------------------------------------------------------- what preflight asks

  lemma CellsCount(m: Manifest, cells: map<CellKey, Pair>)
    requires DistinctKeys(m.cells) && KeysOf(m.cells) == cells.Keys
    requires forall c :: c in m.cells ==> c.key in cells && c.raw == cells[c.key].raw
    ensures |cells| == |m.cells| && |set k | k in cells && cells[k].raw.Some?| == Populated(m.cells)
  {
    DistinctKeysCount(m.cells);
    PopulatedCounts(m.cells);
    assert |cells| == |cells.Keys|;
    forall k
      ensures k in Populates(m.cells) <==> k in cells && cells[k].raw.Some?
    {
      if k in cells { PopulatedAt(m.cells, k); }
    }
    assert Populates(m.cells) == set k | k in cells && cells[k].raw.Some?;
  }

  /** A valid document matches the rows exactly when it lists every cell at its wall clock; its counts then follow. */
  lemma SnapshotMeans(m: Manifest, cells: map<CellKey, Pair>)
    requires ValidDocument(m)
    ensures MatchesSnapshot(m, cells) <==>
              KeysOf(m.cells) == cells.Keys && forall c :: c in m.cells && c.key in cells ==> cells[c.key].raw == c.raw
  {
    hide ValidDocument, KeysOf, DistinctKeys, Populated, RowIds;
    DocumentGives(m);
    CountsFollow(m, m);
    HeadOf(m);
    forall c | c in m.cells
      ensures c.key in KeysOf(m.cells)
    {
      KeyOfMember(m.cells, c);
    }
    if KeysOf(m.cells) == cells.Keys && forall c :: c in m.cells && c.key in cells ==> cells[c.key].raw == c.raw {
      assert forall c :: c in m.cells ==> c.key in cells && c.raw == cells[c.key].raw;
      CellsCount(m, cells);
    }
  }

  lemma HeadOf(m: Manifest)
    requires ValidDocument(m)
    ensures HeadFits(m) && m.executionCount == |RowIds(KeysOf(m.cells), Execution)| && m.eventCount == |RowIds(KeysOf(m.cells), Event)|
  {
    HeadMeans(m);
    hide KeysOf, DistinctKeys, Populated, WholeRows, ValidDecision, RowIds, HeadFits;
  }

  lemma ExpandMeans(m: Manifest, e: ExpandState)
    requires ValidDocument(m)
    ensures MatchesExpand(m, e) <==>
              && e.kind == ManifestRequired && m.snapshotEnd <= e.transitionedAt
              && e.executionCount == m.executionCount && e.eventCount == m.eventCount
              && e.rawCellCount == 5 * m.executionCount + m.eventCount && |m.cells| > 0
  {
    HeadOf(m);
    hide ValidDocument;
  }

  /** A first manifest passes preflight exactly when the schema waits for one of its size and the rows are, cell for
      cell, its wall clocks without instants. */
  lemma RootPreflightMeans(s: Store, m: Manifest)
    requires ValidDocument(m)
    ensures PreflightRoot(s, m) <==>
              && m.supersedes == None && s.expand.kind == ManifestRequired && m.snapshotEnd <= s.expand.transitionedAt
              && s.expand.executionCount == m.executionCount && s.expand.eventCount == m.eventCount
              && s.expand.rawCellCount == 5 * m.executionCount + m.eventCount && |m.cells| > 0
              && KeysOf(m.cells) == s.cells.Keys
              && forall c :: c in m.cells && c.key in s.cells ==> s.cells[c.key] == Pair(c.raw, None)
  {
    hide ValidDocument, MatchesSnapshot, MatchesExpand, KeysOf;
    SnapshotMeans(m, s.cells);
    ExpandMeans(m, s.expand);
    forall c | c in m.cells
      ensures c.key in KeysOf(m.cells)
    {
      KeyOfMember(m.cells, c);
    }
  }

  /** A tip is VERIFIED and superseded by nothing but what was revoked; the ledger is complete when nothing is between. */
  lemma TipsMean(ms: map<Id, Record>, id: Id)
    ensures id in Tips(ms) <==>
              id in ms && ms[id].state == Verified
              && forall c :: c in ms && ms[c].state != RevokedBeforeApply ==> ms[c].doc.supersedes != Some(id)
    ensures Incomplete(ms) <==> !(forall c :: c in ms ==> ms[c].state == Verified || ms[c].state == RevokedBeforeApply)
  {
  }

  // ---------------------------------------------------------------- what the guards let through

  /** A row may be inserted whole: each column one instant or none, none only where the row may lack it. */
  lemma InsertMeans(s: Store, row: RowKey, pairs: map<Column, Pair>)
    ensures CanInsert(s, row, pairs) <==>
              && row.id != 0
              && (forall column :: column in pairs <==> HasColumn(row.table, column))
              && (forall column :: column in pairs ==>
                    pairs[column].raw == pairs[column].instant
                    && (pairs[column].raw == None ==> column == StartedAt || column == CompletedAt))
              && (forall column :: HasColumn(row.table, column) ==> CellKey(row, column) !in s.cells)
  {
    forall column ensures column in Columns(row.table) <==> HasColumn(row.table, column) { ColumnMeans(row.table, column); }
    forall column
      ensures CellKey(row, column) in RowKeys(row) <==> HasColumn(row.table, column)
    {
    }
    if CanInsert(s, row, pairs) {
      forall column | HasColumn(row.table, column)
        ensures CellKey(row, column) !in s.cells
      {
        assert CellKey(row, column) in RowKeys(row);
      }
    } else if forall column :: column in pairs <==> HasColumn(row.table, column) {
      assert pairs.Keys == Columns(row.table);
    }
  }

  /** A cell changes only to one instant in both halves, each new; a start or completion only from nothing. */
  lemma ChangeMeans(k: CellKey, before: Pair, after: Pair)
    requires after != before
    ensures CellMayBecome(k, before, after) <==>
              && after.raw.Some? && after.instant == after.raw
              && (if k.column == StartedAt || k.column == CompletedAt then before == Pair(None, None)
                  else before.raw != after.raw && before.instant != after.raw)
  {
  }

  /** A pair changes as a whole, to one instant in both halves and each of them new; or, with its wall clock unchanged,
      from no instant to one, and only under a license. */
  lemma FillMeans(before: Pair, after: Pair, licensed: bool)
    requires after != before
    ensures FillGuard(before, after, licensed) <==>
              if after.raw == before.raw then licensed && after.raw.Some? && before.instant == None
              else after.instant == after.raw && before.instant != after.raw
  {
  }

  lemma DeleteMeans(s: Store, row: RowKey, operation: Id)
    ensures CanDelete(s, row, operation) <==>
              && CellKey(row, CreatedAt) in s.cells && operation != 0
              && forall column :: HasColumn(row.table, column) ==> CellKey(row, column) !in s.tombstones
  {
    forall column
      ensures CellKey(row, column) in RowKeys(row) <==> HasColumn(row.table, column)
    {
      ColumnMeans(row.table, column);
    }
    forall k | k in RowKeys(row)
      ensures k == CellKey(row, k.column) && HasColumn(row.table, k.column)
    {
      ColumnMeans(row.table, k.column);
    }
  }
}

/** Applying a manifest: the preflight, the shadows it fills, the store after a successful apply, and the
    proof that the preflight decides the verification that follows. */
module TimestampApply {
  import opened Wrappers
  import opened TimestampManifest
  import opened TimestampVerification

  // ---------------------------------------------------------------- tips

  predicate Active(ms: map<Id, Record>, id: Id) {
    id in ms && ms[id].state != RevokedBeforeApply
  }

  predicate HasActiveChild(ms: map<Id, Record>, parent: Id) {
    exists c :: c in ms && Active(ms, c) && ms[c].doc.supersedes == Some(parent)
  }

  predicate IsTip(ms: map<Id, Record>, id: Id) {
    id in ms && ms[id].state == Verified && !HasActiveChild(ms, id)
  }

  function Tips(ms: map<Id, Record>): set<Id> {
    set id | id in ms && IsTip(ms, id)
  }

  predicate Incomplete(ms: map<Id, Record>) {
    exists id :: id in ms && ms[id].state in {Draft, Approved, Applied}
  }

  // ---------------------------------------------------------------- preflight

  predicate ValidExpand(e: ExpandState) {
    && e.rawCellCount == 5 * e.executionCount + e.eventCount
    && (e.kind == ZeroHistory <==> e.executionCount == 0 && e.eventCount == 0)
  }

  predicate MatchesExpand(m: Manifest, e: ExpandState) {
    && ValidExpand(e) && e.kind == ManifestRequired
    && m.executionCount == e.executionCount && m.eventCount == e.eventCount && m.rawCellCount == e.rawCellCount
    && m.snapshotEnd <= e.transitionedAt
  }

  predicate MatchesCounts(m: Manifest, cells: map<CellKey, Pair>) {
    && m.executionCount == |RowIds(cells.Keys, Execution)| && m.eventCount == |RowIds(cells.Keys, Event)|
    && m.rawCellCount == |cells|
    && m.populatedCount == |set k | k in cells && cells[k].raw.Some?|
  }

  /** The document lists exactly the live cells, each with its current wall clock. */
  predicate ListsCells(m: Manifest, cells: map<CellKey, Pair>) {
    && KeysOf(m.cells) == cells.Keys
    && forall c :: c in m.cells ==> c.key in cells && c.raw == cells[c.key].raw
  }

  predicate MatchesSnapshot(m: Manifest, cells: map<CellKey, Pair>) {
    MatchesCounts(m, cells) && ListsCells(m, cells)
  }

  predicate NoShadows(m: Manifest, cells: map<CellKey, Pair>) {
    forall c :: c in m.cells ==> c.key in cells && cells[c.key].instant.None?
  }

  predicate PreflightRoot(s: Store, m: Manifest) {
    && m.supersedes.None?
    && MatchesExpand(m, s.expand)
    && MatchesSnapshot(m, s.cells)
    && NoShadows(m, s.cells)
  }

  /** What preflight asks of one promoted cell: a live one it will fill has no shadow yet, and a deleted
      one was deleted unchanged and without a shadow. */
  predicate Promotable(s: Store, previous: CellDecision, k: CellKey) {
    if k in s.tombstones then
      k !in s.cells && s.tombstones[k].view.pair == Pair(previous.raw, None)
    else
      k in s.cells && (s.cells[k].raw == previous.raw ==> s.cells[k].instant.None?)
  }

  ghost predicate PreflightNext(s: Store, m: Manifest, tip: Id)
    requires Keyed(s.manifests) && tip in s.manifests
  {
    var previous := s.manifests[tip].doc;
    && m.supersedes == Some(tip)
    && ValidSupersession(previous, m)
    && VerifiesAt(s, tip)
    && forall k :: k in PromotedBy(previous, m) ==> Promotable(s, CellMap(previous.cells)[k], k)
  }

  ghost predicate Preflight(s: Store, m: Manifest)
    requires Keyed(s.manifests)
  {
    && !Incomplete(s.manifests)
    && if Tips(s.manifests) == {} then PreflightRoot(s, m)
       else |Tips(s.manifests)| == 1 && m.supersedes.Some? && m.supersedes.value in Tips(s.manifests)
            && PreflightNext(s, m, m.supersedes.value)
  }

  /** The shadows an apply fills: every resolved cell of a first manifest, and for a later one the newly
      resolved cells whose source is alive with the recorded wall clock. */
  function FillSet(s: Store, m: Manifest): set<CellKey>
    requires Keyed(s.manifests) && DistinctKeys(m.cells)
    requires m.supersedes.Some? ==> m.supersedes.value in s.manifests
  {
    match m.supersedes
    case None => set k | k in KeysOf(m.cells) && Resolved(CellMap(m.cells)[k])
    case Some(tip) =>
      set k | k in PromotedBy(s.manifests[tip].doc, m) && k in s.cells && s.cells[k].raw == CellMap(m.cells)[k].raw
  }

  function FilledCell(m: Manifest, fill: set<CellKey>, k: CellKey, v: Pair): Pair
    requires DistinctKeys(m.cells)
  {
    if k in fill && k in KeysOf(m.cells) then Pair(v.raw, CellMap(m.cells)[k].converted) else v
  }

  function Filled(cells: map<CellKey, Pair>, m: Manifest, fill: set<CellKey>): map<CellKey, Pair>
    requires DistinctKeys(m.cells)
  {
    map k | k in cells :: FilledCell(m, fill, k, cells[k])
  }

  /** The store an apply commits, given its two clock readings. */
  function AfterApply(s: Store, m: Manifest, t1: Instant, t2: Instant): Store
    requires Keyed(s.manifests) && DistinctKeys(m.cells)
    requires m.supersedes.Some? ==> m.supersedes.value in s.manifests
  {
    s.(cells := Filled(s.cells, m, FillSet(s, m)),
       manifests := s.manifests[m.id := Record(m, Verified, Some(t1), Some(t2))],
       clock := t2)
  }

  // ---------------------------------------------------------------- what the tables guarantee

  /** Schema and trigger guarantees on the two source tables and the tombstones. */
  ghost predicate Integrity(s: Store) {
    && Keyed(s.manifests)
    && (forall k :: k in s.cells ==> ValidKey(k)) && WholeRows(s.cells.Keys)
    && ValidTombstones(s.tombstones)
  }

  /** The VERIFIED manifests are one chain (tip first), each link a valid supersession of valid documents. */
  ghost predicate Lineage(ms: map<Id, Record>, chain: seq<Id>) {
    && Keyed(ms)
    && (chain != [] ==> IsChain(ms, chain))
    && (forall id :: id in ms ==> (ms[id].state == Verified <==> id in chain) && ms[id].state != Applied)
    && (forall i :: 0 <= i < |chain| ==> chain[i] in ms && ms[chain[i]].appliedAt.Some? && ValidDocument(ms[chain[i]].doc))
    && (forall i {:trigger Succeeds(ms, chain, i)} :: 0 <= i < |chain| - 1 ==> Succeeds(ms, chain, i))
  }

  ghost predicate Succeeds(ms: map<Id, Record>, chain: seq<Id>, i: int) {
    0 <= i < |chain| - 1 && chain[i] in ms && chain[i + 1] in ms
    && ValidSupersession(ms[chain[i + 1]].doc, ms[chain[i]].doc)
  }

  // ---------------------------------------------------------------- first manifests

  /** The one thing preflight of a first manifest does not look at: tombstones, which would have to be of
      rows created no earlier than the manifest is verified. */
  ghost predicate TombstonesAreLater(s: Store, baseline: Instant) {
    && s.cells.Keys !! s.tombstones.Keys
    && forall k :: k in s.tombstones ==> VerifyPostBaseline(s.tombstones[k].view, baseline).Ok?
  }

  lemma FilledCellVerifies(p: CellDecision, baseline: Instant)
    requires ValidDecision(p)
    ensures VerifyHistorical(p, Pair(p.raw, if Resolved(p) then p.converted else None), baseline).Ok?
  {
  }

  lemma RootCell(s: Store, m: Manifest, fill: set<CellKey>, p: CellDecision, baseline: Instant)
    requires DistinctKeys(m.cells) && p in m.cells && ValidDecision(p)
    requires p.key in s.cells && s.cells[p.key] == Pair(p.raw, None)
    requires p.key in fill <==> Resolved(p)
    ensures VerifyHistorical(p, FilledCell(m, fill, p.key, s.cells[p.key]), baseline).Ok?
  {
    assert CellMap(m.cells)[p.key] == p;
    FilledCellVerifies(p, baseline);
  }

  lemma RootCells(s: Store, m: Manifest, t1: Instant, t2: Instant)
    requires Keyed(s.manifests) && s.cells.Keys !! s.tombstones.Keys
    requires ValidDocument(m) && m.supersedes.None? && ListsCells(m, s.cells) && NoShadows(m, s.cells)
    ensures forall p :: p in m.cells ==> CellVerified(AfterApply(s, m, t1, t2), p, t2, None)
  {
    var after := AfterApply(s, m, t1, t2);
    forall p | p in m.cells
      ensures CellVerified(after, p, t2, None)
    {
      assert CellMap(m.cells)[p.key] == p && p.key in s.cells;
      RootCell(s, m, FillSet(s, m), p, t2);
    }
  }

  lemma RootLater(s: Store, m: Manifest, t1: Instant, t2: Instant)
    requires Keyed(s.manifests) && DistinctKeys(m.cells) && m.supersedes.None?
    requires s.cells.Keys !! s.tombstones.Keys && KeysOf(m.cells) == s.cells.Keys
    ensures LaterCellsVerified(AfterApply(s, m, t1, t2), KeysOf(m.cells), t2) <==> TombstonesAreLater(s, t2)
  {
  }

  lemma RootGrounded(s: Store, m: Manifest, t1: Instant, t2: Instant)
    requires Keyed(s.manifests) && ValidTombstones(s.tombstones) && s.cells.Keys !! s.tombstones.Keys
    requires ValidDocument(m) && DistinctKeys(m.cells) && m.supersedes.None? && m.id !in s.manifests
    ensures var after := AfterApply(s, m, t1, t2);
            Grounded(after, [m.id]) && AllPromotions(after.manifests, [m.id]) == map[]
  {
    hide ValidDocument, ValidTombstones;
    var after := AfterApply(s, m, t1, t2);
    var chain := [m.id];
    assert IsChain(after.manifests, chain);
    assert ChainPromotes(after.manifests, chain);
  }

  lemma RootDecides(s: Store, m: Manifest, t1: Instant, t2: Instant)
    requires Integrity(s) && ValidDocument(m) && PreflightRoot(s, m) && m.id !in s.manifests
    requires s.cells.Keys !! s.tombstones.Keys
    ensures VerifiesAt(AfterApply(s, m, t1, t2), m.id) <==> TombstonesAreLater(s, t2)
  {
    var after := AfterApply(s, m, t1, t2);
    assert DistinctKeys(m.cells);
    hide ValidDocument, ValidTombstones, MatchesExpand, MatchesCounts, NoShadows, WholeRows, DistinctKeys, KeysOf, Grounded,
         FillSet, Filled, TombstonesAreLater, LaterCellsVerified, CellVerified, AllPromotions, VerifiesAt;
    RootCells(s, m, t1, t2);
    RootLater(s, m, t1, t2);
    RootGrounded(s, m, t1, t2);
    RootBaseline(s, m, t1, t2);
    GroundedDecides(after, [m.id]);
    hide ListsCells, AfterApply, Integrity, Baseline, IsChain;
  }

  lemma RootBaseline(s: Store, m: Manifest, t1: Instant, t2: Instant)
    requires Keyed(s.manifests) && DistinctKeys(m.cells) && m.supersedes.None?
    ensures var after := AfterApply(s, m, t1, t2);
            m.id in after.manifests && after.manifests[m.id].doc == m && Standing(after.manifests, m.id)
            && Baseline(after.manifests, [m.id]) == t2
  {
    hide Keyed, DistinctKeys;
  }

  /** After the preflight of a first manifest, the closing verification fails exactly when a tombstone
      of an earlier row is already there. */
  lemma RootVerifies(s: Store, m: Manifest, t1: Instant, t2: Instant)
    requires Integrity(s) && ValidDocument(m) && PreflightRoot(s, m) && m.id !in s.manifests
    ensures VerifiesAt(AfterApply(s, m, t1, t2), m.id) <==> TombstonesAreLater(s, t2)
  {
    if s.cells.Keys !! s.tombstones.Keys {
      RootDecides(s, m, t1, t2);
    } else {
      RootOverlap(s, m, t1, t2);
    }
  }

  lemma RootOverlap(s: Store, m: Manifest, t1: Instant, t2: Instant)
    requires Keyed(s.manifests) && DistinctKeys(m.cells) && m.supersedes.None?
    requires !(s.cells.Keys !! s.tombstones.Keys)
    ensures !VerifiesAt(AfterApply(s, m, t1, t2), m.id)
  {
    hide VerifiesAt;
    var after := AfterApply(s, m, t1, t2);
    assert after.cells.Keys == s.cells.Keys && after.tombstones == s.tombstones;
    if VerifiesAt(after, m.id) {
      VerifiedApart(after, m.id);
    }
  }

  // ---------------------------------------------------------------- the fills themselves

  /** What makes each shadow update touch its one row and pass the pair guard. */
  ghost predicate FillReady(cells: map<CellKey, Pair>, m: Manifest, fill: set<CellKey>)
    requires DistinctKeys(m.cells)
  {
    forall k :: k in fill ==>
      && k in KeysOf(m.cells) && Resolved(CellMap(m.cells)[k])
      && CellMap(m.cells)[k].raw.Some? && CellMap(m.cells)[k].converted.Some?
      && k in cells && cells[k] == Pair(CellMap(m.cells)[k].raw, None)
  }

  lemma ResolvedConverts(m: Manifest)
    requires ValidDocument(m)
    ensures forall k :: k in KeysOf(m.cells) && Resolved(CellMap(m.cells)[k]) ==> CellMap(m.cells)[k].raw.Some? && CellMap(m.cells)[k].converted.Some?
  {
    assert forall c :: c in m.cells ==> ValidDecision(c);
    assert DistinctKeys(m.cells);
    hide ValidDocument, DistinctKeys, KeysOf;
  }

  lemma RootFillReady(s: Store, m: Manifest)
    requires Keyed(s.manifests) && DistinctKeys(m.cells) && ValidDocument(m)
    requires m.supersedes.None? && ListsCells(m, s.cells) && NoShadows(m, s.cells)
    ensures FillReady(s.cells, m, FillSet(s, m))
  {
    hide ValidDocument, DistinctKeys;
    ResolvedConverts(m);
  }

  lemma NextFillReady(s: Store, m: Manifest, tip: Id)
    requires Keyed(s.manifests) && tip in s.manifests && DistinctKeys(m.cells) && ValidDocument(m)
    requires PreflightNext(s, m, tip)
    ensures FillReady(s.cells, m, FillSet(s, m))
  {
    var previous := s.manifests[tip].doc;
    ResolvedConverts(m);
    assert ValidSupersession(previous, m);
    hide VerifiesAt, ValidDocument, ValidSupersession, DistinctKeys, Keyed, PreflightNext;
    forall k | k in FillSet(s, m)
      ensures k in KeysOf(m.cells) && Resolved(CellMap(m.cells)[k]) && k in s.cells
      ensures s.cells[k] == Pair(CellMap(m.cells)[k].raw, None)
    {
      NextFill(s, m, tip, k);
    }
    hide FillSet, Resolved, KeysOf;
  }

  lemma NextFill(s: Store, m: Manifest, tip: Id, k: CellKey)
    requires Keyed(s.manifests) && tip in s.manifests && DistinctKeys(m.cells) && m.supersedes == Some(tip)
    requires PreflightNext(s, m, tip) && k in FillSet(s, m)
    ensures k in KeysOf(m.cells) && Resolved(CellMap(m.cells)[k]) && k in s.cells
    ensures s.cells[k] == Pair(CellMap(m.cells)[k].raw, None)
  {
    var previous := s.manifests[tip].doc;
    assert k in PromotedBy(previous, m);
    assert Promotable(s, CellMap(previous.cells)[k], k);
    VerifiedApart(s, tip);
    hide VerifiesAt, ValidSupersession, DistinctKeys, Keyed, KeysOf;
    SameRaw(previous, m, k);
  }

  lemma SameRaw(previous: Manifest, m: Manifest, k: CellKey)
    requires DistinctKeys(previous.cells) && DistinctKeys(m.cells) && ValidSupersession(previous, m)
    requires k in KeysOf(m.cells) && k in KeysOf(previous.cells)
    ensures CellMap(m.cells)[k].raw == CellMap(previous.cells)[k].raw
  {
    hide ValidDocument, DistinctKeys;
    assert ValidSupersededCell(CellMap(previous.cells)[k], CellMap(m.cells)[k]);
  }

  /** Every shadow preflight returns is still null beside its recorded wall clock. */
  lemma PreflightFillReady(s: Store, m: Manifest)
    requires Keyed(s.manifests) && ValidDocument(m) && Preflight(s, m)
    ensures m.supersedes.Some? ==> m.supersedes.value in s.manifests
    ensures FillReady(s.cells, m, FillSet(s, m))
  {
    assert DistinctKeys(m.cells);
    hide ValidDocument, PreflightRoot, PreflightNext, FillReady, FillSet;
    if Tips(s.manifests) == {} {
      PreflightRootFirst(s, m);
      RootFillReady(s, m);
    } else {
      NextFillReady(s, m, m.supersedes.value);
    }
  }

  lemma PreflightRootFirst(s: Store, m: Manifest)
    requires PreflightRoot(s, m)
    ensures m.supersedes.None? && ListsCells(m, s.cells) && NoShadows(m, s.cells)
  {
  }
}

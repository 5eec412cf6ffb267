/** One event row carried from an unresolved first manifest to a resolved second one: the ledger's hypotheses
    can be met, and its steps do what they are for. */
module TimestampExample {
  import opened Wrappers
  import opened TimestampManifest
  import opened TimestampVerification
  import opened TimestampApply
  import opened TimestampSupersession
  import opened TimestampRuns

  predicate EventCell(k: CellKey) {
    k.row.table == Event && k.row.id != NIL_ID && k.column == CreatedAt
  }

  function Decided(k: CellKey, raw: Wall, resolved: bool): CellDecision {
    if resolved then CellDecision(k, Some(raw), Proven, Some(0), Some(raw), Evidence("UTC", "host clock", "checksum", "approver"))
    else CellDecision(k, Some(raw), Unresolved, None, None, NO_EVIDENCE)
  }

  function Document(id: Id, supersedes: Option<Id>, k: CellKey, raw: Wall, resolved: bool): Manifest {
    Manifest(id, supersedes, SOURCE_SCHEMA_VERSION, 0, 0, 0, 1, 1, 1, 0, [Decided(k, raw, resolved)])
  }

  function Migrated(k: CellKey, raw: Wall): Store {
    Store(map[k := Pair(Some(raw), None)], map[], map[], ExpandState(ManifestRequired, 0, 1, 1, 0), 0)
  }

  lemma DocumentKeys(m: Manifest, k: CellKey, raw: Wall, resolved: bool)
    requires m.cells == [Decided(k, raw, resolved)]
    ensures DistinctKeys(m.cells) && KeysOf(m.cells) == {k} && CellMap(m.cells) == map[k := Decided(k, raw, resolved)]
  {
    assert Decided(k, raw, resolved) in m.cells;
    assert CellMap(m.cells).Keys == {k};
  }

  lemma EventRows(k: CellKey)
    requires EventCell(k)
    ensures RowIds({k}, Event) == {k.row.id} && RowIds({k}, Execution) == {} && WholeRows({k})
  {
    assert k in {k};
    assert k == CellKey(k.row, CreatedAt);
  }

  lemma DocumentValid(id: Id, supersedes: Option<Id>, k: CellKey, raw: Wall, resolved: bool)
    requires EventCell(k) && id != NIL_ID && supersedes != Some(NIL_ID) && supersedes != Some(id)
    ensures ValidDocument(Document(id, supersedes, k, raw, resolved))
  {
    var m := Document(id, supersedes, k, raw, resolved);
    DocumentKeys(m, k, raw, resolved);
    EventRows(k);
    assert Populated([]) == 0 && m.cells[..0] == [];
    assert ValidDecision(Decided(k, raw, resolved));
  }

  lemma MigratedIntegrity(k: CellKey, raw: Wall)
    requires EventCell(k)
    ensures Integrity(Migrated(k, raw)) && Lineage(Migrated(k, raw).manifests, [])
  {
    EventRows(k);
    assert Migrated(k, raw).cells.Keys == {k};
  }

  /** Before any manifest the preflight is that of a first one. */
  lemma RootIsPreflight(s: Store, m: Manifest)
    requires s.manifests == map[] && PreflightRoot(s, m)
    ensures Keyed(s.manifests) && Preflight(s, m)
  {
    hide PreflightRoot;
    assert Tips(s.manifests) == {};
  }

  lemma FirstListed(k: CellKey, raw: Wall, id: Id)
    requires EventCell(k)
    ensures ListsCells(Document(id, None, k, raw, false), Migrated(k, raw).cells)
    ensures NoShadows(Document(id, None, k, raw, false), Migrated(k, raw).cells)
  {
    DocumentKeys(Document(id, None, k, raw, false), k, raw, false);
    hide DistinctKeys, CellMap;
  }

  lemma FirstCounts(k: CellKey, raw: Wall, id: Id)
    requires EventCell(k)
    ensures MatchesCounts(Document(id, None, k, raw, false), Migrated(k, raw).cells)
  {
    var s := Migrated(k, raw);
    EventRows(k);
    assert s.cells.Keys == {k} && |s.cells| == |s.cells.Keys|;
    assert (set c | c in s.cells && s.cells[c].raw.Some?) == {k};
    hide RowIds;
  }

  lemma FirstExpand(k: CellKey, raw: Wall, id: Id)
    ensures var s, m := Migrated(k, raw), Document(id, None, k, raw, false);
            s.manifests == map[] && m.supersedes.None? && MatchesExpand(m, s.expand)
  {
  }

  lemma RootOf(s: Store, m: Manifest)
    requires m.supersedes.None? && MatchesExpand(m, s.expand) && MatchesCounts(m, s.cells)
    requires ListsCells(m, s.cells) && NoShadows(m, s.cells)
    ensures PreflightRoot(s, m)
  {
    hide MatchesCounts, ListsCells, NoShadows, MatchesExpand;
  }

  lemma FirstPreflight(k: CellKey, raw: Wall, id: Id)
    requires EventCell(k) && id != NIL_ID
    ensures Keyed(Migrated(k, raw).manifests) && Preflight(Migrated(k, raw), Document(id, None, k, raw, false))
  {
    var s, m := Migrated(k, raw), Document(id, None, k, raw, false);
    hide *;
    FirstListed(k, raw, id);
    FirstCounts(k, raw, id);
    FirstExpand(k, raw, id);
    RootOf(s, m);
    RootIsPreflight(s, m);
  }

  lemma Shapes(k: CellKey, raw: Wall, id: Id)
    ensures var s, m := Migrated(k, raw), Document(id, None, k, raw, false);
            s.tombstones == map[] && s.manifests == map[] && s.clock == 0 && m.id == id && m.approvedAt == 0
  {
  }

  lemma FirstApplicable(k: CellKey, raw: Wall, id: Id)
    requires EventCell(k) && id != NIL_ID
    ensures var s, m := Migrated(k, raw), Document(id, None, k, raw, false);
            Integrity(s) && Lineage(s.manifests, []) && s.tombstones == map[] && Applicable(s, m, 0, 0)
  {
    Shapes(k, raw, id);
    hide ValidDocument, Preflight, Lineage, Integrity, Migrated, Document;
    MigratedIntegrity(k, raw);
    DocumentValid(id, None, k, raw, false);
    FirstPreflight(k, raw, id);
  }

  /** Any applicable manifest that verifies leaves a ready ledger. */
  lemma AppliesReady(s: Store, chain: seq<Id>, m: Manifest, t1: Instant, t2: Instant)
    requires Integrity(s) && Lineage(s.manifests, chain) && Applicable(s, m, t1, t2)
    requires VerifiesAt(AfterApply(s, m, t1, t2), m.id)
    requires chain != [] ==> MatchesExpand(RootDocument(s, chain), s.expand)
    ensures Enabled(s, Step.Apply(m, t1, t2)) && Ready(Next(s, Step.Apply(m, t1, t2)), [m.id] + chain)
  {
    hide Integrity, Lineage, Applicable, VerifiesAt, Ready, MatchesExpand, AfterApply;
    NextIntegrity(s, Step.Apply(m, t1, t2));
    NextLineage(s, Step.Apply(m, t1, t2), chain);
    ApplyReady(s, m, t1, t2, chain);
  }

  /** The first manifest applies, and the startup check passes with it. */
  lemma FirstApply(k: CellKey, raw: Wall, id: Id)
    requires EventCell(k) && id != NIL_ID
    ensures var s, step := Migrated(k, raw), Step.Apply(Document(id, None, k, raw, false), 0, 0);
            Integrity(s) && Enabled(s, step) && Ready(Next(s, step), [id])
  {
    var s, m := Migrated(k, raw), Document(id, None, k, raw, false);
    FirstApplicable(k, raw, id);
    assert m.id == id;
    hide Integrity, Lineage, Applicable, VerifiesAt, Ready, Migrated, Document, AfterApply;
    ApplicableIsAdmitted(s, m, 0, 0);
    StrictClockSuffices(s, [], m, 0, 0);
    AppliesReady(s, [], m, 0, 0);
    assert [id] + [] == [id];
  }

  /** The store once the first manifest is verified: nothing was resolved, so nothing was filled. */
  function Verified1(k: CellKey, raw: Wall, id: Id): Store {
    Migrated(k, raw).(manifests := map[id := Record(Document(id, None, k, raw, false), Verified, Some(0), Some(0))])
  }

  lemma NothingFilled(k: CellKey, raw: Wall, id: Id)
    ensures var s, m := Migrated(k, raw), Document(id, None, k, raw, false);
            Keyed(s.manifests) && DistinctKeys(m.cells) && AfterApply(s, m, 0, 0) == Verified1(k, raw, id)
  {
    var s, m := Migrated(k, raw), Document(id, None, k, raw, false);
    DocumentKeys(m, k, raw, false);
    assert FillSet(s, m) == {};
    assert Filled(s.cells, m, {}) == s.cells;
    hide FillSet, DistinctKeys, Filled;
  }

  lemma AfterFirst(k: CellKey, raw: Wall, id: Id)
    requires EventCell(k) && id != NIL_ID
    ensures var s, step := Migrated(k, raw), Step.Apply(Document(id, None, k, raw, false), 0, 0);
            Integrity(s) && Enabled(s, step) && Next(s, step) == Verified1(k, raw, id)
  {
    hide Integrity, Ready, Applicable, VerifiesAt, Migrated, Document, Verified1, AfterApply, DistinctKeys;
    FirstApply(k, raw, id);
    NothingFilled(k, raw, id);
  }

  lemma Supersedes(k: CellKey, raw: Wall, id: Id, later: Id)
    requires EventCell(k) && id != NIL_ID && later != NIL_ID && later != id
    ensures ValidSupersession(Document(id, None, k, raw, false), Document(later, Some(id), k, raw, true))
  {
    DocumentValid(later, Some(id), k, raw, true);
    DocumentKeys(Document(id, None, k, raw, false), k, raw, false);
    DocumentKeys(Document(later, Some(id), k, raw, true), k, raw, true);
    hide ValidDocument;
  }

  lemma SecondTip(k: CellKey, raw: Wall, id: Id)
    requires id != NIL_ID
    ensures var ms := Verified1(k, raw, id).manifests; Tips(ms) == {id} && !Incomplete(ms)
  {
    var ms := Verified1(k, raw, id).manifests;
    assert Document(id, None, k, raw, false).supersedes.None?;
    hide Document, Migrated;
    assert !HasActiveChild(ms, id);
    assert IsTip(ms, id);
  }

  lemma SecondPromotes(k: CellKey, raw: Wall, id: Id, later: Id)
    requires EventCell(k)
    ensures var s, a, b := Verified1(k, raw, id), Document(id, None, k, raw, false), Document(later, Some(id), k, raw, true);
            DistinctKeys(a.cells) && DistinctKeys(b.cells)
            && forall c :: c in PromotedBy(a, b) ==> c in CellMap(a.cells) && Promotable(s, CellMap(a.cells)[c], c)
  {
    DocumentKeys(Document(id, None, k, raw, false), k, raw, false);
    DocumentKeys(Document(later, Some(id), k, raw, true), k, raw, true);
    hide DistinctKeys, KeysOf, CellMap;
  }

  lemma SecondPreflight(k: CellKey, raw: Wall, id: Id, later: Id)
    requires EventCell(k) && id != NIL_ID && later != NIL_ID && later != id
    requires Keyed(Verified1(k, raw, id).manifests) && VerifiesAt(Verified1(k, raw, id), id)
    ensures Preflight(Verified1(k, raw, id), Document(later, Some(id), k, raw, true))
  {
    var s, m := Verified1(k, raw, id), Document(later, Some(id), k, raw, true);
    Supersedes(k, raw, id, later);
    SecondTip(k, raw, id);
    SecondPromotes(k, raw, id, later);
    assert id in s.manifests && s.manifests[id].doc == Document(id, None, k, raw, false) && m.supersedes == Some(id);
    hide *;
    NextIsPreflight(s, m, id);
  }

  /** With one tip and nothing incomplete the preflight is that of a superseding manifest. */
  lemma NextIsPreflight(s: Store, m: Manifest, tip: Id)
    requires Keyed(s.manifests) && Tips(s.manifests) == {tip} && !Incomplete(s.manifests) && tip in s.manifests
    requires m.supersedes == Some(tip) && VerifiesAt(s, tip) && ValidSupersession(s.manifests[tip].doc, m)
    requires DistinctKeys(s.manifests[tip].doc.cells) && DistinctKeys(m.cells)
    requires forall c :: c in PromotedBy(s.manifests[tip].doc, m) ==>
               c in CellMap(s.manifests[tip].doc.cells) && Promotable(s, CellMap(s.manifests[tip].doc.cells)[c], c)
    ensures Preflight(s, m)
  {
    hide ValidSupersession, VerifiesAt, Keyed, DistinctKeys, PromotedBy, Promotable, Incomplete, Tips, CellMap;
  }

  lemma ReadyGives(s: Store, chain: seq<Id>)
    requires Ready(s, chain)
    ensures Integrity(s) && Keyed(s.manifests) && Lineage(s.manifests, chain) && chain != [] && VerifiesAt(s, chain[0])
    ensures IsChain(s.manifests, chain) && MatchesExpand(RootDocument(s, chain), s.expand)
  {
    hide Lineage, MatchesExpand, ValidTombstones, WholeRows, CellsVerified, ChainPromotes, ValidDocument;
    LineageIsChain(s.manifests, chain);
  }

  lemma SecondApplicable(k: CellKey, raw: Wall, id: Id, later: Id)
    requires EventCell(k) && id != NIL_ID && later != NIL_ID && later != id
    requires Integrity(Verified1(k, raw, id)) && VerifiesAt(Verified1(k, raw, id), id)
    ensures Applicable(Verified1(k, raw, id), Document(later, Some(id), k, raw, true), 1, 1)
  {
    assert Keyed(Verified1(k, raw, id).manifests);
    hide ValidDocument, Preflight, VerifiesAt, Verified1, Document, Integrity, Keyed, DistinctKeys;
    SecondShapes(k, raw, id, later);
    DocumentValid(later, Some(id), k, raw, true);
    SecondPreflight(k, raw, id, later);
  }

  lemma SecondShapes(k: CellKey, raw: Wall, id: Id, later: Id)
    requires later != id
    ensures var s, m := Verified1(k, raw, id), Document(later, Some(id), k, raw, true);
            s.tombstones == map[] && s.clock == 0 && m.id == later && m.id !in s.manifests && m.approvedAt == 0
  {
  }

  /** The second manifest resolves the cell: it applies over the first, and the ledger stays ready. */
  lemma SecondApply(k: CellKey, raw: Wall, id: Id, later: Id)
    requires EventCell(k) && id != NIL_ID && later != NIL_ID && later != id
    ensures var s, step := Verified1(k, raw, id), Step.Apply(Document(later, Some(id), k, raw, true), 1, 1);
            Integrity(s) && Enabled(s, step) && Ready(Next(s, step), [later, id])
  {
    hide Integrity, Ready, Applicable, VerifiesAt, Lineage, MatchesExpand, IsChain, Migrated, Document, Verified1, AfterApply,
         Enabled;
    var s, m := Verified1(k, raw, id), Document(later, Some(id), k, raw, true);
    FirstApply(k, raw, id);
    AfterFirst(k, raw, id);
    ReadyGives(s, [id]);
    SecondShapes(k, raw, id, later);
    SecondApplicable(k, raw, id, later);
    ApplicableIsAdmitted(s, m, 1, 1);
    StrictClockSuffices(s, [id], m, 1, 1);
    AppliesReady(s, [id], m, 1, 1);
    assert [later] + [id] == [later, id];
  }
}

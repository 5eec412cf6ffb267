/** The ledger as the object the verify and apply commands work on. */
module TimestampLedger {
  import opened Wrappers
  import opened TimestampManifest
  import opened TimestampVerification
  import opened TimestampChecks
  import opened TimestampApply
  import opened TimestampPreflight
  import opened TimestampSupersession
  import opened TimestampWrites
  import opened TimestampRuns

  datatype ApplyRequest = ApplyRequest(manifest: Manifest, approved: bool, evidenceComplete: bool)

  datatype ApplyReport = ApplyReport(idempotent: bool, populated: nat, provenanceRows: nat)

  /** The stored manifest and the requested one agree up to the order of their cells. */
  predicate SameDocument(stored: Manifest, requested: Manifest) {
    stored.(cells := []) == requested.(cells := []) && multiset(stored.cells) == multiset(requested.cells)
  }

  /** Field by field the same header, and the same decisions. */
  ghost predicate SameWords(stored: Manifest, requested: Manifest) {
    && stored.id == requested.id && stored.supersedes == requested.supersedes
    && stored.sourceVersion == requested.sourceVersion && stored.approvedAt == requested.approvedAt
    && stored.snapshotStart == requested.snapshotStart && stored.snapshotEnd == requested.snapshotEnd
    && stored.executionCount == requested.executionCount && stored.eventCount == requested.eventCount
    && stored.rawCellCount == requested.rawCellCount && stored.populatedCount == requested.populatedCount
    && forall c :: c in stored.cells <==> c in requested.cells
  }

  lemma {:induction false} OneEach(cells: seq<CellDecision>, c: CellDecision)
    requires DistinctKeys(cells)
    ensures multiset(cells)[c] == if c in cells then 1 else 0
  {
    if cells != [] {
      var front, last := cells[..|cells| - 1], cells[|cells| - 1];
      assert cells == front + [last];
      OneEach(front, c);
      assert last !in front;
    }
  }

  /** A request repeats a stored manifest exactly when no field and no single decision differs. */
  lemma RepeatMeans(stored: Manifest, requested: Manifest)
    requires DistinctKeys(stored.cells) && DistinctKeys(requested.cells)
    ensures SameDocument(stored, requested) <==> SameWords(stored, requested)
  {
    forall c
      ensures multiset(stored.cells)[c] == if c in stored.cells then 1 else 0
      ensures multiset(requested.cells)[c] == if c in requested.cells then 1 else 0
    {
      OneEach(stored.cells, c);
      OneEach(requested.cells, c);
    }
    if SameDocument(stored, requested) {
      assert stored.(cells := []).id == requested.(cells := []).id;
      forall c
        ensures c in stored.cells <==> c in requested.cells
      {
        assert c in stored.cells <==> c in multiset(stored.cells);
      }
    }
    if SameWords(stored, requested) {
      assert multiset(stored.cells) == multiset(requested.cells);
    }
  }

  /** A provenance row of this transaction, under a manifest still APPROVED, that licenses one shadow update. */
  predicate Licensed(r: Record, p: CellDecision) {
    r.state == Approved
    && exists c :: c in r.doc.cells && c.key == p.key && c.raw == p.raw && Resolved(c) && c.converted == p.converted
  }

  /** The row a shadow update finds: the recorded raw value, with a null shadow or the very one to be written. */
  predicate Selects(cells: map<CellKey, Pair>, p: CellDecision) {
    p.key in cells && cells[p.key].raw == p.raw && (cells[p.key].instant.None? || cells[p.key].instant == p.converted)
  }

  /** Right after its provenance row, a null shadow is found and the guard lets it be filled. */
  lemma FillLands(cells: map<CellKey, Pair>, r: Record, p: CellDecision)
    requires r.state == Approved && p in r.doc.cells && Resolved(p) && p.raw.Some? && p.converted.Some?
    requires p.key in cells && cells[p.key] == Pair(p.raw, None)
    ensures Selects(cells, p) && FillGuard(cells[p.key], Pair(p.raw, p.converted), Licensed(r, p))
  {
  }

  ghost predicate Accepted(request: ApplyRequest) {
    request.approved && request.evidenceComplete && ValidDocument(request.manifest)
  }

  ghost predicate Repeats(s: Store, m: Manifest)
    requires m.id in s.manifests
  {
    s.manifests[m.id].state == Verified && SameDocument(s.manifests[m.id].doc, m) && VerifiesAt(s, m.id)
  }

  /** One row of provenance per cell, one filled shadow per key of the fill set, and nothing else. */
  ghost predicate Committed(s: Store, m: Manifest, t1: Instant, t2: Instant, report: ApplyReport, after: Store) {
    && Keyed(s.manifests) && DistinctKeys(m.cells) && (m.supersedes.Some? ==> m.supersedes.value in s.manifests)
    && after == AfterApply(s, m, t1, t2)
    && report == ApplyReport(false, |FillSet(s, m)|, |m.cells|)
  }

  /** Live and deleted rows together are the recorded ones and those that came later. */
  ghost predicate RowsAddUp(s: Store, m: Manifest, r: Report) {
    && r.current.executions + r.deleted.executions == r.source.executions + |LaterRows(s, m, Execution)|
    && r.current.events + r.deleted.events == r.source.events + |LaterRows(s, m, Event)|
  }

  lemma ReportAddsUp(s: Store, m: Manifest, baseline: Instant, promoted: map<CellKey, Instant>, r: Report)
    requires Integrity(s) && ValidDocument(m) && CellsVerified(s, m, baseline, promoted) && s.cells.Keys !! s.tombstones.Keys
    requires Accounts(s, m, r)
    ensures RowsAddUp(s, m, r)
  {
    IntegrityRows(s);
    hide Integrity, ValidDocument, CellsVerified, ValidKey, WholeRows, RowIds, KeysOf, LaterRows, Counted, DistinctKeys;
    RowsAccounted(s, m, baseline, promoted, Execution);
    RowsAccounted(s, m, baseline, promoted, Event);
  }

  lemma IntegrityRows(s: Store)
    requires Integrity(s)
    ensures WholeRows(s.cells.Keys) && WholeRows(s.tombstones.Keys)
    ensures forall k :: k in s.cells.Keys + s.tombstones.Keys ==> ValidKey(k)
  {
    hide WholeRows, ValidKey, Keyed;
  }

  ghost predicate SoundPath(ms: map<Id, Record>, path: seq<Id>) {
    && (forall i :: 0 <= i < |path| ==> path[i] in ms && ValidDocument(ms[path[i]].doc))
    && (forall i {:trigger Succeeds(ms, path, i)} :: 0 <= i < |path| - 1 ==> Succeeds(ms, path, i))
  }

  lemma SoundPathExtends(ms: map<Id, Record>, path: seq<Id>, next: Id)
    requires SoundPath(ms, path) && next in ms && ValidDocument(ms[next].doc)
    requires path != [] ==> ValidSupersession(ms[next].doc, ms[path[|path| - 1]].doc)
    ensures SoundPath(ms, path + [next])
  {
    hide ValidDocument, ValidSupersession;
    var longer := path + [next];
    forall i | 0 <= i < |longer| - 1
      ensures Succeeds(ms, longer, i)
    {
      if i < |path| - 1 { assert Succeeds(ms, path, i); }
    }
  }

  lemma NoSoundThrough(ms: map<Id, Record>, path: seq<Id>, next: Id)
    requires Path(ms, path, next) && (next in path || !Standing(ms, next))
    ensures forall c :: SoundChain(ms, c) ==> c[0] != (path + [next])[0]
  {
    NoChainThrough(ms, path, next);
    hide ValidDocument, ValidSupersession, IsChain, Path;
  }

  lemma StartOfPath(ms: map<Id, Record>, next: Id)
    ensures Path(ms, [], next) && SoundPath(ms, [])
  {
  }

  lemma SoundEnd(ms: map<Id, Record>, chain: seq<Id>)
    requires IsChain(ms, chain) && SoundPath(ms, chain)
    ensures SoundChain(ms, chain)
  {
    hide ValidDocument, ValidSupersession;
  }

  lemma SoundLink(ms: map<Id, Record>, chain: seq<Id>, n: nat)
    requires SoundChain(ms, chain) && 0 < n < |chain|
    ensures chain[n - 1] in ms && chain[n] in ms && ValidSupersession(ms[chain[n]].doc, ms[chain[n - 1]].doc)
  {
    hide ValidDocument, ValidSupersession;
    assert Succeeds(ms, chain, n - 1);
  }

  lemma NoSoundChain(ms: map<Id, Record>, path: seq<Id>, next: Id)
    requires Path(ms, path, next) && next in ms
    requires !ValidDocument(ms[next].doc)
             || (path != [] && path[|path| - 1] in ms && !ValidSupersession(ms[next].doc, ms[path[|path| - 1]].doc))
    ensures forall c :: SoundChain(ms, c) ==> c[0] != (path + [next])[0]
  {
    hide ValidDocument, ValidSupersession;
    forall c | SoundChain(ms, c) && c[0] == (path + [next])[0]
      ensures false
    {
      PathIsPrefix(ms, path, next, c, |path|);
      if path != [] {
        PathIsPrefix(ms, path, next, c, |path| - 1);
        SoundLink(ms, c, |path|);
      }
    }
  }

  lemma AfterKeyed(s: Store, m: Manifest, t1: Instant, t2: Instant)
    requires Keyed(s.manifests) && DistinctKeys(m.cells) && (m.supersedes.Some? ==> m.supersedes.value in s.manifests)
    ensures Keyed(AfterApply(s, m, t1, t2).manifests)
    ensures m.id in AfterApply(s, m, t1, t2).manifests && AfterApply(s, m, t1, t2).manifests[m.id].doc == m
  {
    hide DistinctKeys, Filled;
  }

  lemma CommitDecides(s: Store, chain: seq<Id>, m: Manifest, t1: Instant, t2: Instant)
    requires Integrity(s) && Lineage(s.manifests, chain) && ValidDocument(m) && m.id !in s.manifests && DistinctKeys(m.cells)
    requires s.clock <= t1 <= t2 && m.approvedAt <= t1 && Preflight(s, m)
    ensures m.supersedes.Some? ==> m.supersedes.value in s.manifests
    ensures FillReady(s.cells, m, FillSet(s, m))
    ensures var after := AfterApply(s, m, t1, t2);
            && Keyed(after.manifests) && m.id in after.manifests && after.manifests[m.id].doc == m
            && (VerifiesAt(after, m.id) <==> ClockClear(s, chain, m, t1, t2))
  {
    hide ValidDocument, Lineage, Preflight, ClockClear, FillSet, AfterApply, VerifiesAt, DistinctKeys, FillReady, WholeRows,
         ValidTombstones;
    PreflightFillReady(s, m);
    PreflightSufficient(s, chain, m, t1, t2);
    AfterKeyed(s, m, t1, t2);
  }

  lemma ReportedRows(s: Store, m: Manifest, t1: Instant, t2: Instant, report: Report)
    requires Keyed(s.manifests) && DistinctKeys(m.cells) && (m.supersedes.Some? ==> m.supersedes.value in s.manifests)
    requires Accounts(AfterApply(s, m, t1, t2), m, report)
    ensures report.provenanceRows == |m.cells|
  {
    hide DistinctKeys, Counted, AfterApply;
  }

  lemma NothingListens(s: Store)
    requires !ValidExpand(s.expand) || s.expand.kind != ManifestRequired || Incomplete(s.manifests) || |Tips(s.manifests)| != 1
    ensures forall chain :: !Listens(s, chain)
  {
    hide SoundChain, VerifiesAt, Incomplete, IsTip;
  }

  /** Only the chain below the tip can be listened on. */
  lemma ListensAlong(s: Store, chain: seq<Id>)
    requires SoundChain(s.manifests, chain) && Tips(s.manifests) == {chain[0]}
    ensures (exists c :: Listens(s, c)) <==> Listens(s, chain)
  {
    hide ValidDocument, VerifiesAt, Incomplete, IsTip, MatchesExpand;
    forall c | Listens(s, c)
      ensures c == chain
    {
      assert c[0] in Tips(s.manifests);
      ChainUnique(s.manifests, c, chain);
    }
  }

  function VerifiedIds(ms: map<Id, Record>): set<Id> {
    set id | id in ms && ms[id].state == Verified
  }

  /** Counting rows is enough to know that the walk met every one. */
  lemma SeenCounts(ms: map<Id, Record>, seen: set<Id>, chain: seq<Id>)
    requires SoundChain(ms, chain) && forall i :: i in seen <==> i in chain
    ensures |VerifiedIds(ms)| == |seen| <==> forall id :: id in ms && ms[id].state == Verified ==> id in chain
  {
    forall id | id in seen
      ensures id in VerifiedIds(ms)
    {
      var i :| 0 <= i < |chain| && chain[i] == id;
      assert Standing(ms, chain[i]);
    }
    SubsetSmaller(seen, VerifiedIds(ms));
    hide ValidDocument, SoundChain;
  }

  /** So along the chain below the tip the count, the root and the verification decide. */
  lemma ListensBy(s: Store, seen: set<Id>, chain: seq<Id>)
    requires SoundChain(s.manifests, chain) && Tips(s.manifests) == {chain[0]} && !Incomplete(s.manifests)
    requires forall i :: i in seen <==> i in chain
    ensures (exists c :: Listens(s, c)) <==>
              |VerifiedIds(s.manifests)| == |seen| && MatchesExpand(RootDocument(s, chain), s.expand) && VerifiesAt(s, chain[0])
  {
    hide SoundChain, MatchesExpand, VerifiesAt, ValidDocument, Incomplete, IsTip, Tips;
    ListensAlong(s, chain);
    SeenCounts(s.manifests, seen, chain);
  }

  lemma DeletedPointwise(s: Store, row: RowKey, operation: Id, at: Instant)
    requires WholeRows(s.cells.Keys) && CanDelete(s, row, operation)
    ensures RowKeys(row) <= s.cells.Keys && RowTombstones(s, row, operation, at).Keys == RowKeys(row)
    ensures forall k :: k in RowKeys(row) ==>
              k !in s.tombstones
              && RowTombstones(s, row, operation, at)[k] == Tombstone(LiveView(s.cells, k), operation, RETENTION, at)
  {
    assert RowWhole(s.cells.Keys, CellKey(row, CreatedAt).row);
    hide LiveView;
  }

  lemma DeletedVerifies(s: Store, row: RowKey, operation: Id, at: Instant)
    requires WholeRows(s.cells.Keys) && CanDelete(s, row, operation)
    ensures Integrity(s) ==> Integrity(Deleted(s, row, operation, at))
    ensures forall chain :: Integrity(s) && VerifiedAlong(s, chain) ==> VerifiedAlong(Deleted(s, row, operation, at), chain)
  {
    hide Deleted, VerifiedAlong, CanDelete, WholeRows;
    if Integrity(s) {
      hide Integrity;
      DeletedIntegrity(s, row, operation, at);
      forall chain | VerifiedAlong(s, chain)
        ensures VerifiedAlong(Deleted(s, row, operation, at), chain)
      {
        DeleteKeeps(s, chain, row, operation, at);
      }
    }
  }

  lemma ChainLink(ms: map<Id, Record>, chain: seq<Id>, i: nat)
    requires IsChain(ms, chain) && i < |chain|
    ensures chain[i] in ms && ms[chain[i]].doc.supersedes == if i + 1 < |chain| then Some(chain[i + 1]) else None
  {
    assert Standing(ms, chain[i]) && ms[chain[i]].doc.supersedes == NextOf(chain, i);
  }

  /** A link as the promotion walk reads it. */
  ghost predicate LinkOf(ms: map<Id, Record>, chain: seq<Id>, i: nat, parent: Record, child: Record) {
    && Keyed(ms) && IsChain(ms, chain) && i + 1 < |chain| && chain[i] in ms && chain[i + 1] in ms
    && parent == ms[chain[i + 1]] && child == ms[chain[i]]
    && DistinctKeys(parent.doc.cells) && DistinctKeys(child.doc.cells)
  }

  lemma LinkAt(ms: map<Id, Record>, chain: seq<Id>, i: nat)
    requires Keyed(ms) && IsChain(ms, chain) && i + 1 < |chain| && chain[i] in ms && chain[i + 1] in ms
    ensures DistinctKeys(ms[chain[i]].doc.cells) && DistinctKeys(ms[chain[i + 1]].doc.cells)
    ensures LinkOf(ms, chain, i, ms[chain[i + 1]], ms[chain[i]])
  {
    hide DistinctKeys, IsChain;
  }

  /** One turn of the promotion walk is refused exactly where the link does not promote. */
  lemma LinkDecides(ms: map<Id, Record>, chain: seq<Id>, i: nat, parent: Record, child: Record)
    requires LinkOf(ms, chain, i, parent, child)
    ensures Keyed(ms) && IsChain(ms, chain) && DistinctKeys(parent.doc.cells) && DistinctKeys(child.doc.cells)
    ensures LinkPromotes(ms, chain, i) <==>
            child.appliedAt.Some? && (forall c :: c in child.doc.cells ==> c.key in CellMap(parent.doc.cells))
            && PromotedPrefix(CellMap(parent.doc.cells), child.doc.cells, |child.doc.cells|) !! Promotions(ms, chain, i).Keys
  {
    PromotedPrefixWhole(parent.doc, child.doc);
    KeysListed(parent.doc, child.doc);
    hide PromotedBy, PromotedPrefix, DistinctKeys, KeysOf, IsChain, Keyed, Promotions;
  }

  lemma KeysListed(parent: Manifest, child: Manifest)
    requires DistinctKeys(parent.cells)
    ensures KeysOf(child.cells) <= KeysOf(parent.cells) <==> forall c :: c in child.cells ==> c.key in CellMap(parent.cells)
  {
    hide DistinctKeys;
  }

  /** And otherwise it collects what the link promotes. */
  lemma LinkCollects(ms: map<Id, Record>, chain: seq<Id>, i: nat, parent: Record, child: Record)
    requires LinkOf(ms, chain, i, parent, child) && child.appliedAt.Some?
    ensures Keyed(ms) && IsChain(ms, chain) && DistinctKeys(parent.doc.cells)
    ensures Promotions(ms, chain, i + 1)
            == Collected(CellMap(parent.doc.cells), child.doc.cells, |child.doc.cells|, child.appliedAt.value,
                         Promotions(ms, chain, i))
  {
    PromotedPrefixWhole(parent.doc, child.doc);
    hide PromotedBy, PromotedPrefix, DistinctKeys, KeysOf, IsChain, Keyed;
  }

  lemma BrokenLink(ms: map<Id, Record>, chain: seq<Id>, i: nat)
    requires Keyed(ms) && IsChain(ms, chain) && i + 1 < |chain| && !LinkPromotes(ms, chain, i)
    ensures !ChainPromotes(ms, chain)
  {
    hide LinkPromotes, Keyed, IsChain;
  }

  /** The first `n` links below the tip promote. */
  ghost predicate LinksPromote(ms: map<Id, Record>, chain: seq<Id>, n: nat)
    requires Keyed(ms) && IsChain(ms, chain) && n < |chain|
  {
    forall i: nat :: i < n ==> LinkPromotes(ms, chain, i)
  }

  lemma LinksStart(ms: map<Id, Record>, chain: seq<Id>)
    requires Keyed(ms) && IsChain(ms, chain)
    ensures |chain| > 0 && LinksPromote(ms, chain, 0)
  {
  }

  lemma LinksNext(ms: map<Id, Record>, chain: seq<Id>, n: nat)
    requires Keyed(ms) && IsChain(ms, chain) && n + 1 < |chain| && LinksPromote(ms, chain, n) && LinkPromotes(ms, chain, n)
    ensures LinksPromote(ms, chain, n + 1)
  {
    hide LinkPromotes, Keyed, IsChain;
  }

  lemma AllLinks(ms: map<Id, Record>, chain: seq<Id>)
    requires Keyed(ms) && IsChain(ms, chain) && |chain| > 0 && LinksPromote(ms, chain, |chain| - 1)
    ensures ChainPromotes(ms, chain) && AllPromotions(ms, chain) == Promotions(ms, chain, |chain| - 1)
  {
    hide LinkPromotes, Keyed, IsChain;
  }

  lemma ValidKeys(m: Manifest)
    requires ValidDocument(m)
    ensures DistinctKeys(m.cells)
  {
    hide DistinctKeys;
  }

  lemma AcceptedExactly(request: ApplyRequest)
    ensures Accepted(request) <==> request.approved && request.evidenceComplete && ValidDocument(request.manifest)
  {
    hide ValidDocument;
  }

  lemma IntegrityKeys(s: Store)
    requires Integrity(s)
    ensures Keyed(s.manifests)
  {
  }

  /** What a touch makes of one cell. */
  function Touched(k: CellKey, v: Pair, row: RowKey, at: Instant, start: bool, complete: bool): Pair {
    if k.row == row
       && (k.column == UpdatedAt || (v.raw == None && ((k.column == StartedAt && start) || (k.column == CompletedAt && complete))))
    then Pair(Some(at), Some(at)) else v
  }

  lemma TouchShows(s: Store, row: RowKey, at: Instant, start: bool, complete: bool)
    requires CellKey(row, UpdatedAt) in s.cells && CellKey(row, StartedAt) in s.cells && CellKey(row, CompletedAt) in s.cells
    ensures var after := s.cells + TouchDelta(s, row, at, start, complete);
            after.Keys == s.cells.Keys && forall k :: k in after ==> after[k] == Touched(k, s.cells[k], row, at, start, complete)
  {
  }

  lemma InsertedVerifies(s: Store, row: RowKey, pairs: map<Column, Pair>)
    requires CanInsert(s, row, pairs)
    ensures forall chain :: Integrity(s) && VerifiedAlong(s, chain) ==>
              (VerifiedAlong(Inserted(s, row, pairs), chain)
               <==> HarmlessInsert(s, row, pairs, Baseline(s.manifests, chain)))
  {
    forall chain | Integrity(s) && VerifiedAlong(s, chain)
      ensures VerifiedAlong(Inserted(s, row, pairs), chain) <==> HarmlessInsert(s, row, pairs, Baseline(s.manifests, chain))
    {
      assert Standing(s.manifests, chain[|chain| - 1]);
      hide Integrity, VerifiedAlong, CanInsert, HarmlessInsert, Inserted;
      InsertKeeps(s, chain, row, pairs);
    }
  }

  class Ledger {
    var cells: map<CellKey, Pair>
    var tombstones: map<CellKey, Tombstone>
    var manifests: map<Id, Record>
    var expand: ExpandState
    var clock: Instant

    constructor (s: Store)
      ensures State() == s
    {
      cells, tombstones, manifests := s.cells, s.tombstones, s.manifests;
      expand, clock := s.expand, s.clock;
    }

    ghost function State(): Store
      reads this
    {
      Store(cells, tombstones, manifests, expand, clock)
    }

    /** Follows `supersedes` to the root, refusing a cycle and anything not VERIFIED. */
    method LifecycleBaseline(id: Id) returns (r: Result<Instant>, ghost chain: seq<Id>)
      ensures r.Ok? ==> IsChain(manifests, chain) && chain[0] == id && r.value == Baseline(manifests, chain)
      ensures r.Err? ==> forall c :: IsChain(manifests, c) ==> c[0] != id
    {
      var current := id;
      var seen: set<Id> := {};
      chain := [];
      while true
        invariant (forall i :: i in seen <==> i in chain) && seen <= manifests.Keys
        invariant (chain + [current])[0] == id
        invariant Path(manifests, chain, current)
        decreases manifests.Keys - seen
      {
        if current in seen || current !in manifests
           || manifests[current].state != Verified || manifests[current].verifiedAt.None? {
          NoChainThrough(manifests, chain, current);
          return Err("manifest chain contains a cycle or a manifest that is not VERIFIED"), chain;
        }
        var parent := manifests[current].doc.supersedes;
        if parent.None? {
          PathEnds(manifests, chain, current);
          chain := chain + [current];
          return Ok(manifests[current].verifiedAt.value), chain;
        }
        PathExtends(manifests, chain, current, parent.value);
        seen, chain, current := seen + {current}, chain + [current], parent.value;
      }
    }

    /** One link of the promotion walk, from the child `current` to its parent. */
    method PromotionLink(ghost chain: seq<Id>, ghost i: nat, current: Id, promoted: map<CellKey, Instant>)
      returns (r: Result<map<CellKey, Instant>>)
      requires Keyed(manifests) && IsChain(manifests, chain) && i + 1 < |chain| && current == chain[i] && current in manifests
      requires manifests[current].doc.supersedes == Some(chain[i + 1]) && chain[i + 1] in manifests
      requires promoted == Promotions(manifests, chain, i)
      ensures r.Ok? <==> LinkPromotes(manifests, chain, i)
      ensures r.Ok? ==> r.value == Promotions(manifests, chain, i + 1)
    {
      hide *;
      var child := manifests[current];
      var parent := manifests[child.doc.supersedes.value];
      LinkAt(manifests, chain, i);
      LinkDecides(manifests, chain, i, parent, child);
      if child.appliedAt.None? {
        return Err("manifest promotion child must be VERIFIED and applied");
      }
      LinkCollects(manifests, chain, i, parent, child);
      r := LinkPromotions(CellMap(parent.doc.cells), child.doc.cells, child.appliedAt.value, promoted);
    }

    /** When each deleted cell's decision was promoted, walking from the tip to the root.
        There is no cycle check: the walk runs only below a chain already known to reach a root. */
    method PromotionTimes(ghost chain: seq<Id>, latest: Id) returns (r: Result<map<CellKey, Instant>>)
      requires Keyed(manifests) && IsChain(manifests, chain) && chain[0] == latest
      ensures r.Ok? <==> ChainPromotes(manifests, chain)
      ensures r.Ok? ==> r.value == AllPromotions(manifests, chain)
    {
      ghost var ms := manifests;
      hide *;
      PromotionsNone(ms, chain);
      LinksStart(ms, chain);
      var promoted: map<CellKey, Instant> := map[];
      var current := latest;
      ghost var i := 0;
      ChainLink(ms, chain, i);
      while manifests[current].doc.supersedes.Some?
        invariant manifests == ms && i < |chain| && current == chain[i] && current in ms
        invariant ms[current].doc.supersedes == if i + 1 < |chain| then Some(chain[i + 1]) else None
        invariant promoted == Promotions(ms, chain, i)
        invariant LinksPromote(ms, chain, i)
        decreases |chain| - i
      {
        ChainLink(ms, chain, i + 1);
        var step := PromotionLink(chain, i, current, promoted);
        if step.Err? {
          BrokenLink(ms, chain, i);
          return step;
        }
        LinksNext(ms, chain, i);
        promoted := step.value;
        current, i := manifests[current].doc.supersedes.value, i + 1;
      }
      AllLinks(ms, chain);
      return Ok(promoted);
    }

    /** Groups deletion tombstones by row, refusing a row with two operations or two deletion times. */
    method GroupTombstones() returns (r: Result<map<RowKey, Group>>)
      ensures r.Ok? ==> Grouped(tombstones, tombstones.Keys, r.value)
      ensures r.Err? ==> !ValidTombstones(tombstones)
    {
      var groups: map<RowKey, Group> := map[];
      var rest := tombstones.Keys;
      ghost var done: set<CellKey> := {};
      while rest != {}
        invariant done + rest == tombstones.Keys
        invariant Grouped(tombstones, done, groups)
        decreases rest
      {
        var k :| k in rest;
        var t := tombstones[k];
        if !Authorized(t) || !ValidKey(k) {
          return Err("deletion tombstone has invalid authorization or cell");
        }
        if k.row in groups && (groups[k.row].operation != t.operation || groups[k.row].deletedAt != t.deletedAt) {
          assert GroupOf(tombstones, done, k.row, groups[k.row]);
          return Err("deletion tombstone row has inconsistent operation evidence");
        }
        GroupedStep(tombstones, done, groups, k);
        groups := groups[k.row := GroupWith(groups, k, t)];
        rest, done := rest - {k}, done + {k};
      }
      assert done == tombstones.Keys;
      return Ok(groups);
    }

    /** Every deleted row must have left one authorized tombstone per column, from one operation at one time. */
    method CheckTombstones() returns (r: Result<()>)
      ensures r.Ok? <==> ValidTombstones(tombstones)
    {
      var grouped := GroupTombstones();
      if grouped.Err? {
        return Err(grouped.message);
      }
      var groups := grouped.value;
      GroupsDecide(tombstones, groups);
      var rows := groups.Keys;
      while rows != {}
        invariant rows <= groups.Keys
        invariant forall row :: row in groups && row !in rows ==> Complete(row, groups[row])
      {
        var row :| row in rows;
        if !Complete(row, groups[row]) {
          return Err("deletion tombstone row is incomplete");
        }
        rows := rows - {row};
      }
      return Ok(());
    }

    /** Re-checks the whole store against one manifest, its ancestors and the tombstones. */
    method Verify(id: Id) returns (r: Result<Report>)
      requires Keyed(manifests)
      ensures r.Ok? <==> VerifiesAt(State(), id)
      ensures r.Ok? ==> Accounts(State(), manifests[id].doc, r.value)
      ensures r.Ok? && Integrity(State()) ==> RowsAddUp(State(), manifests[id].doc, r.value)
    {
      var baseline, chain := LifecycleBaseline(id);
      if baseline.Err? {
        return Err(baseline.message);
      }
      var m := manifests[id].doc;
      if !ValidDocument(m) {
        NotVerified(State(), chain);
        return Err("manifest document is invalid");
      }
      var promoted := PromotionTimes(chain, id);
      var tombstonesChecked := CheckTombstones();
      if promoted.Err? || tombstonesChecked.Err? || cells.Keys * tombstones.Keys != {} {
        NotVerified(State(), chain);
        return Err("promotion ancestry, tombstones or double evidence");
      }
      r := VerifyCells(Store(cells, tombstones, manifests, expand, clock), m, baseline.value, promoted.value);
      if r.Ok? && Integrity(State()) { ReportAddsUp(State(), m, baseline.value, promoted.value, r.value); }
      Decided(State(), chain);
    }

    /** The one VERIFIED manifest nothing supersedes, provided no manifest is half prepared. */
    method UniqueTip() returns (r: Result<Option<Id>>)
      ensures r.Ok? <==> !Incomplete(manifests) && |Tips(manifests)| <= 1
      ensures r.Ok? ==> Tips(manifests) == if r.value.Some? then {r.value.value} else {}
    {
      if Incomplete(manifests) {
        return Err("found incomplete manifests");
      }
      var tips := Tips(manifests);
      if |tips| > 1 {
        return Err("found several verified manifest tips");
      }
      if tips == {} {
        return Ok(None);
      }
      var tip :| tip in tips;
      assert |tips - {tip}| == 0;
      assert tips == {tip};
      return Ok(Some(tip));
    }

    /** Preflight of an apply; on success, the shadows it will fill. */
    method RequireSnapshotForApply(m: Manifest) returns (r: Result<set<CellKey>>)
      requires Keyed(manifests) && ValidDocument(m)
      ensures r.Ok? <==> Preflight(State(), m)
      ensures r.Ok? ==> (m.supersedes.Some? ==> m.supersedes.value in manifests) && r.value == FillSet(State(), m)
    {
      assert DistinctKeys(m.cells);
      hide ValidDocument, PreflightRoot, PreflightNext, IsTip, FillSet;
      var tip := UniqueTip();
      if tip.Err? {
        return Err(tip.message);
      }
      if tip.value.None? {
        r := RequireRoot(m);
      } else if m.supersedes != tip.value {
        return Err("manifest must supersede verified tip");
      } else {
        assert tip.value.value in Tips(manifests);
        r := RequireNext(m, tip.value.value);
      }
    }

    method RequireRoot(m: Manifest) returns (r: Result<set<CellKey>>)
      requires Keyed(manifests) && DistinctKeys(m.cells)
      ensures r.Ok? <==> PreflightRoot(State(), m)
      ensures r.Ok? ==> m.supersedes.None? && r.value == FillSet(State(), m)
    {
      if m.supersedes.Some? {
        return Err("first manifest cannot supersede another manifest");
      }
      if !MatchesExpand(m, expand) {
        return Err("first manifest differs from the expand transition");
      }
      var same := CheckSnapshot(m, cells);
      if !same {
        return Err("manifest does not match the current raw snapshot");
      }
      r := RootFills(m.cells, cells);
      RootFillsDecide(State(), m);
    }

    method RequireNext(m: Manifest, tip: Id) returns (r: Result<set<CellKey>>)
      requires Keyed(manifests) && DistinctKeys(m.cells) && tip in manifests && m.supersedes == Some(tip)
      ensures r.Ok? <==> PreflightNext(State(), m, tip)
      ensures r.Ok? ==> r.value == FillSet(State(), m)
    {
      var previous := manifests[tip].doc;
      if !ValidSupersession(previous, m) {
        return Err("invalid supersession");
      }
      var verified := Verify(tip);
      if verified.Err? {
        return Err("live lifecycle verification against verified tip");
      }
      assert KeysOf(m.cells) <= KeysOf(previous.cells);
      hide ValidSupersession, ValidDocument, VerifiesAt;
      VerifiedApart(State(), tip);
      r := PromotionFills(Store(cells, tombstones, manifests, expand, clock), CellMap(previous.cells), m.cells);
      PromotablePrefixDecides(State(), previous, m);
      FillPrefixDecides(State(), previous, m);
    }

    /** The guarded shadow update. The statement selects its row by raw value and shadow; the guard then refuses
        whatever neither leaves the pair alone nor fills a null shadow under this transaction's provenance. */
    method FillShadow(id: Id, p: CellDecision) returns (affected: Result<nat>)
      requires id in manifests
      modifies this`cells
      ensures affected == Ok(0) <==> !Selects(old(cells), p)
      ensures affected.Err? <==>
              Selects(old(cells), p) && !FillGuard(old(cells)[p.key], Pair(p.raw, p.converted), Licensed(manifests[id], p))
      ensures affected.Ok? ==> affected.value <= 1
      ensures affected == Ok(1) ==> p.key in old(cells) && cells == old(cells)[p.key := Pair(p.raw, p.converted)]
      ensures affected != Ok(1) ==> cells == old(cells)
    {
      if p.key !in cells || cells[p.key].raw != p.raw {
        return Ok(0);
      }
      var shadow := cells[p.key].instant;
      if shadow.Some? && shadow != p.converted {
        return Ok(0);
      }
      if shadow != p.converted && (p.raw.None? || !Licensed(manifests[id], p)) {
        return Err("shadow-only update requires exact current-transaction provenance");
      }
      cells := cells[p.key := Pair(p.raw, p.converted)];
      return Ok(1);
    }

    /** Inserts one provenance row and, where asked, fills its shadow. `before` and `records` name the tables as they
        were before the apply. */
    method InsertCell(m: Manifest, fill: set<CellKey>, i: nat, ghost before: map<CellKey, Pair>, ghost records: map<Id, Record>)
      returns (filled: bool)
      requires DistinctKeys(m.cells) && FillReady(before, m, fill) && i < |m.cells|
      requires manifests == records[m.id := Record(m.(cells := m.cells[..i]), Approved, None, None)]
      requires cells == Filled(before, m, fill * PrefixKeys(m.cells, i))
      modifies this`cells, this`manifests
      ensures filled
      ensures manifests == records[m.id := Record(m.(cells := m.cells[..i + 1]), Approved, None, None)]
      ensures cells == Filled(before, m, fill * PrefixKeys(m.cells, i + 1))
    {
      hide *;
      var cell := m.cells[i];
      manifests := manifests[m.id := Record(m.(cells := m.cells[..i] + [cell]), Approved, None, None)];
      assert m.cells[..i + 1] == m.cells[..i] + [cell];
      FilledStep(before, m, fill, i);
      if cell.key in fill {
        assert manifests[m.id].doc.cells[i] == cell;
        FillLands(cells, manifests[m.id], cell);
        var affected := FillShadow(m.id, cell);
        if affected != Ok(1) {
          return false;
        }
      }
      return true;
    }

    /** Inserts the manifest as APPROVED, then each provenance row, filling each shadow right after its row.
        No fill can miss its row. */
    method InsertAndFill(m: Manifest, fill: set<CellKey>) returns (filled: bool)
      requires m.id !in manifests && DistinctKeys(m.cells) && FillReady(cells, m, fill)
      modifies this`cells, this`manifests
      ensures filled
      ensures cells == Filled(old(cells), m, fill)
      ensures manifests == old(manifests)[m.id := Record(m, Approved, None, None)]
    {
      ghost var before, records := cells, manifests;
      FilledNone(before, m, fill);
      FilledAll(before, m, fill);
      hide *;
      manifests := manifests[m.id := Record(m.(cells := []), Approved, None, None)];
      for i := 0 to |m.cells|
        invariant manifests == records[m.id := Record(m.(cells := m.cells[..i]), Approved, None, None)]
        invariant cells == Filled(before, m, fill * PrefixKeys(m.cells, i))
      {
        var landed := InsertCell(m, fill, i, before, records);
        if !landed {
          return false;
        }
      }
      assert m.cells[..|m.cells|] == m.cells;
      return true;
    }

    /** Writes the manifest through to VERIFIED. */
    method Advance(m: Manifest, fill: set<CellKey>, t1: Instant, t2: Instant)
      requires Keyed(manifests) && DistinctKeys(m.cells) && m.id !in manifests
      requires (m.supersedes.Some? ==> m.supersedes.value in manifests) && fill == FillSet(State(), m)
      requires FillReady(cells, m, fill)
      modifies this`cells, this`manifests, this`clock
      ensures State() == AfterApply(old(State()), m, t1, t2)
    {
      ghost var s := State();
      hide DistinctKeys, Keyed, FillReady, FillSet, Filled;
      var filled := InsertAndFill(m, fill);
      manifests := manifests[m.id := Record(m, Applied, Some(t1), None)];
      manifests := manifests[m.id := Record(m, Verified, Some(t1), Some(t2))];
      clock := t2;
      assert manifests == s.manifests[m.id := Record(m, Verified, Some(t1), Some(t2))];
    }

    /** The writes and the closing verification of an apply; a failure rolls the tables back. */
    method CommitIfVerified(m: Manifest, fill: set<CellKey>, t1: Instant, t2: Instant, ghost s: Store)
      returns (r: Result<ApplyReport>)
      requires s == State() && Keyed(s.manifests) && DistinctKeys(m.cells) && m.id !in s.manifests
      requires (m.supersedes.Some? ==> m.supersedes.value in s.manifests) && fill == FillSet(s, m)
      requires FillReady(s.cells, m, fill)
      modifies this`cells, this`manifests, this`clock
      ensures r.Ok? <==> VerifiesAt(AfterApply(s, m, t1, t2), m.id)
      ensures r.Ok? ==> State() == AfterApply(s, m, t1, t2) && r.value == ApplyReport(false, |fill|, |m.cells|)
      ensures r.Err? ==> State() == s
    {
      hide FillSet, AfterApply, VerifiesAt, DistinctKeys, Keyed, FillReady, Accounts;
      var before, records, reading := cells, manifests, clock;
      Advance(m, fill, t1, t2);
      AfterKeyed(s, m, t1, t2);
      var verified := Verify(m.id);
      if verified.Err? {
        cells, manifests, clock := before, records, reading;
        return Err(verified.message);
      }
      ReportedRows(s, m, t1, t2, verified.value);
      return Ok(ApplyReport(false, |fill|, verified.value.provenanceRows));
    }

    /** An apply of a manifest the ledger has not seen. `s` names the store before the call. */
    method ApplyFresh(m: Manifest, t1: Instant, t2: Instant, ghost chain: seq<Id>, ghost s: Store) returns (r: Result<ApplyReport>)
      requires s == State() && Integrity(s) && Lineage(s.manifests, chain)
      requires ValidDocument(m) && m.id !in s.manifests && s.clock <= t1 <= t2
      modifies this`cells, this`manifests, this`clock
      ensures r.Ok? <==> Preflight(s, m) && m.approvedAt <= t1 && ClockClear(s, chain, m, t1, t2)
      ensures r.Ok? ==> (m.supersedes.Some? ==> m.supersedes.value in s.manifests)
                        && State() == AfterApply(s, m, t1, t2)
                        && r.value == ApplyReport(false, |FillSet(s, m)|, |m.cells|)
      ensures r.Err? ==> State() == s
    {
      assert DistinctKeys(m.cells) && Keyed(manifests);
      hide ValidDocument, Integrity, Lineage, Preflight, ClockClear, FillSet, AfterApply, VerifiesAt, DistinctKeys, Keyed,
           FillReady;
      var fill := RequireSnapshotForApply(m);
      if fill.Err? || t1 < m.approvedAt {
        return Err("preflight refused, or the clock is behind the approval");
      }
      CommitDecides(s, chain, m, t1, t2);
      r := CommitIfVerified(m, fill.value, t1, t2, s);
    }

    /** The apply command. Repeating an applied manifest changes nothing; a refused one changes nothing either. */
    method Apply(request: ApplyRequest, t1: Instant, t2: Instant, ghost chain: seq<Id>, ghost s: Store)
      returns (r: Result<ApplyReport>)
      requires s == State() && Integrity(s) && Lineage(s.manifests, chain) && s.clock <= t1 <= t2
      modifies this`cells, this`manifests, this`clock
      ensures r.Ok? <==> Accepted(request) &&
                         if request.manifest.id in s.manifests then Repeats(s, request.manifest)
                         else Preflight(s, request.manifest) && request.manifest.approvedAt <= t1
                              && ClockClear(s, chain, request.manifest, t1, t2)
      ensures r.Ok? ==> r.value.idempotent == (request.manifest.id in s.manifests)
      ensures r.Ok? && r.value.idempotent ==> SameWords(s.manifests[request.manifest.id].doc, request.manifest)
      ensures r.Ok? && !r.value.idempotent ==> Committed(s, request.manifest, t1, t2, r.value, State())
      ensures r.Err? || r.value.idempotent ==> State() == s
    {
      var m := request.manifest;
      AcceptedExactly(request);
      IntegrityKeys(s);
      hide Accepted, ValidDocument, Integrity, Lineage, Preflight, ClockClear, FillSet, AfterApply, VerifiesAt, DistinctKeys, Keyed,
           SameDocument, SameWords, Accounts;
      if !request.approved || !ValidDocument(m) || !request.evidenceComplete {
        return Err("mutating apply requires an APPROVED manifest and complete evidence");
      }
      ValidKeys(m);
      if m.id in manifests {
        if manifests[m.id].state != Verified || !SameDocument(manifests[m.id].doc, m) {
          return Err("manifest id collision");
        }
        RepeatMeans(manifests[m.id].doc, m);
        var verified := Verify(m.id);
        if verified.Err? {
          return Err(verified.message);
        }
        return Ok(ApplyReport(true, 0, verified.value.provenanceRows));
      }
      r := ApplyFresh(m, t1, t2, chain, s);
    }

    /** The dry run: counts the shadows an apply would fill, on schema 137 from the snapshot alone. */
    method DryRun(m: Manifest, catalogVersion: nat) returns (r: Result<nat>)
      requires Keyed(manifests)
      ensures r.Ok? <==> ValidDocument(m) && if catalogVersion == 137 then m.supersedes.None? && MatchesSnapshot(m, cells)
                                             else Preflight(State(), m)
      ensures r.Ok? ==> (m.supersedes.Some? ==> m.supersedes.value in manifests) && r.value == |FillSet(State(), m)|
    {
      hide ValidDocument, Preflight, MatchesSnapshot, Keyed, DistinctKeys, FillSet, ResolvedPrefix, Listed, NoShadows;
      if !ValidDocument(m) {
        return Err("manifest document is invalid");
      }
      ValidKeys(m);
      if catalogVersion != 137 {
        var fill := RequireSnapshotForApply(m);
        return if fill.Ok? then Ok(|fill.value|) else Err(fill.message);
      }
      if m.supersedes.Some? {
        return Err("schema-137 dry-run manifest cannot supersede another manifest");
      }
      var same := CheckSnapshot(m, cells);
      if !same {
        return Err("manifest does not match the current raw snapshot");
      }
      var resolved := ResolvedKeys(m.cells);
      RootFillsDecide(State(), m);
      return Ok(|resolved|);
    }

    /** A new execution or event row, as the pair guard lets it in. */
    method InsertRow(row: RowKey, pairs: map<Column, Pair>) returns (inserted: bool)
      modifies this`cells
      ensures inserted <==> CanInsert(old(State()), row, pairs)
      ensures inserted ==> State() == Inserted(old(State()), row, pairs)
      ensures inserted ==> forall k :: k in cells <==> k in old(cells) || (k.row == row && k.column in pairs)
      ensures inserted ==> forall k :: k in cells ==> cells[k] == if k in old(cells) then old(cells)[k] else pairs[k.column]
      ensures forall chain :: inserted && Integrity(old(State())) && VerifiedAlong(old(State()), chain) ==>
                (VerifiedAlong(State(), chain)
                 <==> HarmlessInsert(old(State()), row, pairs, Baseline(old(State()).manifests, chain)))
      ensures !inserted ==> State() == old(State())
    {
      var s := Store(cells, tombstones, manifests, expand, clock);
      inserted := CanInsert(s, row, pairs);
      if inserted {
        InsertedVerifies(s, row, pairs);
        hide Integrity, VerifiedAlong, CanInsert, HarmlessInsert, Baseline, RowCells;
        cells := cells + RowCells(row, pairs);
      }
    }

    /** The status writers: `updated_at` always, `started_at` and `completed_at` once. A trigger that raises
        leaves the row as it was. */
    method Touch(row: RowKey, at: Instant, start: bool, complete: bool) returns (ok: bool)
      requires row.table == Execution && RowKeys(row) <= cells.Keys && CellKey(row, UpdatedAt) in cells
      requires CellKey(row, StartedAt) in cells && CellKey(row, CompletedAt) in cells
      modifies this`cells
      ensures ok <==> !HalfThere(old(cells)[CellKey(row, UpdatedAt)], at)
                      && (start ==> !Stray(old(cells)[CellKey(row, StartedAt)]))
                      && (complete ==> !Stray(old(cells)[CellKey(row, CompletedAt)]))
      ensures ok ==> CanRewrite(old(State()), TouchDelta(old(State()), row, at, start, complete))
                     && State() == Rewritten(old(State()), TouchDelta(old(State()), row, at, start, complete))
      ensures ok ==> cells.Keys == old(cells).Keys
      ensures ok ==> forall k :: k in cells ==> cells[k] == Touched(k, old(cells)[k], row, at, start, complete)
      ensures !ok ==> State() == old(State())
    {
      var s := Store(cells, tombstones, manifests, expand, clock);
      TouchRefused(s, row, at, start, complete);
      TouchShows(s, row, at, start, complete);
      hide CanRewrite, RowKeys, TouchDelta, HalfThere, Stray;
      ok := CanRewrite(s, TouchDelta(s, row, at, start, complete));
      if ok {
        cells := cells + TouchDelta(s, row, at, start, complete);
      }
    }

    /** Organization retention deleting one row: its cells move, as they last were, into tombstones, and whatever
        verified goes on verifying. */
    method DeleteRow(row: RowKey, operation: Id, at: Instant) returns (deleted: bool)
      requires WholeRows(cells.Keys)
      modifies this`cells, this`tombstones, this`clock
      ensures deleted <==> CanDelete(old(State()), row, operation)
      ensures deleted ==> State() == Deleted(old(State()), row, operation, at)
      ensures deleted ==> forall k :: k in cells <==> k in old(cells) && k !in RowKeys(row)
      ensures deleted ==> forall k :: k in cells ==> cells[k] == old(cells)[k]
      ensures deleted ==> forall k :: k in tombstones <==> k in old(tombstones) || k in RowKeys(row)
      ensures deleted ==> forall k :: k in RowKeys(row) ==>
                k in old(cells) && k !in old(tombstones)
                && tombstones[k] == Tombstone(LiveView(old(cells), k), operation, RETENTION, at)
      ensures deleted ==> forall k :: k in old(tombstones) ==> tombstones[k] == old(tombstones)[k]
      ensures cells.Keys + tombstones.Keys == old(cells.Keys + tombstones.Keys)
      ensures Integrity(old(State())) ==> Integrity(State())
      ensures forall chain :: Integrity(old(State())) && VerifiedAlong(old(State()), chain) ==> VerifiedAlong(State(), chain)
      ensures !deleted ==> State() == old(State())
    {
      var s := Store(cells, tombstones, manifests, expand, clock);
      deleted := CanDelete(s, row, operation);
      if deleted {
        DeletedPointwise(s, row, operation, at);
        DeletedVerifies(s, row, operation, at);
        hide RowTombstones, Integrity, VerifiedAlong, CanDelete, WholeRows, LiveView, RowKeys;
        tombstones := tombstones + RowTombstones(s, row, operation, at);
        cells := cells - RowKeys(row);
        clock := at;
      }
    }

    /** Walks the whole chain re-validating every document and link. */
    method CheckChain(tip: Id) returns (r: Result<set<Id>>, root: Manifest, ghost chain: seq<Id>)
      requires Keyed(manifests) && Shaped(manifests) && tip in manifests
      ensures r.Ok? ==> SoundChain(manifests, chain) && chain[0] == tip && (forall i :: i in r.value <==> i in chain)
      ensures r.Ok? ==> root == RootDocument(State(), chain)
      ensures r.Err? ==> forall c :: SoundChain(manifests, c) ==> c[0] != tip
    {
      StartOfPath(manifests, tip);
      hide ValidDocument, ValidSupersession, Keyed, SoundPath, SoundChain, Path, IsChain;
      var current := tip;
      var seen: set<Id> := {};
      var child: Option<Manifest> := None;
      root := manifests[tip].doc;
      chain := [];
      while true
        invariant (forall i :: i in seen <==> i in chain) && seen <= manifests.Keys
        invariant (chain + [current])[0] == tip
        invariant Path(manifests, chain, current)
        invariant SoundPath(manifests, chain)
        invariant child == if chain == [] then None else Some(manifests[chain[|chain| - 1]].doc)
        decreases manifests.Keys - seen
      {
        if current in seen || current !in manifests || manifests[current].state != Verified {
          NoSoundThrough(manifests, chain, current);
          return Err("manifest chain contains a cycle or a non-VERIFIED row"), root, chain;
        }
        var m := manifests[current].doc;
        if !ValidDocument(m) || (child.Some? && !ValidSupersession(m, child.value)) {
          NoSoundChain(manifests, chain, current);
          return Err("invalid manifest or supersession"), root, chain;
        }
        SoundPathExtends(manifests, chain, current);
        if m.supersedes.None? {
          PathEnds(manifests, chain, current);
          chain := chain + [current];
          SoundEnd(manifests, chain);
          return Ok(seen + {current}), m, chain;
        }
        PathExtends(manifests, chain, current, m.supersedes.value);
        seen, chain, current, child := seen + {current}, chain + [current], m.supersedes.value, Some(m);
      }
    }

    /** The startup check of a store migrated with history. */
    method CheckReadiness() returns (r: Result<Report>)
      requires Keyed(manifests) && Shaped(manifests)
      ensures r.Ok? <==> exists chain :: Listens(State(), chain)
    {
      hide Keyed, Shaped, SoundChain, MatchesExpand, VerifiesAt, ValidDocument, Incomplete, IsTip, Accounts, RowsAddUp,
           Integrity, VerifiedIds;
      if !ValidExpand(expand) || expand.kind != ManifestRequired {
        NothingListens(State());
        return Err("the expand state does not require a manifest");
      }
      var tip := UniqueTip();
      if tip.Err? || tip.value.None? {
        NothingListens(State());
        return Err("exactly one verified manifest tip is required");
      }
      assert tip.value.value in Tips(manifests);
      var seen, root, chain := CheckChain(tip.value.value);
      if seen.Err? {
        return Err(seen.message);
      }
      ListensBy(State(), seen.value, chain);
      hide Listens, Tips, RootDocument;
      if |VerifiedIds(manifests)| != |seen.value| {
        return Err("the manifest chain does not include all VERIFIED rows");
      }
      if !MatchesExpand(root, expand) {
        return Err("the root manifest differs from the expand transition");
      }
      r := Verify(tip.value.value);
    }
  }
}

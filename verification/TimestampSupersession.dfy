/** Applying a superseding manifest: the chain grows by one link, older promotions are kept, and the
    preflight decides the verification that follows. */
module TimestampSupersession {
  import opened Wrappers
  import opened TimestampManifest
  import opened TimestampVerification
  import opened TimestampApply

  predicate Promoted(p: CellDecision, q: CellDecision) {
    p.decision == Unresolved && Resolved(q)
  }

  /** A live cell that verified under its old decision verifies under the new one once filled. */
  lemma LiveCellCarries(p: CellDecision, q: CellDecision, v: Pair, baseline: Instant)
    requires p.key == q.key && ValidDecision(p) && ValidDecision(q) && ValidSupersededCell(p, q)
    requires VerifyHistorical(p, v, baseline).Ok?
    ensures var filled := if Promoted(p, q) && v.raw == q.raw then Pair(v.raw, q.converted) else v;
            VerifyHistorical(q, filled, baseline).Ok?
  {
    HistoricalCharacterized(p, v, baseline);
    HistoricalCharacterized(q, if Promoted(p, q) && v.raw == q.raw then Pair(v.raw, q.converted) else v, baseline);
    hide VerifyHistorical, ConvertWallClock;
  }

  /** A deleted cell keeps verifying; one promoted after its deletion does so exactly when the deletion
      came strictly before the promotion. */
  lemma DeletedCellCarries(p: CellDecision, q: CellDecision, t: Tombstone, baseline: Instant,
                           before: Option<Instant>, after: Option<Instant>)
    requires p.key == q.key && ValidDecision(p) && ValidDecision(q) && ValidSupersededCell(p, q)
    requires VerifyDeleted(p, t, baseline, before).Ok?
    requires if Promoted(p, q) then after.Some? && t.view.pair == Pair(p.raw, None) else after == before
    ensures VerifyDeleted(q, t, baseline, after).Ok? <==> (Promoted(p, q) ==> t.deletedAt < after.value)
  {
    HistoricalCharacterized(p, t.view.pair, baseline);
    HistoricalCharacterized(q, t.view.pair, baseline);
    hide VerifyHistorical, ConvertWallClock;
  }

  // ---------------------------------------------------------------- the longer chain

  function WithRecord(ms: map<Id, Record>, r: Record): map<Id, Record> {
    ms[r.doc.id := r]
  }

  ghost predicate Extends(ms: map<Id, Record>, chain: seq<Id>, r: Record) {
    && Keyed(ms) && IsChain(ms, chain)
    && r.doc.id !in ms && DistinctKeys(r.doc.cells)
    && r.doc.supersedes == Some(chain[0])
    && r.state == Verified && r.verifiedAt.Some? && r.appliedAt.Some?
  }

  lemma LongerChain(ms: map<Id, Record>, chain: seq<Id>, r: Record)
    requires Extends(ms, chain, r)
    ensures Keyed(WithRecord(ms, r)) && IsChain(WithRecord(ms, r), [r.doc.id] + chain)
    ensures Baseline(WithRecord(ms, r), [r.doc.id] + chain) == Baseline(ms, chain)
  {
    hide DistinctKeys;
    var longer := [r.doc.id] + chain;
    forall i: nat | i < |longer|
      ensures Standing(WithRecord(ms, r), longer[i])
      ensures WithRecord(ms, r)[longer[i]].doc.supersedes == NextOf(longer, i)
    {
      if i > 0 {
        assert longer[i] == chain[i - 1] && NextOf(longer, i) == NextOf(chain, i - 1);
      }
    }
  }

  lemma PlusAssociates(a: map<CellKey, Instant>, b: map<CellKey, Instant>, c: map<CellKey, Instant>)
    ensures (a + b) + c == a + (b + c)
  {
  }

  lemma {:induction false} LongerPromotions(ms: map<Id, Record>, chain: seq<Id>, r: Record, n: nat)
    requires Extends(ms, chain, r) && n < |chain|
    requires Keyed(WithRecord(ms, r)) && IsChain(WithRecord(ms, r), [r.doc.id] + chain)
    ensures Promotions(WithRecord(ms, r), [r.doc.id] + chain, n + 1)
            == LinkMap(ms[chain[0]], r) + Promotions(ms, chain, n)
  {
    hide DistinctKeys, LinkMap;
    var longer := [r.doc.id] + chain;
    var ms' := WithRecord(ms, r);
    if n == 0 {
      assert Promotions(ms', longer, 0) == map[];
      assert longer[1] == chain[0] && ms'[chain[0]] == ms[chain[0]];
      assert Promotions(ms', longer, 1) == map[] + LinkMap(ms[chain[0]], r);
    } else {
      LongerPromotions(ms, chain, r, n - 1);
      assert longer[n + 1] == chain[n] && longer[n] == chain[n - 1];
      assert Standing(ms, chain[n]) && Standing(ms, chain[n - 1]);
      var link := LinkMap(ms[chain[n]], ms[chain[n - 1]]);
      assert Promotions(ms', longer, n + 1) == Promotions(ms', longer, n) + link;
      PlusAssociates(LinkMap(ms[chain[0]], r), Promotions(ms, chain, n - 1), link);
    }
  }

  ghost predicate ResolvedIn(m: Manifest, k: CellKey)
    requires DistinctKeys(m.cells)
  {
    k in KeysOf(m.cells) && Resolved(CellMap(m.cells)[k])
  }

  lemma ResolvedSurvives(previous: Manifest, next: Manifest, k: CellKey)
    requires DistinctKeys(previous.cells) && ValidSupersession(previous, next) && ResolvedIn(previous, k)
    ensures ResolvedIn(next, k)
  {
    assert DistinctKeys(next.cells);
    hide ValidDocument, DistinctKeys;
    assert ValidSupersededCell(CellMap(previous.cells)[k], CellMap(next.cells)[k]);
  }

  /** Once resolved, resolved in every later manifest. */
  lemma {:induction false} ResolvedAtTip(ms: map<Id, Record>, chain: seq<Id>, i: nat, k: CellKey)
    requires Lineage(ms, chain) && i < |chain| && ResolvedIn(ms[chain[i]].doc, k)
    ensures ResolvedIn(ms[chain[0]].doc, k)
  {
    hide ValidDocument, DistinctKeys, ValidSupersession, ResolvedIn, IsChain;
    if i > 0 {
      assert Succeeds(ms, chain, i - 1);
      ResolvedSurvives(ms[chain[i]].doc, ms[chain[i - 1]].doc, k);
      ResolvedAtTip(ms, chain, i - 1, k);
    }
  }

  lemma PromotesResolved(previous: Manifest, next: Manifest, k: CellKey)
    requires DistinctKeys(previous.cells) && DistinctKeys(next.cells) && k in PromotedBy(previous, next)
    ensures ResolvedIn(next, k) && k in KeysOf(previous.cells) && !ResolvedIn(previous, k)
  {
    hide DistinctKeys, KeysOf;
  }

  lemma PromotionsNone(ms: map<Id, Record>, chain: seq<Id>)
    requires Keyed(ms) && IsChain(ms, chain)
    ensures Promotions(ms, chain, 0) == map[]
  {
  }

  lemma PromotionsLast(ms: map<Id, Record>, chain: seq<Id>, n: nat, k: CellKey)
    requires Keyed(ms) && IsChain(ms, chain) && 0 < n < |chain| && k in Promotions(ms, chain, n)
    ensures Standing(ms, chain[n]) && Standing(ms, chain[n - 1])
    ensures k in Promotions(ms, chain, n - 1) || k in PromotedBy(ms[chain[n]].doc, ms[chain[n - 1]].doc)
  {
    hide DistinctKeys, PromotedBy;
    assert Standing(ms, chain[n]) && Standing(ms, chain[n - 1]);
  }

  lemma LineageKeys(ms: map<Id, Record>, chain: seq<Id>, i: nat)
    requires Lineage(ms, chain) && i < |chain|
    ensures Keyed(ms) && IsChain(ms, chain) && chain[i] in ms && DistinctKeys(ms[chain[i]].doc.cells)
  {
    hide ValidDocument, DistinctKeys, ValidSupersession, IsChain;
  }

  lemma {:induction false} PromotedIsResolved(ms: map<Id, Record>, chain: seq<Id>, n: nat, k: CellKey)
    requires Lineage(ms, chain) && n < |chain| && k in Promotions(ms, chain, n)
    ensures ResolvedIn(ms[chain[0]].doc, k)
  {
    hide *;
    LineageKeys(ms, chain, 0);
    if n == 0 {
      PromotionsNone(ms, chain);
    } else {
      LineageKeys(ms, chain, n);
      LineageKeys(ms, chain, n - 1);
      PromotionsLast(ms, chain, n, k);
      if k in Promotions(ms, chain, n - 1) {
        PromotedIsResolved(ms, chain, n - 1, k);
      } else {
        PromotesResolved(ms[chain[n]].doc, ms[chain[n - 1]].doc, k);
        ResolvedAtTip(ms, chain, n - 1, k);
      }
    }
  }

  /** A link below the tip promotes nothing that the tip's successor promotes. */
  lemma OlderLinkDisjoint(ms: map<Id, Record>, chain: seq<Id>, m: Manifest, i: nat)
    requires Lineage(ms, chain) && i + 1 < |chain| && DistinctKeys(m.cells)
    ensures PromotedBy(ms[chain[i + 1]].doc, ms[chain[i]].doc) !! PromotedBy(ms[chain[0]].doc, m)
  {
    LineageKeys(ms, chain, i);
    LineageKeys(ms, chain, i + 1);
    LineageKeys(ms, chain, 0);
    hide *;
    forall k | k in PromotedBy(ms[chain[i + 1]].doc, ms[chain[i]].doc)
      ensures k !in PromotedBy(ms[chain[0]].doc, m)
    {
      PromotesResolved(ms[chain[i + 1]].doc, ms[chain[i]].doc, k);
      ResolvedAtTip(ms, chain, i, k);
      ResolvedNotPromoted(ms[chain[0]].doc, m, k);
    }
  }

  lemma ResolvedNotPromoted(previous: Manifest, next: Manifest, k: CellKey)
    requires DistinctKeys(previous.cells) && DistinctKeys(next.cells) && ResolvedIn(previous, k)
    ensures k !in PromotedBy(previous, next)
  {
    hide DistinctKeys, KeysOf;
  }

  lemma LongerPromotes(ms: map<Id, Record>, chain: seq<Id>, r: Record)
    requires Extends(ms, chain, r) && Lineage(ms, chain) && ChainPromotes(ms, chain)
    requires KeysOf(r.doc.cells) <= KeysOf(ms[chain[0]].doc.cells)
    requires Keyed(WithRecord(ms, r)) && IsChain(WithRecord(ms, r), [r.doc.id] + chain)
    ensures ChainPromotes(WithRecord(ms, r), [r.doc.id] + chain)
  {
    hide Lineage, DistinctKeys;
    var longer := [r.doc.id] + chain;
    var ms' := WithRecord(ms, r);
    forall i: nat | i + 1 < |longer|
      ensures LinkPromotes(ms', longer, i)
    {
      if i == 0 {
        assert longer[1] == chain[0] && Standing(ms, chain[0]);
      } else {
        OlderLinkPromotes(ms, chain, r, i - 1);
      }
    }
  }

  lemma OlderLinkPromotes(ms: map<Id, Record>, chain: seq<Id>, r: Record, i: nat)
    requires Extends(ms, chain, r) && Lineage(ms, chain) && ChainPromotes(ms, chain) && i + 1 < |chain|
    requires Keyed(WithRecord(ms, r)) && IsChain(WithRecord(ms, r), [r.doc.id] + chain)
    ensures LinkPromotes(WithRecord(ms, r), [r.doc.id] + chain, i + 1)
  {
    hide Lineage, DistinctKeys, PromotedBy, Promotions;
    var longer := [r.doc.id] + chain;
    assert LinkPromotes(ms, chain, i);
    assert Standing(ms, chain[i]) && Standing(ms, chain[i + 1]);
    OlderLinkDisjoint(ms, chain, r.doc, i);
    LongerPromotions(ms, chain, r, i);
    assert longer[i + 1] == chain[i] && longer[i + 2] == chain[i + 1];
    assert LinkMap(ms[chain[0]], r).Keys == PromotedBy(ms[chain[0]].doc, r.doc);
  }

  // ---------------------------------------------------------------- the closing verification

  lemma NextCell(s: Store, after: Store, p: CellDecision, q: CellDecision, baseline: Instant, t1: Instant,
                 before: Option<Instant>)
    requires p.key == q.key && ValidDecision(p) && ValidDecision(q) && ValidSupersededCell(p, q)
    requires CellVerified(s, p, baseline, before) && s.cells.Keys !! s.tombstones.Keys
    requires Promoted(p, q) ==> Promotable(s, p, p.key)
    requires after.tombstones == s.tombstones && (p.key in after.cells <==> p.key in s.cells)
    requires p.key in s.cells ==>
               after.cells[p.key] == if Promoted(p, q) && s.cells[p.key].raw == q.raw
                                     then Pair(s.cells[p.key].raw, q.converted) else s.cells[p.key]
    ensures CellVerified(after, q, baseline, if Promoted(p, q) then Some(t1) else before)
            <==> (Promoted(p, q) && p.key in s.tombstones ==> s.tombstones[p.key].deletedAt < t1)
  {
    if p.key in s.cells {
      LiveCellCarries(p, q, s.cells[p.key], baseline);
    } else {
      DeletedCellCarries(p, q, s.tombstones[p.key], baseline, before, if Promoted(p, q) then Some(t1) else before);
    }
    hide VerifyHistorical, VerifyDeleted, ValidDecision, ValidSupersededCell;
  }

  ghost predicate DeletionsPrecede(s: Store, previous: Manifest, m: Manifest, t1: Instant)
    requires DistinctKeys(previous.cells) && DistinctKeys(m.cells)
  {
    forall k :: k in PromotedBy(previous, m) && k in s.tombstones ==> s.tombstones[k].deletedAt < t1
  }

  lemma NextLater(s: Store, m: Manifest, fill: set<CellKey>, baseline: Instant, after: Store)
    requires DistinctKeys(m.cells) && WholeRows(KeysOf(m.cells)) && fill <= KeysOf(m.cells)
    requires forall k :: k in s.cells ==> ValidKey(k)
    requires after.cells == Filled(s.cells, m, fill) && after.tombstones == s.tombstones
    requires LaterCellsVerified(s, KeysOf(m.cells), baseline)
    ensures LaterCellsVerified(after, KeysOf(m.cells), baseline)
  {
    forall k | k in after.cells && k !in KeysOf(m.cells)
      ensures LiveView(after.cells, k) == LiveView(s.cells, k)
    {
      if CellKey(k.row, CreatedAt) in KeysOf(m.cells) {
        RowInside(KeysOf(m.cells), k);
      }
    }
  }

  /** The store and its chain before a superseding apply, and what preflight established. */
  ghost predicate ReadyForNext(s: Store, chain: seq<Id>, m: Manifest) {
    && Integrity(s) && chain != [] && Lineage(s.manifests, chain)
    && m.id !in s.manifests && ValidDocument(m)
    && PreflightNext(s, m, chain[0])
  }

  lemma NextPromotion(s: Store, chain: seq<Id>, m: Manifest, t1: Instant, t2: Instant, k: CellKey)
    requires Keyed(s.manifests) && chain != [] && Lineage(s.manifests, chain) && DistinctKeys(m.cells)
    ensures var promoted := LinkMap(s.manifests[chain[0]], Record(m, Verified, Some(t1), Some(t2)))
                            + AllPromotions(s.manifests, chain);
            Lookup(promoted, k) == if k in PromotedBy(s.manifests[chain[0]].doc, m) then Some(t1)
                                   else Lookup(AllPromotions(s.manifests, chain), k)
  {
    hide *;
    LineageKeys(s.manifests, chain, 0);
    var r := Record(m, Verified, Some(t1), Some(t2));
    LinkLooksUp(s.manifests[chain[0]], r, AllPromotions(s.manifests, chain), k);
    if k in AllPromotions(s.manifests, chain) {
      AllAreResolved(s.manifests, chain, k);
      ResolvedNotPromoted(s.manifests[chain[0]].doc, m, k);
    }
  }

  lemma AllAreResolved(ms: map<Id, Record>, chain: seq<Id>, k: CellKey)
    requires Keyed(ms) && IsChain(ms, chain) && chain != [] && Lineage(ms, chain) && k in AllPromotions(ms, chain)
    ensures ResolvedIn(ms[chain[0]].doc, k)
  {
    hide Keyed, IsChain, Lineage, Promotions, ResolvedIn;
    PromotedIsResolved(ms, chain, |chain| - 1, k);
  }

  lemma LinkLooksUp(parent: Record, child: Record, older: map<CellKey, Instant>, k: CellKey)
    requires DistinctKeys(parent.doc.cells) && DistinctKeys(child.doc.cells) && child.appliedAt.Some?
    ensures Lookup(LinkMap(parent, child) + older, k) ==
            if k in older then Some(older[k])
            else if k in PromotedBy(parent.doc, child.doc) then Some(child.appliedAt.value) else None
    ensures Lookup(older, k) == if k in older then Some(older[k]) else None
  {
    hide DistinctKeys, PromotedBy;
  }

  lemma NextCells(s: Store, chain: seq<Id>, m: Manifest, t1: Instant, t2: Instant)
    requires ReadyForNext(s, chain, m) && VerifiedAlong(s, chain)
    requires ValidDocument(s.manifests[chain[0]].doc) && ValidSupersession(s.manifests[chain[0]].doc, m)
    ensures var previous := s.manifests[chain[0]];
            var promoted := LinkMap(previous, Record(m, Verified, Some(t1), Some(t2))) + AllPromotions(s.manifests, chain);
            CellsVerified(AfterApply(s, m, t1, t2), m, Baseline(s.manifests, chain), promoted)
            <==> DeletionsPrecede(s, previous.doc, m, t1)
  {
    var previous := s.manifests[chain[0]].doc;
    var after := AfterApply(s, m, t1, t2);
    var b := Baseline(s.manifests, chain);
    var promoted := LinkMap(s.manifests[chain[0]], Record(m, Verified, Some(t1), Some(t2))) + AllPromotions(s.manifests, chain);
    NextLater(s, m, FillSet(s, m), b, after);
    forall q | q in m.cells
      ensures q.key in KeysOf(previous.cells)
      ensures CellVerified(after, q, b, Lookup(promoted, q.key)) <==>
              (q.key in PromotedBy(previous, m) && q.key in s.tombstones ==> s.tombstones[q.key].deletedAt < t1)
    {
      NextCellOf(s, chain, m, t1, t2, q);
    }
    hide ValidDocument, ValidSupersession, ReadyForNext, VerifiedAlong, AllPromotions, CellVerified, LinkMap, AfterApply,
         LaterCellsVerified, KeysOf;
    forall k | k in PromotedBy(previous, m)
      ensures CellMap(m.cells)[k] in m.cells && CellMap(m.cells)[k].key == k
    {
    }
    hide PromotedBy;
  }

  lemma NextCellOf(s: Store, chain: seq<Id>, m: Manifest, t1: Instant, t2: Instant, q: CellDecision)
    requires ReadyForNext(s, chain, m) && VerifiedAlong(s, chain) && q in m.cells
    requires ValidDocument(s.manifests[chain[0]].doc) && ValidSupersession(s.manifests[chain[0]].doc, m)
    ensures var previous := s.manifests[chain[0]];
            var promoted := LinkMap(previous, Record(m, Verified, Some(t1), Some(t2))) + AllPromotions(s.manifests, chain);
            q.key in KeysOf(previous.doc.cells)
            && (CellVerified(AfterApply(s, m, t1, t2), q, Baseline(s.manifests, chain), Lookup(promoted, q.key)) <==>
                (q.key in PromotedBy(previous.doc, m) && q.key in s.tombstones ==> s.tombstones[q.key].deletedAt < t1))
  {
    var previous := s.manifests[chain[0]].doc;
    SupersededCell(previous, m, q);
    var p := CellMap(previous.cells)[q.key];
    assert CellVerified(s, p, Baseline(s.manifests, chain), Lookup(AllPromotions(s.manifests, chain), q.key));
    assert q.key in PromotedBy(previous, m) ==> Promotable(s, p, q.key);
    NextPair(s, m, t1, t2, q);
    hide ReadyForNext, VerifiedAlong, AfterApply, LinkMap, CellVerified, Promotable, ValidDocument, ValidSupersession, ValidDecision,
         ValidSupersededCell, PromotedBy, AllPromotions, Promoted, KeysOf;
    NextPromotion(s, chain, m, t1, t2, q.key);
    NextCell(s, AfterApply(s, m, t1, t2), p, q, Baseline(s.manifests, chain), t1,
             Lookup(AllPromotions(s.manifests, chain), q.key));
  }

  /** A cell of a superseding manifest and the one it replaces. */
  lemma SupersededCell(previous: Manifest, m: Manifest, q: CellDecision)
    requires ValidDocument(previous) && ValidDocument(m) && ValidSupersession(previous, m) && q in m.cells
    ensures DistinctKeys(previous.cells) && DistinctKeys(m.cells)
    ensures q.key in KeysOf(m.cells) && q.key in KeysOf(previous.cells) && CellMap(m.cells)[q.key] == q
    ensures var p := CellMap(previous.cells)[q.key];
            p in previous.cells && p.key == q.key && ValidSupersededCell(p, q) && ValidDecision(p) && ValidDecision(q)
            && (Promoted(p, q) <==> q.key in PromotedBy(previous, m))
  {
    hide ValidSupersededCell, ValidDecision, DistinctKeys, ValidHeader, Populated, WholeRows, RowIds, Resolved;
  }

  /** What the apply makes of one live cell. */
  lemma NextPair(s: Store, m: Manifest, t1: Instant, t2: Instant, q: CellDecision)
    requires Keyed(s.manifests) && DistinctKeys(m.cells) && q in m.cells && m.supersedes.Some? && m.supersedes.value in s.manifests
    ensures var previous, after := s.manifests[m.supersedes.value].doc, AfterApply(s, m, t1, t2);
            && after.tombstones == s.tombstones && (q.key in after.cells <==> q.key in s.cells)
            && (q.key in s.cells ==>
                  after.cells[q.key] == if q.key in PromotedBy(previous, m) && s.cells[q.key].raw == q.raw
                                        then Pair(s.cells[q.key].raw, q.converted) else s.cells[q.key])
  {
    assert q.key in KeysOf(m.cells) && CellMap(m.cells)[q.key] == q;
    hide Keyed, DistinctKeys, PromotedBy, KeysOf;
  }

  lemma NextGrounded(s: Store, chain: seq<Id>, m: Manifest, t1: Instant, t2: Instant)
    requires Integrity(s) && chain != [] && Lineage(s.manifests, chain) && Grounded(s, chain)
    requires m.id !in s.manifests && ValidDocument(m) && DistinctKeys(m.cells) && m.supersedes == Some(chain[0])
    requires KeysOf(m.cells) <= KeysOf(s.manifests[chain[0]].doc.cells)
    ensures Grounded(AfterApply(s, m, t1, t2), [m.id] + chain)
    ensures AllPromotions(AfterApply(s, m, t1, t2).manifests, [m.id] + chain)
            == LinkMap(s.manifests[chain[0]], Record(m, Verified, Some(t1), Some(t2))) + AllPromotions(s.manifests, chain)
    ensures Baseline(AfterApply(s, m, t1, t2).manifests, [m.id] + chain) == Baseline(s.manifests, chain)
  {
    hide ValidDocument, DistinctKeys, ValidTombstones, Lineage, ChainPromotes, WholeRows, FilledCell, FillSet, LinkMap, ValidKey;
    var r := Record(m, Verified, Some(t1), Some(t2));
    LongerChain(s.manifests, chain, r);
    LongerPromotes(s.manifests, chain, r);
    LongerPromotions(s.manifests, chain, r, |chain| - 1);
    assert AfterApply(s, m, t1, t2).manifests == WithRecord(s.manifests, r);
    assert AfterApply(s, m, t1, t2).cells.Keys == s.cells.Keys;
  }

  /** After the preflight of a superseding manifest, the closing verification fails exactly when some
      promoted cell was deleted no earlier than the promotion is applied. */
  lemma NextVerifies(s: Store, chain: seq<Id>, m: Manifest, t1: Instant, t2: Instant)
    requires ReadyForNext(s, chain, m)
    ensures VerifiesAt(AfterApply(s, m, t1, t2), m.id) <==> DeletionsPrecede(s, s.manifests[chain[0]].doc, m, t1)
  {
    VerifiedBefore(s, chain, m);
    hide CellsVerified;
    NextCells(s, chain, m, t1, t2);
    NextGrounded(s, chain, m, t1, t2);
    TipAfter(s, m, t1, t2);
    hide *;
    GroundedDecides(AfterApply(s, m, t1, t2), [m.id] + chain);
    HeadOf(m.id, chain);
  }

  lemma HeadOf(id: Id, chain: seq<Id>)
    ensures ([id] + chain)[0] == id
  {
  }

  lemma TipAfter(s: Store, m: Manifest, t1: Instant, t2: Instant)
    requires Keyed(s.manifests) && DistinctKeys(m.cells) && m.supersedes.Some? && m.supersedes.value in s.manifests
    ensures m.id in AfterApply(s, m, t1, t2).manifests && AfterApply(s, m, t1, t2).manifests[m.id].doc == m
  {
    hide Keyed, DistinctKeys;
  }

  /** The preflight verified the tip along the one chain below it. */
  lemma VerifiedBefore(s: Store, chain: seq<Id>, m: Manifest)
    requires ReadyForNext(s, chain, m)
    ensures DistinctKeys(m.cells) && ValidSupersession(s.manifests[chain[0]].doc, m) && IsChain(s.manifests, chain)
    ensures VerifiedAlong(s, chain) && ValidDocument(s.manifests[chain[0]].doc)
  {
    assert DistinctKeys(m.cells) && ValidSupersession(s.manifests[chain[0]].doc, m);
    assert IsChain(s.manifests, chain);
    hide ValidDocument, ValidTombstones, CellsVerified, ChainPromotes, ValidSupersession;
    var c :| VerifiedAlong(s, c) && c[0] == chain[0];
    ChainUnique(s.manifests, c, chain);
  }
}

/** Runs of the ledger: every command and every write as a step, the lineage invariant over all runs, and
    readiness that no harmless step can take away. */
module TimestampRuns {
  import opened Wrappers
  import opened TimestampManifest
  import opened TimestampVerification
  import opened TimestampApply
  import opened TimestampSupersession
  import opened TimestampWrites

  datatype Step =
    | Propose(doc: Manifest, approved: bool)
    | Approve(id: Id)
    | Revoke(id: Id)
    | Apply(m: Manifest, t1: Instant, t2: Instant)
    | Insert(row: RowKey, pairs: map<Column, Pair>)
    | Rewrite(delta: map<CellKey, Pair>)
    | Delete(row: RowKey, operation: Id, at: Instant)

  /** A clash on the unique index over superseded manifests, which treats two missing ones as equal. */
  predicate ParentTaken(ms: map<Id, Record>, supersedes: Option<Id>) {
    exists id :: id in ms && Active(ms, id) && ms[id].doc.supersedes == supersedes
  }

  /** What the commands, the constraints and the triggers let happen. A shadow filled on its own needs provenance of the
      filling transaction, so that write comes only inside an apply. */
  ghost predicate Enabled(s: Store, step: Step)
    requires Integrity(s)
  {
    match step
    case Propose(doc, _) =>
      && doc.id != NIL_ID && doc.id !in s.manifests && DistinctKeys(doc.cells)
      && (doc.supersedes.Some? ==> doc.supersedes.value in s.manifests)
      && !ParentTaken(s.manifests, doc.supersedes)
    case Approve(id) => id in s.manifests && s.manifests[id].state == Draft
    case Revoke(id) => id in s.manifests && s.manifests[id].state in {Draft, Approved}
    case Apply(m, t1, t2) => Applicable(s, m, t1, t2) && VerifiesAt(AfterApply(s, m, t1, t2), m.id)
    case Insert(row, pairs) => CanInsert(s, row, pairs)
    case Rewrite(delta) => CanRewrite(s, delta)
    case Delete(row, operation, at) => CanDelete(s, row, operation) && s.clock <= at
  }

  /** A new and valid document that passes its preflight. */
  ghost predicate Admitted(s: Store, m: Manifest)
    requires Integrity(s)
  {
    ValidDocument(m) && m.id !in s.manifests && Preflight(s, m)
  }

  /** An apply that reaches its closing verification. */
  ghost predicate Applicable(s: Store, m: Manifest, t1: Instant, t2: Instant)
    requires Integrity(s)
  {
    Admitted(s, m) && s.clock <= t1 <= t2 && m.approvedAt <= t1
  }

  lemma ApplicableIsAdmitted(s: Store, m: Manifest, t1: Instant, t2: Instant)
    requires Integrity(s) && Applicable(s, m, t1, t2)
    ensures Admitted(s, m)
  {
    hide Integrity, Admitted;
  }

  ghost function Next(s: Store, step: Step): Store
    requires Integrity(s) && Enabled(s, step)
  {
    match step
    case Propose(doc, approved) =>
      s.(manifests := s.manifests[doc.id := Record(doc, if approved then Approved else Draft, None, None)])
    case Approve(id) => s.(manifests := s.manifests[id := s.manifests[id].(state := Approved)])
    case Revoke(id) => s.(manifests := s.manifests[id := s.manifests[id].(state := RevokedBeforeApply)])
    case Apply(m, t1, t2) => AfterApply(s, m, t1, t2)
    case Insert(row, pairs) => Inserted(s, row, pairs)
    case Rewrite(delta) => Rewritten(s, delta)
    case Delete(row, operation, at) => Deleted(s, row, operation, at)
  }

  function NextChain(step: Step, chain: seq<Id>): seq<Id> {
    if step.Apply? then [step.m.id] + chain else chain
  }

  // ---------------------------------------------------------------- tips

  /** With nothing incomplete, the only tip is the head of the lineage. */
  lemma LineageTips(ms: map<Id, Record>, chain: seq<Id>)
    requires Lineage(ms, chain) && !Incomplete(ms)
    ensures Tips(ms) == if chain == [] then {} else {chain[0]}
  {
    hide ValidDocument, ValidSupersession, DistinctKeys;
    forall id | id in ms && ms[id].state == Verified && id != chain[0]
      ensures !IsTip(ms, id)
    {
      var i: int :| 0 <= i < |chain| && chain[i] == id;
      assert ms[chain[i - 1]].doc.supersedes == NextOf(chain, i - 1);
      assert Standing(ms, chain[i - 1]);
      assert HasActiveChild(ms, id);
    }
    if chain != [] {
      assert Standing(ms, chain[0]);
      if HasActiveChild(ms, chain[0]) {
        var c :| c in ms && Active(ms, c) && ms[c].doc.supersedes == Some(chain[0]);
        HeadHasNoParentLink(ms, chain, c);
      }
    }
  }

  lemma HeadHasNoParentLink(ms: map<Id, Record>, chain: seq<Id>, c: Id)
    requires IsChain(ms, chain) && c in chain
    ensures ms[c].doc.supersedes != Some(chain[0])
  {
    var i :| 0 <= i < |chain| && chain[i] == c;
    assert ms[chain[i]].doc.supersedes == NextOf(chain, i);
    if i + 1 < |chain| && chain[i + 1] == chain[0] {
      ChainPosition(ms, chain, i + 1, 0);
    }
  }

  /** Preflight pins what an apply supersedes to the head of the lineage. */
  lemma PreflightHead(s: Store, chain: seq<Id>, m: Manifest)
    requires Keyed(s.manifests) && Lineage(s.manifests, chain) && Preflight(s, m)
    ensures if chain == [] then PreflightRoot(s, m)
            else PreflightNext(s, m, chain[0]) && m.supersedes == Some(chain[0])
  {
    hide ValidDocument, ValidSupersession, DistinctKeys, PreflightRoot;
    LineageTips(s.manifests, chain);
  }

  /** The INSERT of an applied manifest cannot hit the unique index. */
  lemma ApplyInsertAllowed(s: Store, chain: seq<Id>, m: Manifest)
    requires Keyed(s.manifests) && Lineage(s.manifests, chain) && Preflight(s, m)
    ensures !ParentTaken(s.manifests, m.supersedes)
  {
    PreflightHead(s, chain, m);
    LineageTips(s.manifests, chain);
    assert m.supersedes == if chain == [] then None else Some(chain[0]);
    hide ValidDocument, ValidSupersession, DistinctKeys, PreflightRoot, PreflightNext;
    if chain != [] {
      assert chain[0] in Tips(s.manifests);
    }
  }

  /** What a clock reading must respect for the closing verification to pass. */
  ghost predicate ClockClear(s: Store, chain: seq<Id>, m: Manifest, t1: Instant, t2: Instant)
    requires DistinctKeys(m.cells) && Keyed(s.manifests) && (chain != [] ==> chain[0] in s.manifests)
  {
    if chain == [] then TombstonesAreLater(s, t2) else DeletionsPrecede(s, s.manifests[chain[0]].doc, m, t1)
  }

  /** Preflight is sufficient: whatever manifest reaches its closing verification passes it exactly when the
      clock is clear of the tombstones, for first and superseding manifests alike. */
  lemma PreflightSufficient(s: Store, chain: seq<Id>, m: Manifest, t1: Instant, t2: Instant)
    requires Integrity(s) && Lineage(s.manifests, chain) && Admitted(s, m)
    ensures VerifiesAt(AfterApply(s, m, t1, t2), m.id) <==> ClockClear(s, chain, m, t1, t2)
  {
    PreflightHead(s, chain, m);
    hide ValidDocument, PreflightRoot, PreflightNext, VerifiesAt, TombstonesAreLater, DeletionsPrecede, Preflight, Integrity,
         Lineage, IsTip;
    if chain == [] {
      RootVerifies(s, m, t1, t2);
    } else {
      NextVerifies(s, chain, m, t1, t2);
    }
  }

  /** In particular: no tombstone before a first manifest, and a clock strictly past every deletion after it. */
  lemma StrictClockSuffices(s: Store, chain: seq<Id>, m: Manifest, t1: Instant, t2: Instant)
    requires Integrity(s) && Lineage(s.manifests, chain) && Admitted(s, m)
    requires if chain == [] then s.tombstones == map[] else forall k :: k in s.tombstones ==> s.tombstones[k].deletedAt < t1
    ensures VerifiesAt(AfterApply(s, m, t1, t2), m.id)
  {
    hide Integrity, Admitted, ValidDocument, VerifiesAt, Preflight, Lineage;
    PreflightSufficient(s, chain, m, t1, t2);
  }

  // ---------------------------------------------------------------- integrity of every step

  lemma FilledIntegrity(s: Store, m: Manifest, t1: Instant, t2: Instant)
    requires Integrity(s) && DistinctKeys(m.cells) && (m.supersedes.Some? ==> m.supersedes.value in s.manifests)
    ensures Integrity(AfterApply(s, m, t1, t2))
  {
    hide ValidTombstones, DistinctKeys, WholeRows, FillSet, ValidKey;
    assert AfterApply(s, m, t1, t2).cells.Keys == s.cells.Keys;
    assert forall k :: k in s.cells.Keys ==> ValidKey(k);
  }

  lemma InsertedIntegrity(s: Store, row: RowKey, pairs: map<Column, Pair>)
    requires Integrity(s) && CanInsert(s, row, pairs)
    ensures Integrity(Inserted(s, row, pairs))
  {
    var after := Inserted(s, row, pairs);
    InsertedCells(s, row, pairs);
    RowKeysMembers(row);
    forall k | k in after.cells.Keys
      ensures RowWhole(after.cells.Keys, k.row) && ValidKey(k)
    {
      if k in s.cells.Keys { assert RowWhole(s.cells.Keys, k.row); }
    }
    hide ValidTombstones, Keyed;
  }

  lemma NextIntegrity(s: Store, step: Step)
    requires Integrity(s) && Enabled(s, step)
    ensures Integrity(Next(s, step))
  {
    match step
    case Insert(row, pairs) => InsertedIntegrity(s, row, pairs);
    case Delete(row, operation, at) => DeletedIntegrity(s, row, operation, at);
    case Apply(m, t1, t2) =>
      assert DistinctKeys(m.cells);
      FilledIntegrity(s, m, t1, t2);
    case Rewrite(delta) =>
      assert Rewritten(s, delta).cells.Keys == s.cells.Keys;
      assert forall k :: k in s.cells.Keys ==> ValidKey(k);
    case _ =>
      hide ValidTombstones, WholeRows;
  }

  // ---------------------------------------------------------------- lineage of every step

  lemma LineageFramed(ms: map<Id, Record>, after: map<Id, Record>, chain: seq<Id>)
    requires Lineage(ms, chain) && Keyed(after)
    requires forall id :: id in chain ==> id in after && after[id] == ms[id]
    requires forall id :: id in after ==> (after[id].state == Verified <==> id in chain) && after[id].state != Applied
    ensures Lineage(after, chain)
  {
    hide ValidDocument, ValidSupersession, DistinctKeys, Keyed;
    if chain != [] {
      forall i: nat | i < |chain|
        ensures Standing(after, chain[i]) && after[chain[i]].doc.supersedes == NextOf(chain, i)
      {
        assert Standing(ms, chain[i]) && chain[i] in chain;
      }
    }
    forall i: nat | i < |chain| - 1
      ensures Succeeds(after, chain, i)
    {
      assert Succeeds(ms, chain, i) && chain[i] in chain && chain[i + 1] in chain;
    }
  }

  lemma LineageExtended(ms: map<Id, Record>, chain: seq<Id>, r: Record)
    requires Lineage(ms, chain) && r.doc.id !in ms && ValidDocument(r.doc) && DistinctKeys(r.doc.cells)
    requires r.state == Verified && r.verifiedAt.Some? && r.appliedAt.Some?
    requires if chain == [] then r.doc.supersedes.None?
             else r.doc.supersedes == Some(chain[0]) && ValidSupersession(ms[chain[0]].doc, r.doc)
    ensures Lineage(WithRecord(ms, r), [r.doc.id] + chain)
  {
    hide ValidDocument, ValidSupersession, DistinctKeys;
    var longer, after := [r.doc.id] + chain, WithRecord(ms, r);
    if chain != [] { LongerChain(ms, chain, r); }
    forall i: nat | i < |longer| - 1
      ensures Succeeds(after, longer, i)
    {
      if i > 0 { assert Succeeds(ms, chain, i - 1) && longer[i] == chain[i - 1] && longer[i + 1] == chain[i]; }
    }
    forall i | 0 <= i < |longer|
      ensures longer[i] in after && after[longer[i]].appliedAt.Some? && ValidDocument(after[longer[i]].doc)
    {
      if i > 0 { assert longer[i] == chain[i - 1]; }
    }
    assert chain == [] ==> IsChain(after, longer);
  }

  lemma ApplyLineage(s: Store, m: Manifest, t1: Instant, t2: Instant, chain: seq<Id>)
    requires Integrity(s) && Applicable(s, m, t1, t2) && Lineage(s.manifests, chain)
    ensures DistinctKeys(m.cells) && (m.supersedes.Some? ==> m.supersedes.value in s.manifests)
    ensures Lineage(AfterApply(s, m, t1, t2).manifests, [m.id] + chain)
  {
    PreflightHead(s, chain, m);
    assert DistinctKeys(m.cells);
    hide ValidDocument, ValidSupersession, DistinctKeys, ValidTombstones, VerifiesAt, MatchesExpand, MatchesSnapshot, NoShadows,
         Filled, FillSet, Promotable;
    LineageExtended(s.manifests, chain, Record(m, Verified, Some(t1), Some(t2)));
  }

  /** No step but an apply touches a VERIFIED manifest. */
  lemma RecordsStay(s: Store, step: Step, chain: seq<Id>)
    requires Integrity(s) && Enabled(s, step) && Lineage(s.manifests, chain) && !step.Apply?
    ensures forall id :: id in chain ==> id in Next(s, step).manifests && Next(s, step).manifests[id] == s.manifests[id]
  {
    hide ValidDocument, ValidSupersession, ValidTombstones, DistinctKeys, WholeRows, IsChain, ParentTaken, CanInsert,
         CanRewrite, CanDelete;
  }

  lemma StatesStay(s: Store, step: Step, chain: seq<Id>)
    requires Integrity(s) && Enabled(s, step) && Lineage(s.manifests, chain) && !step.Apply?
    ensures Keyed(Next(s, step).manifests)
    ensures forall id :: id in Next(s, step).manifests ==>
              (Next(s, step).manifests[id].state == Verified <==> id in chain) && Next(s, step).manifests[id].state != Applied
  {
    hide ValidDocument, ValidSupersession, ValidTombstones, DistinctKeys, WholeRows, IsChain, ParentTaken, CanInsert,
         CanRewrite, CanDelete;
  }

  /** Every step keeps the VERIFIED manifests one chain; only a committed apply lengthens it, at the tip. */
  lemma NextLineage(s: Store, step: Step, chain: seq<Id>)
    requires Integrity(s) && Enabled(s, step) && Lineage(s.manifests, chain)
    ensures Lineage(Next(s, step).manifests, NextChain(step, chain))
  {
    if step.Apply? {
      ApplyStepLineage(s, step, chain);
    } else {
      hide Integrity, Enabled, Next, Lineage;
      RecordsStay(s, step, chain);
      StatesStay(s, step, chain);
      LineageFramed(s.manifests, Next(s, step).manifests, chain);
    }
  }

  lemma ApplyStepLineage(s: Store, step: Step, chain: seq<Id>)
    requires Integrity(s) && Enabled(s, step) && Lineage(s.manifests, chain) && step.Apply?
    ensures Lineage(Next(s, step).manifests, [step.m.id] + chain)
  {
    hide Integrity, Lineage, Applicable, VerifiesAt, AfterApply;
    ApplyLineage(s, step.m, step.t1, step.t2, chain);
  }

  // ---------------------------------------------------------------- readiness

  ghost function TipDocument(s: Store, chain: seq<Id>): Manifest
    requires IsChain(s.manifests, chain)
  {
    assert Standing(s.manifests, chain[0]);
    s.manifests[chain[0]].doc
  }

  ghost function RootDocument(s: Store, chain: seq<Id>): Manifest
    requires IsChain(s.manifests, chain)
  {
    assert Standing(s.manifests, chain[|chain| - 1]);
    s.manifests[chain[|chain| - 1]].doc
  }

  /** The state in which the startup check passes, manifests still being prepared aside. */
  ghost predicate Ready(s: Store, chain: seq<Id>) {
    && Integrity(s) && chain != [] && Lineage(s.manifests, chain)
    && VerifiedAlong(s, chain)
    && MatchesExpand(RootDocument(s, chain), s.expand)
  }

  /** Which writes leave a ready store ready. Commands on manifests always do. */
  ghost predicate Harmless(s: Store, chain: seq<Id>, step: Step)
    requires Integrity(s) && IsChain(s.manifests, chain) && Enabled(s, step)
  {
    match step
    case Insert(row, pairs) => HarmlessInsert(s, row, pairs, Baseline(s.manifests, chain))
    case Rewrite(delta) => HarmlessRewrite(s, TipDocument(s, chain), delta, Baseline(s.manifests, chain))
    case _ => true
  }

  lemma VerifiedFramed(s: Store, after: Store, chain: seq<Id>)
    requires VerifiedAlong(s, chain) && Lineage(s.manifests, chain)
    requires after.cells == s.cells && after.tombstones == s.tombstones
    requires Lineage(after.manifests, chain)
    requires forall id :: id in chain ==> id in after.manifests && after.manifests[id] == s.manifests[id]
    ensures VerifiedAlong(after, chain)
  {
    hide ValidDocument, ValidSupersession, ValidTombstones, DistinctKeys, Keyed, CellsVerified, PromotedBy, Promotions;
    PromotionsFramed(s.manifests, after.manifests, chain, |chain| - 1);
    forall i: nat | i + 1 < |chain|
      ensures LinkPromotes(after.manifests, chain, i)
    {
      assert LinkPromotes(s.manifests, chain, i) && chain[i] in chain && chain[i + 1] in chain;
      PromotionsFramed(s.manifests, after.manifests, chain, i);
    }
    assert chain[0] in chain && chain[|chain| - 1] in chain;
    hide LinkPromotes, VerifyHistorical, VerifyDeleted, VerifyPostBaseline, Lineage;
    assert ChainPromotes(after.manifests, chain);
    assert CellsVerified(after, s.manifests[chain[0]].doc, Baseline(s.manifests, chain), AllPromotions(s.manifests, chain)) by {
      CellsFramed(s, after, s.manifests[chain[0]].doc, Baseline(s.manifests, chain), AllPromotions(s.manifests, chain));
    }
  }

  lemma CellsFramed(s: Store, after: Store, m: Manifest, baseline: Instant, promoted: map<CellKey, Instant>)
    requires after.cells == s.cells && after.tombstones == s.tombstones && CellsVerified(s, m, baseline, promoted)
    ensures CellsVerified(after, m, baseline, promoted)
  {
    hide VerifyHistorical, VerifyDeleted, VerifyPostBaseline, LiveView;
    forall p | p in m.cells
      ensures CellVerified(after, p, baseline, Lookup(promoted, p.key))
    {
      assert CellVerified(s, p, baseline, Lookup(promoted, p.key));
    }
  }

  lemma {:induction false} PromotionsFramed(ms: map<Id, Record>, after: map<Id, Record>, chain: seq<Id>, n: nat)
    requires Lineage(ms, chain) && Lineage(after, chain) && n < |chain|
    requires forall id :: id in chain ==> id in after && after[id] == ms[id]
    ensures Promotions(after, chain, n) == Promotions(ms, chain, n)
  {
    hide ValidDocument, ValidSupersession, DistinctKeys, LinkMap;
    if n > 0 {
      PromotionsFramed(ms, after, chain, n - 1);
      assert chain[n] in chain && chain[n - 1] in chain;
    }
  }

  lemma LineageIsChain(ms: map<Id, Record>, chain: seq<Id>)
    requires Lineage(ms, chain) && chain != []
    ensures IsChain(ms, chain)
  {
  }

  lemma VerifiedOnLineage(s: Store, chain: seq<Id>)
    requires Lineage(s.manifests, chain) && chain != [] && VerifiesAt(s, chain[0])
    ensures VerifiedAlong(s, chain)
  {
    LineageIsChain(s.manifests, chain);
    hide Lineage, CellsVerified, ChainPromotes, ValidDocument, ValidTombstones;
    var c :| VerifiedAlong(s, c) && c[0] == chain[0];
    ChainUnique(s.manifests, c, chain);
  }

  lemma ApplyReady(s: Store, m: Manifest, t1: Instant, t2: Instant, chain: seq<Id>)
    requires Integrity(s) && Applicable(s, m, t1, t2) && Lineage(s.manifests, chain)
    requires VerifiesAt(AfterApply(s, m, t1, t2), m.id)
    requires Lineage(AfterApply(s, m, t1, t2).manifests, [m.id] + chain)
    requires Integrity(AfterApply(s, m, t1, t2))
    requires chain != [] ==> MatchesExpand(RootDocument(s, chain), s.expand)
    ensures Ready(AfterApply(s, m, t1, t2), [m.id] + chain)
  {
    RootMatches(s, chain, m);
    hide MatchesExpand, Preflight, VerifiesAt, Integrity, Lineage, VerifiedAlong, ValidDocument;
    VerifiedOnLineage(AfterApply(s, m, t1, t2), [m.id] + chain);
    RootStays(s, m, t1, t2, chain);
  }

  lemma RootMatches(s: Store, chain: seq<Id>, m: Manifest)
    requires Keyed(s.manifests) && Lineage(s.manifests, chain) && Preflight(s, m)
    ensures chain == [] ==> MatchesExpand(m, s.expand)
  {
    hide Lineage, MatchesExpand, MatchesSnapshot, NoShadows, PreflightNext, Preflight;
    PreflightHead(s, chain, m);
  }

  lemma RootStays(s: Store, m: Manifest, t1: Instant, t2: Instant, chain: seq<Id>)
    requires Keyed(s.manifests) && DistinctKeys(m.cells) && (m.supersedes.Some? ==> m.supersedes.value in s.manifests)
    requires m.id !in s.manifests && Lineage(s.manifests, chain)
    requires Lineage(AfterApply(s, m, t1, t2).manifests, [m.id] + chain)
    ensures IsChain(AfterApply(s, m, t1, t2).manifests, [m.id] + chain) && (chain != [] ==> IsChain(s.manifests, chain))
    ensures RootDocument(AfterApply(s, m, t1, t2), [m.id] + chain) == if chain == [] then m else RootDocument(s, chain)
  {
    var longer := [m.id] + chain;
    LineageIsChain(AfterApply(s, m, t1, t2).manifests, longer);
    if chain != [] {
      LineageIsChain(s.manifests, chain);
      assert longer[|longer| - 1] == chain[|chain| - 1] && Standing(s.manifests, chain[|chain| - 1]);
    }
    hide Lineage, DistinctKeys, Filled;
  }

  lemma WriteReady(s: Store, after: Store, chain: seq<Id>)
    requires Ready(s, chain) && Integrity(after)
    requires after.manifests == s.manifests && after.expand == s.expand
    ensures Ready(after, chain) <==> VerifiedAlong(after, chain)
  {
    hide Lineage, Integrity, VerifiedAlong, MatchesExpand;
    LineageIsChain(s.manifests, chain);
  }

  lemma InsertReady(s: Store, row: RowKey, pairs: map<Column, Pair>, chain: seq<Id>)
    requires Ready(s, chain) && CanInsert(s, row, pairs) && Integrity(Inserted(s, row, pairs))
    ensures Ready(Inserted(s, row, pairs), chain) <==> HarmlessInsert(s, row, pairs, Baseline(s.manifests, chain))
  {
    hide Lineage, Integrity, VerifiedAlong, MatchesExpand, HarmlessInsert, ExactPair;
    WriteReady(s, Inserted(s, row, pairs), chain);
    InsertKeeps(s, chain, row, pairs);
  }

  lemma RewriteReady(s: Store, delta: map<CellKey, Pair>, chain: seq<Id>)
    requires Ready(s, chain) && CanRewrite(s, delta) && Integrity(Rewritten(s, delta))
    ensures Ready(Rewritten(s, delta), chain) <==> HarmlessRewrite(s, TipDocument(s, chain), delta, Baseline(s.manifests, chain))
  {
    hide Lineage, Integrity, VerifiedAlong, MatchesExpand, HarmlessRewrite, CanRewrite;
    WriteReady(s, Rewritten(s, delta), chain);
    RewriteKeeps(s, chain, delta);
  }

  lemma DeleteReady(s: Store, row: RowKey, operation: Id, at: Instant, chain: seq<Id>)
    requires Ready(s, chain) && CanDelete(s, row, operation)
    ensures Ready(Deleted(s, row, operation, at), chain)
  {
    DeletedIntegrity(s, row, operation, at);
    hide Lineage, VerifiedAlong, MatchesExpand, CanDelete, RowTombstones;
    WriteReady(s, Deleted(s, row, operation, at), chain);
    DeleteKeeps(s, chain, row, operation, at);
  }

  lemma StepApplyReady(s: Store, step: Step, chain: seq<Id>)
    requires Ready(s, chain) && Enabled(s, step) && step.Apply?
    requires Integrity(Next(s, step)) && Lineage(Next(s, step).manifests, NextChain(step, chain))
    ensures Ready(Next(s, step), NextChain(step, chain))
  {
    hide Lineage, Integrity, VerifiedAlong, MatchesExpand, Applicable, VerifiesAt, AfterApply;
    ApplyReady(s, step.m, step.t1, step.t2, chain);
  }

  /** A ready store stays ready over exactly the harmless steps. */
  lemma NextReady(s: Store, step: Step, chain: seq<Id>)
    requires Ready(s, chain) && Enabled(s, step)
    ensures Ready(Next(s, step), NextChain(step, chain)) <==> Harmless(s, chain, step)
  {
    NextIntegrity(s, step);
    NextLineage(s, step, chain);
    hide Ready, Lineage, Integrity, HarmlessInsert, HarmlessRewrite, CanInsert, CanRewrite, CanDelete, AfterApply, Inserted,
         Rewritten, Deleted, Applicable, VerifiesAt, IsChain, ParentTaken, DistinctKeys;
    match step
    case Apply(m, t1, t2) => StepApplyReady(s, step, chain);
    case Insert(row, pairs) => InsertReady(s, row, pairs, chain);
    case Rewrite(delta) => RewriteReady(s, delta, chain);
    case Delete(row, operation, at) => DeleteReady(s, row, operation, at, chain);
    case _ => ManifestStepReady(s, step, chain);
  }

  lemma ManifestStepReady(s: Store, step: Step, chain: seq<Id>)
    requires Ready(s, chain) && Enabled(s, step) && (step.Propose? || step.Approve? || step.Revoke?)
    requires Integrity(Next(s, step)) && Lineage(Next(s, step).manifests, chain)
    ensures Ready(Next(s, step), chain)
  {
    RecordsStay(s, step, chain);
    TablesStay(s, step);
    LineageIsChain(Next(s, step).manifests, chain);
    hide Integrity, Enabled, Next, Lineage, VerifiedAlong, MatchesExpand, IsChain;
    VerifiedFramed(s, Next(s, step), chain);
    RootFramed(s, Next(s, step), chain);
  }

  lemma TablesStay(s: Store, step: Step)
    requires Integrity(s) && Enabled(s, step) && (step.Propose? || step.Approve? || step.Revoke?)
    ensures Next(s, step).cells == s.cells && Next(s, step).tombstones == s.tombstones && Next(s, step).expand == s.expand
  {
  }

  lemma RootFramed(s: Store, after: Store, chain: seq<Id>)
    requires IsChain(s.manifests, chain) && IsChain(after.manifests, chain)
    requires forall id :: id in chain ==> id in after.manifests && after.manifests[id] == s.manifests[id]
    ensures RootDocument(after, chain) == RootDocument(s, chain)
  {
    assert chain[|chain| - 1] in chain;
    hide IsChain;
  }

  // ---------------------------------------------------------------- the startup check

  /** The CHECK constraint on a manifest's life cycle that the startup walk leans on. */
  ghost predicate Shaped(ms: map<Id, Record>) {
    forall id :: id in ms && ms[id].state == Verified ==> ms[id].verifiedAt.Some?
  }

  /** What the startup check asks of the chain it walks. */
  ghost predicate SoundChain(ms: map<Id, Record>, chain: seq<Id>) {
    && IsChain(ms, chain)
    && (forall i :: 0 <= i < |chain| ==> ValidDocument(ms[chain[i]].doc))
    && (forall i {:trigger Succeeds(ms, chain, i)} :: 0 <= i < |chain| - 1 ==> Succeeds(ms, chain, i))
  }

  ghost predicate Listens(s: Store, chain: seq<Id>) {
    && !Incomplete(s.manifests)
    && SoundChain(s.manifests, chain) && Tips(s.manifests) == {chain[0]}
    && (forall id :: id in s.manifests && s.manifests[id].state == Verified ==> id in chain)
    && MatchesExpand(RootDocument(s, chain), s.expand)
    && VerifiesAt(s, chain[0])
  }

  /** A ready ledger passes the startup check as soon as nothing is half prepared, and the check proves it ready. */
  lemma ReadyListens(s: Store, chain: seq<Id>)
    requires Integrity(s) && chain != [] && Lineage(s.manifests, chain) && !Incomplete(s.manifests)
    ensures Ready(s, chain) <==> Listens(s, chain)
  {
    LineageTips(s.manifests, chain);
    LineageIsChain(s.manifests, chain);
    assert SoundChain(s.manifests, chain);
    hide ValidDocument, ValidTombstones, CellsVerified, ChainPromotes, Integrity, SoundChain, MatchesExpand, IsTip;
    if VerifiesAt(s, chain[0]) {
      VerifiedOnLineage(s, chain);
    }
  }
}

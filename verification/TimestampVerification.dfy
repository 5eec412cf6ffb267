/** What verification of an applied manifest means: the per-cell rules, the supersession chain,
    deletion tombstones, and the whole-store predicate that the ledger's methods compute. */
module TimestampVerification {
  import opened Wrappers
  import opened TimestampManifest

  const RETENTION := "ORGANIZATION_RETENTION"

  datatype ManifestState = Draft | Approved | Applied | Verified | RevokedBeforeApply

  datatype Record = Record(doc: Manifest, state: ManifestState, appliedAt: Option<Instant>, verifiedAt: Option<Instant>)

  datatype Tombstone = Tombstone(view: View, operation: Id, reason: string, deletedAt: Instant)

  datatype TransitionKind = ZeroHistory | ManifestRequired

  datatype ExpandState = ExpandState(
    kind: TransitionKind, executionCount: nat, eventCount: nat, rawCellCount: nat, transitionedAt: Instant)

  /** The tables the ledger reads and writes, and the last reading of the server's clock. */
  datatype Store = Store(
    cells: map<CellKey, Pair>,
    tombstones: map<CellKey, Tombstone>,
    manifests: map<Id, Record>,
    expand: ExpandState,
    clock: Instant)

  // ---------------------------------------------------------------- one cell

  predicate ExactPair(p: Pair) {
    p.raw == p.instant
  }

  function RowCreated(cells: map<CellKey, Pair>, row: RowKey): Option<Instant> {
    var k := CellKey(row, CreatedAt);
    if k in cells then cells[k].instant else None
  }

  function LiveView(cells: map<CellKey, Pair>, k: CellKey): View
    requires k in cells
  {
    View(cells[k], RowCreated(cells, k.row))
  }

  function VerifyPostBaseline(v: View, baseline: Instant): (r: Result<()>) {
    if v.rowCreated.None? then Err("creation instant is absent")
    else if v.rowCreated.value < baseline then Err("creation predates verification")
    else if !ExactPair(v.pair) then Err("pair is unpaired")
    else Ok(())
  }

  function ExpectedInstant(p: CellDecision): Option<Instant> {
    if p.decision == Unresolved || p.decision == NullValue then None else p.converted
  }

  function Unchanged(p: CellDecision, v: Pair): (r: Result<()>) {
    if p.raw != v.raw then Err("immutable raw timestamp changed")
    else if p.decision == Unresolved && v.instant.Some? then Err("unresolved shadow must remain null")
    else if ExpectedInstant(p) != v.instant then Err("historical shadow differs from provenance")
    else Ok(())
  }

  /** The branches of the historical check, in the order they are taken. */
  function VerifyHistorical(p: CellDecision, v: Pair, baseline: Instant): (r: Result<()>) {
    var column := p.key.column;
    if p.key.row.table == Event || column == CreatedAt || column == CallbackDeadlineAt then Unchanged(p, v)
    else if (column == StartedAt || column == CompletedAt) && p.raw.Some? then
      if p.raw != v.raw then Err("immutable lifecycle raw timestamp changed") else Unchanged(p, v)
    else if p.raw == v.raw then Unchanged(p, v)
    else if column != UpdatedAt && column != StartedAt && column != CompletedAt then
      Err("unsupported lifecycle evolution")
    else if p.raw.Some? && column != UpdatedAt then Err("immutable lifecycle raw timestamp changed")
    else if !ExactPair(v) then Err("timestamp pair does not represent one UTC instant")
    else if v.instant.None? then Err("evolved lifecycle instant is absent")
    else if v.instant.value < baseline then Err("evolved lifecycle instant predates verification")
    else Ok(())
  }

  function VerifyDeleted(p: CellDecision, t: Tombstone, baseline: Instant, promotedAt: Option<Instant>): (r: Result<()>) {
    if promotedAt.Some? && Resolved(p) && t.view.pair.instant.None? && p.raw == t.view.pair.raw then
      if t.deletedAt < promotedAt.value then Ok(()) else Err("deletion follows or coincides with provenance promotion")
    else VerifyHistorical(p, t.view.pair, baseline)
  }

  predicate MayEvolve(p: CellDecision) {
    p.key.row.table == Execution
    && (p.key.column == UpdatedAt || (p.key.column in {StartedAt, CompletedAt} && p.raw.None?))
  }

  /** A cell either still shows what its decision recorded, or is a lifecycle column rewritten
      with one exact UTC pair since the baseline. Nothing else passes. */
  predicate Historical(p: CellDecision, v: Pair, baseline: Instant) {
    || (p.raw == v.raw && v.instant == ExpectedInstant(p))
    || (MayEvolve(p) && p.raw != v.raw && v.raw.Some? && v.instant == v.raw && baseline <= v.instant.value)
  }

  lemma HistoricalCharacterized(p: CellDecision, v: Pair, baseline: Instant)
    ensures VerifyHistorical(p, v, baseline).Ok? <==> Historical(p, v, baseline)
  {
  }

  /** Null decisions never fill and never lose a wall clock to a shadow: a verified cell whose raw value
      is the recorded one has a shadow exactly when its decision is resolved. */
  lemma ShadowIffResolved(p: CellDecision, v: Pair, baseline: Instant)
    requires ValidDecision(p) && VerifyHistorical(p, v, baseline).Ok? && p.raw == v.raw
    ensures v.instant.Some? <==> Resolved(p)
  {
  }

  // ---------------------------------------------------------------- the supersession chain

  /** What the database's keys guarantee of stored manifests. */
  ghost predicate Keyed(ms: map<Id, Record>) {
    forall id :: id in ms ==> ms[id].doc.id == id && DistinctKeys(ms[id].doc.cells)
  }

  predicate Standing(ms: map<Id, Record>, id: Id) {
    id in ms && ms[id].state == Verified && ms[id].verifiedAt.Some?
  }

  function NextOf(chain: seq<Id>, i: nat): Option<Id> {
    if i + 1 < |chain| then Some(chain[i + 1]) else None
  }

  /** Manifests from a tip down to the root: every one VERIFIED, each superseding the next, the last none. */
  ghost predicate IsChain(ms: map<Id, Record>, chain: seq<Id>) {
    && |chain| > 0
    && (forall i :: 0 <= i < |chain| ==> Standing(ms, chain[i]))
    && (forall i: nat {:trigger NextOf(chain, i)} :: i < |chain| ==> ms[chain[i]].doc.supersedes == NextOf(chain, i))
  }

  lemma {:induction false} ChainSuffixesAgree(ms: map<Id, Record>, a: seq<Id>, b: seq<Id>, i: nat, j: nat)
    requires IsChain(ms, a) && IsChain(ms, b) && i < |a| && j < |b| && a[i] == b[j]
    ensures a[i..] == b[j..]
    decreases |a| - i
  {
    assert NextOf(a, i) == NextOf(b, j);
    if i + 1 < |a| {
      ChainSuffixesAgree(ms, a, b, i + 1, j + 1);
      assert a[i..] == [a[i]] + a[i + 1..] && b[j..] == [b[j]] + b[j + 1..];
    }
  }

  /** There is only one chain below a manifest. */
  lemma ChainUnique(ms: map<Id, Record>, a: seq<Id>, b: seq<Id>)
    requires IsChain(ms, a) && IsChain(ms, b) && a[0] == b[0]
    ensures a == b
  {
    ChainSuffixesAgree(ms, a, b, 0, 0);
    assert a[0..] == a && b[0..] == b;
  }

  lemma ChainPosition(ms: map<Id, Record>, chain: seq<Id>, i: nat, j: nat)
    requires IsChain(ms, chain) && i < |chain| && j < |chain| && chain[i] == chain[j]
    ensures i == j
  {
    ChainSuffixesAgree(ms, chain, chain, i, j);
    assert |chain[i..]| == |chain[j..]|;
  }

  /** A chain that reaches a root visits no manifest twice. */
  lemma ChainDistinct(ms: map<Id, Record>, chain: seq<Id>)
    requires IsChain(ms, chain)
    ensures forall i, j :: 0 <= i < j < |chain| ==> chain[i] != chain[j]
  {
    forall i, j | 0 <= i < j < |chain| && chain[i] == chain[j]
      ensures false
    {
      ChainPosition(ms, chain, i, j);
    }
  }

  function Baseline(ms: map<Id, Record>, chain: seq<Id>): Instant
    requires |chain| > 0 && Standing(ms, chain[|chain| - 1])
  {
    ms[chain[|chain| - 1]].verifiedAt.value
  }

  /** The promotions one link contributes, all at the time the child was applied. */
  ghost function LinkMap(parent: Record, child: Record): map<CellKey, Instant>
    requires DistinctKeys(parent.doc.cells) && DistinctKeys(child.doc.cells)
  {
    map k | k in PromotedBy(parent.doc, child.doc) :: AppliedAt(child)
  }

  /** When each cell stopped being unresolved, over the first `n` links of a chain. */
  ghost function Promotions(ms: map<Id, Record>, chain: seq<Id>, n: nat): map<CellKey, Instant>
    requires Keyed(ms) && IsChain(ms, chain) && n < |chain|
  {
    if n == 0 then map[]
    else Promotions(ms, chain, n - 1) + LinkMap(ms[chain[n]], ms[chain[n - 1]])
  }

  function AppliedAt(r: Record): Instant {
    if r.appliedAt.Some? then r.appliedAt.value else 0
  }

  ghost function AllPromotions(ms: map<Id, Record>, chain: seq<Id>): map<CellKey, Instant>
    requires Keyed(ms) && IsChain(ms, chain)
  {
    Promotions(ms, chain, |chain| - 1)
  }

  /** The promotion walk's own demands on one link. */
  ghost predicate LinkPromotes(ms: map<Id, Record>, chain: seq<Id>, i: nat)
    requires Keyed(ms) && IsChain(ms, chain) && i + 1 < |chain|
  {
    && ms[chain[i]].appliedAt.Some?
    && KeysOf(ms[chain[i]].doc.cells) <= KeysOf(ms[chain[i + 1]].doc.cells)
    && PromotedBy(ms[chain[i + 1]].doc, ms[chain[i]].doc) !! Promotions(ms, chain, i).Keys
  }

  ghost predicate ChainPromotes(ms: map<Id, Record>, chain: seq<Id>)
    requires Keyed(ms) && IsChain(ms, chain)
  {
    forall i: nat :: i + 1 < |chain| ==> LinkPromotes(ms, chain, i)
  }

  // ---------------------------------------------------------------- tombstones

  predicate Authorized(t: Tombstone) {
    t.reason == RETENTION && t.operation != NIL_ID
  }

  predicate SameDeletion(t: Tombstone, u: Tombstone) {
    t.operation == u.operation && t.deletedAt == u.deletedAt
  }

  ghost predicate OneDeletionPerRow(ts: map<CellKey, Tombstone>) {
    forall k, l :: k in ts && l in ts && k.row == l.row ==> SameDeletion(ts[k], ts[l])
  }

  ghost predicate AllAuthorized(ts: map<CellKey, Tombstone>) {
    forall k :: k in ts ==> Authorized(ts[k]) && ValidKey(k)
  }

  /** Every deleted row left one tombstone per column, all from one operation at one time. */
  ghost predicate ValidTombstones(ts: map<CellKey, Tombstone>) {
    AllAuthorized(ts) && WholeRows(ts.Keys) && OneDeletionPerRow(ts)
  }

  // ---------------------------------------------------------------- the whole store

  function Lookup(promoted: map<CellKey, Instant>, k: CellKey): Option<Instant> {
    if k in promoted then Some(promoted[k]) else None
  }

  /** One recorded cell has exactly one of a live source and a tombstone, and that one verifies. */
  ghost predicate CellVerified(s: Store, p: CellDecision, baseline: Instant, promotedAt: Option<Instant>) {
    if p.key in s.cells then
      p.key !in s.tombstones && VerifyHistorical(p, s.cells[p.key], baseline).Ok?
    else
      p.key in s.tombstones && VerifyDeleted(p, s.tombstones[p.key], baseline, promotedAt).Ok?
  }

  ghost predicate LaterCellsVerified(s: Store, recorded: set<CellKey>, baseline: Instant) {
    && (forall k :: k in s.cells && k !in recorded ==> VerifyPostBaseline(LiveView(s.cells, k), baseline).Ok?)
    && (forall k :: k in s.tombstones && k !in recorded ==> VerifyPostBaseline(s.tombstones[k].view, baseline).Ok?)
  }

  ghost predicate CellsVerified(s: Store, m: Manifest, baseline: Instant, promoted: map<CellKey, Instant>) {
    && (forall p :: p in m.cells ==> CellVerified(s, p, baseline, Lookup(promoted, p.key)))
    && LaterCellsVerified(s, KeysOf(m.cells), baseline)
  }

  /** Everything verification checks besides the cells themselves. */
  ghost predicate Grounded(s: Store, chain: seq<Id>) {
    && Keyed(s.manifests) && IsChain(s.manifests, chain)
    && ValidDocument(s.manifests[chain[0]].doc)
    && ChainPromotes(s.manifests, chain)
    && ValidTombstones(s.tombstones)
    && s.cells.Keys !! s.tombstones.Keys
  }

  ghost predicate VerifiedAlong(s: Store, chain: seq<Id>) {
    && Grounded(s, chain)
    && CellsVerified(s, s.manifests[chain[0]].doc, Baseline(s.manifests, chain), AllPromotions(s.manifests, chain))
  }

  ghost predicate VerifiesAt(s: Store, id: Id) {
    exists chain :: VerifiedAlong(s, chain) && chain[0] == id
  }

  /** Verification can follow only the one chain there is below a manifest. */
  lemma GroundedDecides(s: Store, chain: seq<Id>)
    requires Grounded(s, chain)
    ensures VerifiesAt(s, chain[0]) <==>
            CellsVerified(s, s.manifests[chain[0]].doc, Baseline(s.manifests, chain), AllPromotions(s.manifests, chain))
  {
    hide ValidDocument, ValidTombstones, CellsVerified, ChainPromotes;
    assert VerifiedAlong(s, chain) <==>
           CellsVerified(s, s.manifests[chain[0]].doc, Baseline(s.manifests, chain), AllPromotions(s.manifests, chain));
    if VerifiesAt(s, chain[0]) {
      var c :| VerifiedAlong(s, c) && c[0] == chain[0];
      ChainUnique(s.manifests, c, chain);
    }
  }

  lemma VerifiedApart(s: Store, id: Id)
    requires VerifiesAt(s, id)
    ensures s.cells.Keys !! s.tombstones.Keys
  {
    hide ValidDocument, ValidTombstones, CellsVerified, ChainPromotes, IsChain;
  }
}

/** Timestamp cells, manifests and the two document validators of the
    externalexecutiontimestamp package. Instants and wall clocks are microseconds since the epoch;
    a wall clock read at offset zero denotes the instant of the same number. */
module TimestampManifest {
  import opened Wrappers

  type Id = nat
  type Instant = int
  type Wall = int

  const NIL_ID: Id := 0
  const SOURCE_SCHEMA_VERSION: nat := 137
  const MAX_OFFSET_SECONDS: int := 64800
  const MICROS: int := 1_000_000
  const MAX_UINT64: int := 0xFFFF_FFFF_FFFF_FFFF

  datatype Table = Execution | Event

  datatype Column = CreatedAt | UpdatedAt | StartedAt | CompletedAt | CallbackDeadlineAt

  datatype RowKey = RowKey(table: Table, id: Id)

  datatype CellKey = CellKey(row: RowKey, column: Column)

  /** One timestamp cell: the legacy wall clock and its nullable instant shadow. */
  datatype Pair = Pair(raw: Option<Wall>, instant: Option<Instant>)

  /** A cell as the verification query returns it: the pair and its row's creation instant. */
  datatype View = View(pair: Pair, rowCreated: Option<Instant>)

  datatype Decision = Proven | Attested | Unresolved | NullValue

  datatype Evidence = Evidence(zone: string, reference: string, checksum: string, approver: string)

  datatype CellDecision = CellDecision(
    key: CellKey,
    raw: Option<Wall>,
    decision: Decision,
    offset: Option<int>,
    converted: Option<Instant>,
    evidence: Evidence)

  datatype Manifest = Manifest(
    id: Id,
    supersedes: Option<Id>,
    sourceVersion: nat,
    snapshotStart: Instant,
    snapshotEnd: Instant,
    executionCount: nat,
    eventCount: nat,
    rawCellCount: nat,
    populatedCount: nat,
    approvedAt: Instant,
    cells: seq<CellDecision>)

  const NO_EVIDENCE := Evidence("", "", "", "")

  function Columns(table: Table): set<Column> {
    match table
    case Execution => {CreatedAt, UpdatedAt, StartedAt, CompletedAt, CallbackDeadlineAt}
    case Event => {CreatedAt}
  }

  /** The ordinal stored beside a column name; table and column determine it. */
  function Ordinal(key: CellKey): nat {
    match key.column
    case CreatedAt => if key.row.table == Event then 6 else 1
    case UpdatedAt => 2
    case StartedAt => 3
    case CompletedAt => 4
    case CallbackDeadlineAt => 5
  }

  predicate Resolved(c: CellDecision) {
    c.decision == Proven || c.decision == Attested
  }

  /** Raw wall clock minus the explicit offset, refused outside eighteen hours. */
  function ConvertWallClock(raw: Wall, offsetSeconds: int): (r: Result<Instant>) {
    if offsetSeconds < -MAX_OFFSET_SECONDS || offsetSeconds > MAX_OFFSET_SECONDS then
      Err("offset seconds must be between -64800 and 64800")
    else
      Ok(raw - offsetSeconds * MICROS)
  }

  predicate DistinctKeys(cells: seq<CellDecision>) {
    forall i, j :: 0 <= i < j < |cells| ==> cells[i].key != cells[j].key
  }

  function KeysOf(cells: seq<CellDecision>): (r: set<CellKey>) {
    set c | c in cells :: c.key
  }

  /** The cells of a document indexed by their key, as the source's loops build the index. */
  function CellMap(cells: seq<CellDecision>): (m: map<CellKey, CellDecision>)
    requires DistinctKeys(cells)
    ensures m.Keys == KeysOf(cells)
    ensures forall c :: c in cells ==> c.key in m && m[c.key] == c
    ensures forall k :: k in m ==> m[k] in cells && m[k].key == k
  {
    if cells == [] then map[]
    else
      var front, last := cells[..|cells| - 1], cells[|cells| - 1];
      assert cells == front + [last];
      var m := CellMap(front);
      assert last.key !in m;
      m[last.key := last]
  }

  lemma {:induction false} DistinctKeysCount(cells: seq<CellDecision>)
    requires DistinctKeys(cells)
    ensures |KeysOf(cells)| == |cells|
  {
    if cells == [] {
      assert KeysOf(cells) == {};
    } else {
      var front, last := cells[..|cells| - 1], cells[|cells| - 1];
      assert cells == front + [last];
      DistinctKeysCount(front);
      assert last.key !in KeysOf(front);
      assert KeysOf(cells) == KeysOf(front) + {last.key};
    }
  }

  function RowIds(keys: set<CellKey>, table: Table): set<Id> {
    set k | k in keys && k.row.table == table :: k.row.id
  }

  function Populated(cells: seq<CellDecision>): nat {
    if cells == [] then 0
    else Populated(cells[..|cells| - 1]) + (if cells[|cells| - 1].raw.Some? then 1 else 0)
  }

  /** Whether one decision has the shape its kind demands. */
  predicate ValidDecision(c: CellDecision) {
    match c.decision
    case NullValue => c.raw.None? && NoConversion(c)
    case Unresolved => c.raw.Some? && NoConversion(c)
    case _ =>
      && c.raw.Some? && c.offset.Some? && c.converted.Some?
      && c.evidence.reference != "" && c.evidence.checksum != "" && c.evidence.approver != ""
      && ConvertWallClock(c.raw.value, c.offset.value) == Ok(c.converted.value)
  }

  predicate NoConversion(c: CellDecision) {
    c.offset.None? && c.converted.None? && c.evidence == NO_EVIDENCE
  }

  predicate ValidKey(k: CellKey) {
    k.row.id != NIL_ID && k.column in Columns(k.row.table)
  }

  predicate RowWhole(keys: set<CellKey>, row: RowKey) {
    forall c :: c in Columns(row.table) ==> CellKey(row, c) in keys
  }

  /** Every row mentioned is mentioned with all of its columns. */
  predicate WholeRows(keys: set<CellKey>) {
    forall k :: k in keys ==> RowWhole(keys, k.row)
  }

  lemma RowInside(keys: set<CellKey>, k: CellKey)
    requires WholeRows(keys) && ValidKey(k) && CellKey(k.row, CreatedAt) in keys
    ensures k in keys
  {
    assert RowWhole(keys, CellKey(k.row, CreatedAt).row);
    assert k == CellKey(k.row, k.column);
  }

  predicate ValidHeader(m: Manifest) {
    && m.id != NIL_ID && m.supersedes != Some(NIL_ID) && m.supersedes != Some(m.id)
    && m.sourceVersion == SOURCE_SCHEMA_VERSION
    && m.snapshotStart <= m.snapshotEnd
    && 5 * m.executionCount + m.eventCount <= MAX_UINT64
    && m.rawCellCount == 5 * m.executionCount + m.eventCount
    && m.rawCellCount == |m.cells|
  }

  predicate ValidDocument(m: Manifest) {
    && ValidHeader(m)
    && DistinctKeys(m.cells)
    && (forall c :: c in m.cells ==> ValidKey(c.key) && ValidDecision(c))
    && WholeRows(KeysOf(m.cells))
    && |RowIds(KeysOf(m.cells), Execution)| == m.executionCount
    && |RowIds(KeysOf(m.cells), Event)| == m.eventCount
    && Populated(m.cells) == m.populatedCount
  }

  /** What one superseded cell may become: only an unresolved one may change, and only to a resolved one. */
  predicate ValidSupersededCell(previous: CellDecision, next: CellDecision) {
    && next.raw == previous.raw
    && match previous.decision
       case NullValue => next.decision == NullValue
       case Unresolved => next.decision != NullValue
       case _ =>
         && next.decision == previous.decision
         && next.evidence == previous.evidence && next.offset == previous.offset
         && next.converted.Some? && next.converted == previous.converted
  }

  predicate ValidSupersession(previous: Manifest, next: Manifest) {
    && ValidDocument(next)
    && next.id != previous.id && next.supersedes == Some(previous.id)
    && next.sourceVersion == previous.sourceVersion
    && next.snapshotStart == previous.snapshotStart && next.snapshotEnd == previous.snapshotEnd
    && next.executionCount == previous.executionCount && next.eventCount == previous.eventCount
    && next.rawCellCount == previous.rawCellCount && next.populatedCount == previous.populatedCount
    && DistinctKeys(previous.cells)
    && KeysOf(next.cells) == KeysOf(previous.cells)
    && var before, after := CellMap(previous.cells), CellMap(next.cells);
       forall k :: k in before ==> ValidSupersededCell(before[k], after[k])
  }

  /** The keys a child manifest newly resolves. */
  function PromotedBy(previous: Manifest, next: Manifest): set<CellKey>
    requires DistinctKeys(previous.cells) && DistinctKeys(next.cells)
  {
    set k | k in KeysOf(next.cells) && k in KeysOf(previous.cells)
            && CellMap(previous.cells)[k].decision == Unresolved && Resolved(CellMap(next.cells)[k])
  }
}

/** The loops of verification: promotion links, deletion groups, recorded cells struck off two maps,
    leftover cells, and the counters of the report. */
module TimestampChecks {
  import opened Wrappers
  import opened TimestampManifest
  import opened TimestampVerification

  /** How many distinct rows of each table. */
  datatype Rows = Rows(executions: nat, events: nat)

  datatype Report = Report(
    source: Rows,
    current: Rows,
    deleted: Rows,
    provenanceRows: nat,
    resolvedShadows: nat,
    unresolvedShadows: nat,
    resolvedDeleted: nat,
    unresolvedDeleted: nat,
    postManifestPaired: nat,
    tombstoneRows: nat)

  datatype Class = ResolvedShadow | UnresolvedShadow | ResolvedDeleted | UnresolvedDeleted | NullDecision

  datatype Group = Group(operation: Id, deletedAt: Instant, ordinals: set<nat>)

  function ClassOf(tombstones: map<CellKey, Tombstone>, p: CellDecision): Class {
    match p.decision
    case NullValue => NullDecision
    case Unresolved => if p.key in tombstones then UnresolvedDeleted else UnresolvedShadow
    case _ => if p.key in tombstones then ResolvedDeleted else ResolvedShadow
  }

  /** The positions of the recorded cells, among the first `n`, that a report counts under one heading. */
  ghost function Counted(tombstones: map<CellKey, Tombstone>, cells: seq<CellDecision>, n: nat, c: Class): set<nat>
    requires n <= |cells|
  {
    set i: nat | i < n && ClassOf(tombstones, cells[i]) == c
  }

  lemma CountedStep(tombstones: map<CellKey, Tombstone>, cells: seq<CellDecision>, n: nat, c: Class)
    requires n < |cells|
    ensures |Counted(tombstones, cells, n + 1, c)| ==
            |Counted(tombstones, cells, n, c)| + (if ClassOf(tombstones, cells[n]) == c then 1 else 0)
  {
    CountedGrows(tombstones, cells, n, c);
  }

  lemma CountedGrows(tombstones: map<CellKey, Tombstone>, cells: seq<CellDecision>, n: nat, c: Class)
    requires n < |cells|
    ensures Counted(tombstones, cells, n + 1, c) ==
            Counted(tombstones, cells, n, c) + (if ClassOf(tombstones, cells[n]) == c then {n} else {})
  {
  }

  ghost function Total(tombstones: map<CellKey, Tombstone>, cells: seq<CellDecision>, n: nat): nat
    requires n <= |cells|
  {
    |Counted(tombstones, cells, n, ResolvedShadow)| + |Counted(tombstones, cells, n, UnresolvedShadow)|
    + |Counted(tombstones, cells, n, ResolvedDeleted)| + |Counted(tombstones, cells, n, UnresolvedDeleted)|
    + |Counted(tombstones, cells, n, NullDecision)|
  }

  lemma TotalStep(tombstones: map<CellKey, Tombstone>, cells: seq<CellDecision>, n: nat)
    requires n < |cells|
    ensures Total(tombstones, cells, n + 1) == Total(tombstones, cells, n) + 1
  {
    hide Counted, ClassOf;
    CountedStep(tombstones, cells, n, ResolvedShadow);
    CountedStep(tombstones, cells, n, UnresolvedShadow);
    CountedStep(tombstones, cells, n, ResolvedDeleted);
    CountedStep(tombstones, cells, n, UnresolvedDeleted);
    CountedStep(tombstones, cells, n, NullDecision);
  }

  /** The five headings split the recorded cells: none is counted twice, none is left out. */
  lemma {:induction false} CountedPartition(tombstones: map<CellKey, Tombstone>, cells: seq<CellDecision>, n: nat)
    requires n <= |cells|
    ensures Total(tombstones, cells, n) == n
  {
    if n > 0 {
      hide *;
      CountedPartition(tombstones, cells, n - 1);
      TotalStep(tombstones, cells, n - 1);
    }
  }

  /** The keys of the first `n` recorded cells. */
  ghost function PrefixKeys(cells: seq<CellDecision>, n: nat): set<CellKey>
    requires n <= |cells|
  {
    if n == 0 then {} else PrefixKeys(cells, n - 1) + {cells[n - 1].key}
  }

  lemma {:induction false} PrefixKeysMembers(cells: seq<CellDecision>, n: nat)
    requires n <= |cells|
    ensures forall k :: k in PrefixKeys(cells, n) <==> exists i :: 0 <= i < n && cells[i].key == k
  {
    if n > 0 { PrefixKeysMembers(cells, n - 1); }
  }

  lemma PrefixKeysFresh(cells: seq<CellDecision>, n: nat)
    requires n < |cells| && DistinctKeys(cells)
    ensures cells[n].key !in PrefixKeys(cells, n)
  {
    PrefixKeysMembers(cells, n);
  }

  lemma PrefixKeysWhole(cells: seq<CellDecision>)
    ensures PrefixKeys(cells, |cells|) == KeysOf(cells)
  {
    PrefixKeysMembers(cells, |cells|);
    forall k | k in KeysOf(cells)
      ensures k in PrefixKeys(cells, |cells|)
    {
      var c :| c in cells && c.key == k;
      var i :| 0 <= i < |cells| && cells[i] == c;
      assert cells[i].key == k;
    }
  }

  function CountRows(keys: set<CellKey>): Rows {
    Rows(|RowIds(keys, Execution)|, |RowIds(keys, Event)|)
  }

  /** What a successful verification reports. */
  ghost predicate Accounts(s: Store, m: Manifest, r: Report) {
    var n := |m.cells|;
    && DistinctKeys(m.cells)
    && r.source == Rows(m.executionCount, m.eventCount)
    && r.current == CountRows(s.cells.Keys) && r.deleted == CountRows(s.tombstones.Keys)
    && r.provenanceRows == n == |KeysOf(m.cells)|
    && r.resolvedShadows == |Counted(s.tombstones, m.cells, n, ResolvedShadow)|
    && r.unresolvedShadows == |Counted(s.tombstones, m.cells, n, UnresolvedShadow)|
    && r.resolvedDeleted == |Counted(s.tombstones, m.cells, n, ResolvedDeleted)|
    && r.unresolvedDeleted == |Counted(s.tombstones, m.cells, n, UnresolvedDeleted)|
    && r.resolvedShadows + r.unresolvedShadows + r.resolvedDeleted + r.unresolvedDeleted
       + |Counted(s.tombstones, m.cells, n, NullDecision)| == r.provenanceRows
    && r.tombstoneRows == |s.tombstones|
    && r.postManifestPaired == |s.cells| + |s.tombstones| - r.provenanceRows
  }

  predicate Promotes(previous: map<CellKey, CellDecision>, c: CellDecision) {
    c.key in previous && previous[c.key].decision == Unresolved && Resolved(c)
  }

  /** The promoted keys among the first `n` cells of a child manifest. */
  ghost function PromotedPrefix(previous: map<CellKey, CellDecision>, cells: seq<CellDecision>, n: nat): set<CellKey>
    requires n <= |cells|
  {
    if n == 0 then {}
    else PromotedPrefix(previous, cells, n - 1)
         + (if Promotes(previous, cells[n - 1]) then {cells[n - 1].key} else {})
  }

  lemma {:induction false} PromotedPrefixMembers(previous: map<CellKey, CellDecision>, cells: seq<CellDecision>, n: nat)
    requires n <= |cells|
    ensures forall k :: k in PromotedPrefix(previous, cells, n) <==>
                        exists i :: 0 <= i < n && cells[i].key == k && Promotes(previous, cells[i])
  {
    if n > 0 {
      PromotedPrefixMembers(previous, cells, n - 1);
    }
  }

  lemma PromotedPrefixWhole(parent: Manifest, child: Manifest)
    requires DistinctKeys(parent.cells) && DistinctKeys(child.cells)
    ensures PromotedPrefix(CellMap(parent.cells), child.cells, |child.cells|) == PromotedBy(parent, child)
  {
    var previous, cells := CellMap(parent.cells), child.cells;
    PromotedPrefixMembers(previous, cells, |cells|);
    forall k | k in PromotedBy(parent, child)
      ensures k in PromotedPrefix(previous, cells, |cells|)
    {
      var c := CellMap(cells)[k];
      var i :| 0 <= i < |cells| && cells[i] == c;
      assert Promotes(previous, cells[i]);
    }
    forall k | k in PromotedPrefix(previous, cells, |cells|)
      ensures k in PromotedBy(parent, child)
    {
      var i :| 0 <= i < |cells| && cells[i].key == k && Promotes(previous, cells[i]);
      assert cells[i] in cells;
    }
  }

  ghost predicate Path(ms: map<Id, Record>, path: seq<Id>, next: Id) {
    forall i: nat {:trigger NextOf(path + [next], i)} :: i < |path| ==>
      Standing(ms, path[i]) && ms[path[i]].doc.supersedes == NextOf(path + [next], i)
  }

  lemma PathExtends(ms: map<Id, Record>, path: seq<Id>, current: Id, parent: Id)
    requires Path(ms, path, current) && Standing(ms, current) && ms[current].doc.supersedes == Some(parent)
    ensures Path(ms, path + [current], parent)
  {
    var longer := path + [current];
    forall i: nat | i < |longer|
      ensures Standing(ms, longer[i]) && ms[longer[i]].doc.supersedes == NextOf(longer + [parent], i)
    {
      if i < |path| { assert NextOf(path + [current], i) == NextOf(longer + [parent], i); }
    }
  }

  lemma PathEnds(ms: map<Id, Record>, path: seq<Id>, root: Id)
    requires Path(ms, path, root) && Standing(ms, root) && ms[root].doc.supersedes.None?
    ensures IsChain(ms, path + [root])
  {
    var chain := path + [root];
    forall i: nat | i < |chain|
      ensures Standing(ms, chain[i]) && ms[chain[i]].doc.supersedes == NextOf(chain, i)
    {
      if i < |path| { assert NextOf(path + [root], i) == NextOf(chain, i); }
    }
  }

  /** A walk follows the only chain there is. */
  lemma {:induction false} PathIsPrefix(ms: map<Id, Record>, path: seq<Id>, next: Id, c: seq<Id>, n: nat)
    requires Path(ms, path, next) && IsChain(ms, c) && c[0] == (path + [next])[0] && n <= |path|
    ensures n < |c| && c[n] == (path + [next])[n]
  {
    if n > 0 {
      PathIsPrefix(ms, path, next, c, n - 1);
      assert NextOf(c, n - 1) == NextOf(path + [next], n - 1);
    }
  }

  lemma NoChainThrough(ms: map<Id, Record>, path: seq<Id>, next: Id)
    requires Path(ms, path, next) && (next in path || !Standing(ms, next))
    ensures forall c :: IsChain(ms, c) ==> c[0] != (path + [next])[0]
  {
    forall c | IsChain(ms, c) && c[0] == (path + [next])[0]
      ensures false
    {
      PathIsPrefix(ms, path, next, c, |path|);
      if next in path {
        var i :| 0 <= i < |path| && path[i] == next;
        PathIsPrefix(ms, path, next, c, i);
        ChainPosition(ms, c, i, |path|);
      }
    }
  }

  function ExpectedOrdinals(table: Table): set<nat> {
    match table
    case Execution => {1, 2, 3, 4, 5}
    case Event => {6}
  }

  /** A deletion group agrees with the tombstones of its row seen so far. */
  ghost predicate GroupOf(ts: map<CellKey, Tombstone>, done: set<CellKey>, row: RowKey, g: Group)
    requires done <= ts.Keys
  {
    && (forall k :: k in done && k.row == row ==>
          ts[k].operation == g.operation && ts[k].deletedAt == g.deletedAt && Ordinal(k) in g.ordinals)
    && (forall o :: o in g.ordinals ==> exists k :: k in done && k.row == row && Ordinal(k) == o)
    && (exists k :: k in done && k.row == row)
  }

  ghost predicate Grouped(ts: map<CellKey, Tombstone>, done: set<CellKey>, groups: map<RowKey, Group>)
    requires done <= ts.Keys
  {
    && (forall k :: k in done ==> Authorized(ts[k]) && ValidKey(k) && k.row in groups)
    && (forall row :: row in groups ==> GroupOf(ts, done, row, groups[row]))
  }

  function GroupWith(groups: map<RowKey, Group>, k: CellKey, t: Tombstone): Group {
    var g := if k.row in groups then groups[k.row] else Group(t.operation, t.deletedAt, {});
    g.(ordinals := g.ordinals + {Ordinal(k)})
  }

  lemma OtherGroupStays(ts: map<CellKey, Tombstone>, done: set<CellKey>, row: RowKey, g: Group, k: CellKey)
    requires done <= ts.Keys && k in ts && k.row != row && GroupOf(ts, done, row, g)
    ensures GroupOf(ts, done + {k}, row, g)
  {
    hide Ordinal;
    var l :| l in done && l.row == row;
    assert l in done + {k};
  }

  lemma GroupJoined(ts: map<CellKey, Tombstone>, done: set<CellKey>, groups: map<RowKey, Group>, k: CellKey)
    requires done <= ts.Keys && k in ts && Grouped(ts, done, groups)
    requires k.row in groups ==> groups[k.row].operation == ts[k].operation && groups[k.row].deletedAt == ts[k].deletedAt
    ensures GroupOf(ts, done + {k}, k.row, GroupWith(groups, k, ts[k]))
  {
    hide Authorized, ValidKey, Ordinal;
    assert k in done + {k};
    assert k.row in groups ==> GroupOf(ts, done, k.row, groups[k.row]);
  }

  lemma GroupedStep(ts: map<CellKey, Tombstone>, done: set<CellKey>, groups: map<RowKey, Group>, k: CellKey)
    requires done <= ts.Keys && k in ts && Grouped(ts, done, groups) && Authorized(ts[k]) && ValidKey(k)
    requires k.row in groups ==> groups[k.row].operation == ts[k].operation && groups[k.row].deletedAt == ts[k].deletedAt
    ensures Grouped(ts, done + {k}, groups[k.row := GroupWith(groups, k, ts[k])])
  {
    hide Authorized, ValidKey, Ordinal, GroupWith;
    forall row | row in groups && row != k.row
      ensures GroupOf(ts, done + {k}, row, groups[row])
    {
      OtherGroupStays(ts, done, row, groups[row], k);
    }
    GroupJoined(ts, done, groups, k);
    hide GroupOf;
  }

  predicate Complete(row: RowKey, g: Group) {
    g.ordinals == ExpectedOrdinals(row.table)
  }

  lemma OrdinalPresent(ts: map<CellKey, Tombstone>, row: RowKey, g: Group, c: Column)
    requires (forall k :: k in ts ==> ValidKey(k)) && GroupOf(ts, ts.Keys, row, g) && c in Columns(row.table)
    ensures CellKey(row, c) in ts.Keys <==> Ordinal(CellKey(row, c)) in g.ordinals
  {
    if Ordinal(CellKey(row, c)) in g.ordinals {
      var k :| k in ts.Keys && k.row == row && Ordinal(k) == Ordinal(CellKey(row, c));
      assert ValidKey(k) && k == CellKey(row, c);
    }
  }

  lemma OrdinalsExpected(ts: map<CellKey, Tombstone>, row: RowKey, g: Group)
    requires (forall k :: k in ts ==> ValidKey(k)) && GroupOf(ts, ts.Keys, row, g)
    ensures g.ordinals <= ExpectedOrdinals(row.table)
  {
    forall o | o in g.ordinals
      ensures o in ExpectedOrdinals(row.table)
    {
      var k :| k in ts.Keys && k.row == row && Ordinal(k) == o;
      assert ValidKey(k);
    }
  }

  lemma OrdinalsOfRow(keys: set<CellKey>, row: RowKey, g: Group)
    requires g.ordinals <= ExpectedOrdinals(row.table)
    requires forall c :: c in Columns(row.table) ==> (CellKey(row, c) in keys <==> Ordinal(CellKey(row, c)) in g.ordinals)
    ensures Complete(row, g) <==> RowWhole(keys, row)
  {
    if RowWhole(keys, row) {
      assert CreatedAt in Columns(row.table);
      if row.table == Execution {
        assert {UpdatedAt, StartedAt, CompletedAt, CallbackDeadlineAt} <= Columns(row.table);
      }
    }
  }

  lemma GroupComplete(ts: map<CellKey, Tombstone>, row: RowKey, g: Group)
    requires (forall k :: k in ts ==> ValidKey(k)) && GroupOf(ts, ts.Keys, row, g)
    ensures Complete(row, g) <==> RowWhole(ts.Keys, row)
  {
    OrdinalsExpected(ts, row, g);
    forall c | c in Columns(row.table)
      ensures CellKey(row, c) in ts.Keys <==> Ordinal(CellKey(row, c)) in g.ordinals
    {
      OrdinalPresent(ts, row, g, c);
    }
    hide GroupOf, ValidKey;
    OrdinalsOfRow(ts.Keys, row, g);
  }

  lemma GroupsAgree(ts: map<CellKey, Tombstone>, groups: map<RowKey, Group>)
    requires Grouped(ts, ts.Keys, groups)
    ensures OneDeletionPerRow(ts) && AllAuthorized(ts)
  {
    forall k, l | k in ts && l in ts && k.row == l.row
      ensures SameDeletion(ts[k], ts[l])
    {
      assert k in ts.Keys && l in ts.Keys && GroupOf(ts, ts.Keys, k.row, groups[k.row]);
    }
  }

  lemma GroupsDecide(ts: map<CellKey, Tombstone>, groups: map<RowKey, Group>)
    requires Grouped(ts, ts.Keys, groups)
    ensures ValidTombstones(ts) <==> forall row :: row in groups ==> Complete(row, groups[row])
  {
    GroupsAgree(ts, groups);
    GroupsCover(ts, groups);
  }

  lemma GroupsCover(ts: map<CellKey, Tombstone>, groups: map<RowKey, Group>)
    requires Grouped(ts, ts.Keys, groups)
    ensures WholeRows(ts.Keys) <==> forall row :: row in groups ==> Complete(row, groups[row])
  {
    forall row | row in groups
      ensures Complete(row, groups[row]) <==> RowWhole(ts.Keys, row)
      ensures exists k :: k in ts.Keys && k.row == row
    {
      GroupComplete(ts, row, groups[row]);
    }
  }

  /** The promotions of earlier links, and of the first `n` cells of this one. */
  ghost function Collected(previous: map<CellKey, CellDecision>, cells: seq<CellDecision>, n: nat, at: Instant,
                           earlier: map<CellKey, Instant>): map<CellKey, Instant>
    requires n <= |cells|
  {
    earlier + map k | k in PromotedPrefix(previous, cells, n) :: at
  }

  lemma CollectedNone(previous: map<CellKey, CellDecision>, cells: seq<CellDecision>, at: Instant, earlier: map<CellKey, Instant>)
    ensures Collected(previous, cells, 0, at, earlier) == earlier && PromotedPrefix(previous, cells, 0) == {}
  {
  }

  lemma CollectedNext(previous: map<CellKey, CellDecision>, cells: seq<CellDecision>, n: nat, at: Instant,
                      earlier: map<CellKey, Instant>)
    requires n < |cells|
    ensures if Promotes(previous, cells[n]) then
              Collected(previous, cells, n + 1, at, earlier) == Collected(previous, cells, n, at, earlier)[cells[n].key := at]
              && PromotedPrefix(previous, cells, n + 1) == PromotedPrefix(previous, cells, n) + {cells[n].key}
            else
              Collected(previous, cells, n + 1, at, earlier) == Collected(previous, cells, n, at, earlier)
              && PromotedPrefix(previous, cells, n + 1) == PromotedPrefix(previous, cells, n)
  {
    hide Promotes;
  }

  lemma EarlierCollected(previous: map<CellKey, CellDecision>, cells: seq<CellDecision>, n: nat, at: Instant,
                         earlier: map<CellKey, Instant>)
    requires n <= |cells|
    ensures earlier.Keys <= Collected(previous, cells, n, at, earlier).Keys
    ensures Collected(previous, cells, n, at, earlier) == earlier + map k | k in PromotedPrefix(previous, cells, n) :: at
  {
  }

  /** With distinct keys only an earlier link can have promoted the cell before. */
  lemma PromotedTwice(previous: map<CellKey, CellDecision>, cells: seq<CellDecision>, n: nat, at: Instant,
                      earlier: map<CellKey, Instant>)
    requires DistinctKeys(cells) && n < |cells| && Promotes(previous, cells[n])
    requires cells[n].key in Collected(previous, cells, n, at, earlier)
    ensures cells[n].key in earlier && cells[n].key in PromotedPrefix(previous, cells, |cells|)
  {
    PromotedPrefixMembers(previous, cells, n);
    PromotedPrefixMembers(previous, cells, |cells|);
    hide Promotes, PromotedPrefix;
  }

  /** Adds one link's promotions; a cell promoted twice, or with no ancestor, is refused. */
  method LinkPromotions(previous: map<CellKey, CellDecision>, cells: seq<CellDecision>, at: Instant,
                        earlier: map<CellKey, Instant>)
    returns (r: Result<map<CellKey, Instant>>)
    requires DistinctKeys(cells)
    ensures r.Ok? <==> (forall c :: c in cells ==> c.key in previous)
                       && PromotedPrefix(previous, cells, |cells|) !! earlier.Keys
    ensures r.Ok? ==> r.value == Collected(previous, cells, |cells|, at, earlier)
    ensures r.Ok? ==> r.value == earlier + map k | k in PromotedPrefix(previous, cells, |cells|) :: at
  {
    var promoted := earlier;
    CollectedNone(previous, cells, at, earlier);
    hide DistinctKeys, PromotedPrefix, Collected;
    for j := 0 to |cells|
      invariant promoted == Collected(previous, cells, j, at, earlier)
      invariant forall i :: 0 <= i < j ==> cells[i].key in previous
      invariant PromotedPrefix(previous, cells, j) !! earlier.Keys
    {
      var cell := cells[j];
      CollectedNext(previous, cells, j, at, earlier);
      if cell.key !in previous {
        assert cell in cells;
        return Err("manifest promotion cell has no ancestor");
      }
      if previous[cell.key].decision == Unresolved && Resolved(cell) {
        assert Promotes(previous, cells[j]);
        if cell.key in promoted {
          PromotedTwice(previous, cells, j, at, earlier);
          return Err("manifest promotion cell is promoted more than once");
        }
        assert cell.key !in earlier by { EarlierCollected(previous, cells, j, at, earlier); }
        promoted := promoted[cell.key := at];
      }
    }
    EarlierCollected(previous, cells, |cells|, at, earlier);
    return Ok(promoted);
  }

  function Tallied(report: Report, decision: Decision, deleted: bool): Report {
    match decision
    case NullValue => report
    case Unresolved =>
      if deleted then report.(unresolvedDeleted := report.unresolvedDeleted + 1)
      else report.(unresolvedShadows := report.unresolvedShadows + 1)
    case _ =>
      if deleted then report.(resolvedDeleted := report.resolvedDeleted + 1)
      else report.(resolvedShadows := report.resolvedShadows + 1)
  }

  lemma StruckOff<T>(m: map<CellKey, T>, left: map<CellKey, T>, struck: set<CellKey>, k: CellKey)
    requires left == m - struck && k !in struck
    ensures left - {k} == m - (struck + {k})
  {
  }

  lemma StruckCount<T>(m: map<CellKey, T>, k: CellKey)
    ensures |m - {k}| == |m| - (if k in m then 1 else 0)
  {
    assert (m - {k}).Keys == m.Keys - {k};
    assert |(m - {k}).Keys| == |m - {k}| && |m.Keys| == |m|;
  }

  /** How many of the first `n` recorded cells fall under one heading. */
  ghost function Tally(tombstones: map<CellKey, Tombstone>, rows: seq<CellDecision>, n: nat, c: Class): nat
    requires n <= |rows|
  {
    if n == 0 then 0
    else Tally(tombstones, rows, n - 1, c) + (if ClassOf(tombstones, rows[n - 1]) == c then 1 else 0)
  }

  lemma {:induction false} TallyCounts(tombstones: map<CellKey, Tombstone>, rows: seq<CellDecision>, n: nat, c: Class)
    requires n <= |rows|
    ensures Tally(tombstones, rows, n, c) == |Counted(tombstones, rows, n, c)|
  {
    if n > 0 {
      TallyCounts(tombstones, rows, n - 1, c);
      CountedStep(tombstones, rows, n - 1, c);
    }
  }

  /** The report's four counters agree with the first `n` recorded cells. */
  ghost predicate Tallies(report: Report, tombstones: map<CellKey, Tombstone>, rows: seq<CellDecision>, n: nat)
    requires n <= |rows|
  {
    && report.resolvedShadows == Tally(tombstones, rows, n, ResolvedShadow)
    && report.unresolvedShadows == Tally(tombstones, rows, n, UnresolvedShadow)
    && report.resolvedDeleted == Tally(tombstones, rows, n, ResolvedDeleted)
    && report.unresolvedDeleted == Tally(tombstones, rows, n, UnresolvedDeleted)
  }

  /** What is left of the live cells and tombstones after the first `n` recorded cells are struck off. */
  ghost predicate Struck(s: Store, rows: seq<CellDecision>, n: nat, current: map<CellKey, Pair>, dead: map<CellKey, Tombstone>)
    requires n <= |rows|
  {
    current == s.cells - PrefixKeys(rows, n) && dead == s.tombstones - PrefixKeys(rows, n)
  }

  lemma StruckStep(s: Store, rows: seq<CellDecision>, n: nat, current: map<CellKey, Pair>, dead: map<CellKey, Tombstone>)
    requires n < |rows| && DistinctKeys(rows) && Struck(s, rows, n, current, dead)
    ensures Struck(s, rows, n + 1, current - {rows[n].key}, dead - {rows[n].key})
  {
    PrefixKeysFresh(rows, n);
    StruckOff(s.cells, current, PrefixKeys(rows, n), rows[n].key);
    StruckOff(s.tombstones, dead, PrefixKeys(rows, n), rows[n].key);
  }

  lemma StruckSize<T>(m: map<CellKey, T>, rows: seq<CellDecision>, n: nat)
    requires n < |rows| && DistinctKeys(rows)
    ensures |m - PrefixKeys(rows, n + 1)| == |m - PrefixKeys(rows, n)| - (if rows[n].key in m then 1 else 0)
  {
    var k, earlier := rows[n].key, PrefixKeys(rows, n);
    PrefixKeysFresh(rows, n);
    StruckOff(m, m - earlier, earlier, k);
    StruckCount(m - earlier, k);
  }

  /** How many of the first `n` recorded cells are keys of a map. */
  ghost function Hits<T>(m: map<CellKey, T>, rows: seq<CellDecision>, n: nat): nat
    requires n <= |rows|
  {
    if n == 0 then 0 else Hits(m, rows, n - 1) + (if rows[n - 1].key in m then 1 else 0)
  }

  lemma StruckNone<T>(m: map<CellKey, T>)
    ensures m - {} == m
  {
  }

  /** What is left of a map, and the recorded cells struck off it. */
  ghost function Balance<T>(m: map<CellKey, T>, rows: seq<CellDecision>, n: nat): nat
    requires n <= |rows|
  {
    |m - PrefixKeys(rows, n)| + Hits(m, rows, n)
  }

  lemma BalanceNext<T>(m: map<CellKey, T>, rows: seq<CellDecision>, n: nat)
    requires n < |rows| && DistinctKeys(rows)
    ensures Balance(m, rows, n + 1) == Balance(m, rows, n)
  {
    StruckSize(m, rows, n);
    hide DistinctKeys, PrefixKeys;
  }

  lemma BalanceStart<T>(m: map<CellKey, T>, rows: seq<CellDecision>)
    ensures Balance(m, rows, 0) == |m|
  {
    StruckNone(m);
    assert PrefixKeys(rows, 0) == {};
  }

  lemma {:induction false} BalanceHolds<T>(m: map<CellKey, T>, rows: seq<CellDecision>, n: nat)
    requires n <= |rows| && DistinctKeys(rows)
    ensures Balance(m, rows, n) == |m|
  {
    hide *;
    if n == 0 {
      BalanceStart(m, rows);
    } else {
      BalanceHolds(m, rows, n - 1);
      BalanceNext(m, rows, n - 1);
    }
  }

  /** What is left of a map and the recorded cells struck off it make up its size. */
  lemma StruckHits<T>(m: map<CellKey, T>, rows: seq<CellDecision>, n: nat)
    requires n <= |rows| && DistinctKeys(rows)
    ensures |m - PrefixKeys(rows, n)| + Hits(m, rows, n) == |m|
  {
    BalanceHolds(m, rows, n);
    hide DistinctKeys, PrefixKeys, Hits;
  }

  /** Each verified cell is struck off exactly one of the two maps. */
  lemma {:induction false} HitsOnce(s: Store, rows: seq<CellDecision>, n: nat)
    requires n <= |rows|
    requires forall i :: 0 <= i < n ==> (rows[i].key in s.cells <==> rows[i].key !in s.tombstones)
    ensures Hits(s.cells, rows, n) + Hits(s.tombstones, rows, n) == n
  {
    if n > 0 { HitsOnce(s, rows, n - 1); }
  }

  /** One turn of the loop over recorded cells. */
  function CheckOne(p: CellDecision, current: map<CellKey, Pair>, dead: map<CellKey, Tombstone>,
                    baseline: Instant, promoted: map<CellKey, Instant>): Result<()> {
    if p.key !in current && p.key !in dead then Err("provenance cell has no source row or authorized tombstone")
    else if p.key in dead then VerifyDeleted(p, dead[p.key], baseline, Lookup(promoted, p.key))
    else VerifyHistorical(p, current[p.key], baseline)
  }

  lemma CheckOneDecides(s: Store, rows: seq<CellDecision>, n: nat, current: map<CellKey, Pair>,
                        dead: map<CellKey, Tombstone>, baseline: Instant, promoted: map<CellKey, Instant>)
    requires n < |rows| && DistinctKeys(rows) && s.cells.Keys !! s.tombstones.Keys && Struck(s, rows, n, current, dead)
    ensures rows[n].key in dead <==> rows[n].key in s.tombstones
    ensures CheckOne(rows[n], current, dead, baseline, promoted).Ok?
            <==> CellVerified(s, rows[n], baseline, Lookup(promoted, rows[n].key))
    ensures CheckOne(rows[n], current, dead, baseline, promoted).Ok? ==> rows[n].key in s.cells.Keys + s.tombstones.Keys
  {
    PrefixKeysFresh(rows, n);
  }

  ghost predicate PrefixVerified(s: Store, rows: seq<CellDecision>, n: nat, baseline: Instant, promoted: map<CellKey, Instant>)
    requires n <= |rows|
  {
    forall i :: 0 <= i < n ==> CellVerified(s, rows[i], baseline, Lookup(promoted, rows[i].key))
  }

  /** Checks each recorded cell against its live source or its tombstone, striking both off as it goes. */
  method CheckRecorded(s: Store, rows: seq<CellDecision>, baseline: Instant, promoted: map<CellKey, Instant>)
    returns (r: Result<Report>, current: map<CellKey, Pair>, dead: map<CellKey, Tombstone>)
    requires DistinctKeys(rows) && s.cells.Keys !! s.tombstones.Keys
    ensures r.Ok? <==> PrefixVerified(s, rows, |rows|, baseline, promoted)
    ensures r.Ok? ==> Struck(s, rows, |rows|, current, dead) && Tallies(r.value, s.tombstones, rows, |rows|)
  {
    StruckNone(s.cells);
    StruckNone(s.tombstones);
    hide CheckOne, CellVerified, DistinctKeys;
    current, dead := s.cells, s.tombstones;
    var report := Report(Rows(0, 0), Rows(0, 0), Rows(0, 0), 0, 0, 0, 0, 0, 0, 0);
    for i := 0 to |rows|
      invariant Struck(s, rows, i, current, dead)
      invariant PrefixVerified(s, rows, i, baseline, promoted)
      invariant Tallies(report, s.tombstones, rows, i)
    {
      var p := rows[i];
      CheckOneDecides(s, rows, i, current, dead, baseline, promoted);
      var checked := CheckOne(p, current, dead, baseline, promoted);
      if checked.Err? {
        return Err(checked.message), current, dead;
      }
      StruckStep(s, rows, i, current, dead);
      report := Tallied(report, p.decision, p.key in dead);
      current, dead := current - {p.key}, dead - {p.key};
    }
    r := Ok(report);
  }

  predicate AllLater(views: map<CellKey, View>, baseline: Instant) {
    forall k :: k in views ==> VerifyPostBaseline(views[k], baseline).Ok?
  }

  /** Every leftover cell must be one exact UTC pair of a row created at or after the baseline. */
  method CheckLater(views: map<CellKey, View>, baseline: Instant) returns (r: Result<nat>)
    ensures r.Ok? <==> AllLater(views, baseline)
    ensures r.Ok? ==> r.value == |views|
  {
    var rest := views.Keys;
    var paired := 0;
    while rest != {}
      invariant rest <= views.Keys
      invariant paired + |rest| == |views|
      invariant forall k :: k in views && k !in rest ==> VerifyPostBaseline(views[k], baseline).Ok?
    {
      var k :| k in rest;
      var checked := VerifyPostBaseline(views[k], baseline);
      if checked.Err? {
        return Err(checked.message);
      }
      rest, paired := rest - {k}, paired + 1;
    }
    return Ok(paired);
  }

  lemma RecordedDecide(s: Store, m: Manifest, baseline: Instant, promoted: map<CellKey, Instant>)
    ensures PrefixVerified(s, m.cells, |m.cells|, baseline, promoted)
            <==> forall p :: p in m.cells ==> CellVerified(s, p, baseline, Lookup(promoted, p.key))
  {
  }

  function LiveViews(s: Store, current: map<CellKey, Pair>): map<CellKey, View>
    requires current.Keys <= s.cells.Keys
  {
    map k | k in current :: LiveView(s.cells, k)
  }

  function DeadViews(dead: map<CellKey, Tombstone>): map<CellKey, View> {
    map k | k in dead :: dead[k].view
  }

  lemma LaterDecide(s: Store, recorded: set<CellKey>, baseline: Instant, current: map<CellKey, Pair>,
                    dead: map<CellKey, Tombstone>)
    requires current == s.cells - recorded && dead == s.tombstones - recorded
    ensures current.Keys <= s.cells.Keys
    ensures LaterCellsVerified(s, recorded, baseline)
            <==> AllLater(LiveViews(s, current), baseline) && AllLater(DeadViews(dead), baseline)
    ensures |LiveViews(s, current)| == |current| && |DeadViews(dead)| == |dead|
  {
    LiveDecide(s, recorded, baseline, current);
    DeadDecide(s, recorded, baseline, dead);
  }

  lemma LiveDecide(s: Store, recorded: set<CellKey>, baseline: Instant, current: map<CellKey, Pair>)
    requires current == s.cells - recorded
    ensures AllLater(LiveViews(s, current), baseline) <==>
            forall k :: k in s.cells && k !in recorded ==> VerifyPostBaseline(LiveView(s.cells, k), baseline).Ok?
    ensures |LiveViews(s, current)| == |current|
  {
    var live := LiveViews(s, current);
    assert live.Keys == current.Keys;
    assert forall k :: k in live <==> k in s.cells && k !in recorded;
  }

  lemma DeadDecide(s: Store, recorded: set<CellKey>, baseline: Instant, dead: map<CellKey, Tombstone>)
    requires dead == s.tombstones - recorded
    ensures AllLater(DeadViews(dead), baseline) <==>
            forall k :: k in s.tombstones && k !in recorded ==> VerifyPostBaseline(s.tombstones[k].view, baseline).Ok?
    ensures |DeadViews(dead)| == |dead|
  {
    var deleted := DeadViews(dead);
    assert deleted.Keys == dead.Keys;
    assert forall k :: k in deleted <==> k in s.tombstones && k !in recorded;
  }

  lemma AccountsHold(s: Store, m: Manifest, r: Report, current: map<CellKey, Pair>, dead: map<CellKey, Tombstone>)
    requires DistinctKeys(m.cells) && Tallies(r, s.tombstones, m.cells, |m.cells|)
    requires forall i :: 0 <= i < |m.cells| ==> (m.cells[i].key in s.cells <==> m.cells[i].key !in s.tombstones)
    requires Struck(s, m.cells, |m.cells|, current, dead)
    requires r.source == Rows(m.executionCount, m.eventCount)
    requires r.current == CountRows(s.cells.Keys) && r.deleted == CountRows(s.tombstones.Keys)
    requires r.provenanceRows == |m.cells| && r.tombstoneRows == |s.tombstones|
    requires r.postManifestPaired == |current| + |dead|
    ensures Accounts(s, m, r)
  {
    hide CountRows, KeysOf, Counted, DistinctKeys, Tallies, Struck, ClassOf, PrefixKeys, Tally, Hits;
    DistinctKeysCount(m.cells);
    TalliesCount(r, s.tombstones, m.cells);
    StruckTotal(s, m.cells, current, dead);
  }

  lemma TalliesCount(r: Report, tombstones: map<CellKey, Tombstone>, cells: seq<CellDecision>)
    requires Tallies(r, tombstones, cells, |cells|)
    ensures var n := |cells|;
            && r.resolvedShadows == |Counted(tombstones, cells, n, ResolvedShadow)|
            && r.unresolvedShadows == |Counted(tombstones, cells, n, UnresolvedShadow)|
            && r.resolvedDeleted == |Counted(tombstones, cells, n, ResolvedDeleted)|
            && r.unresolvedDeleted == |Counted(tombstones, cells, n, UnresolvedDeleted)|
            && r.resolvedShadows + r.unresolvedShadows + r.resolvedDeleted + r.unresolvedDeleted
               + |Counted(tombstones, cells, n, NullDecision)| == n
  {
    hide Counted, Tally, ClassOf;
    var n := |cells|;
    TallyCounts(tombstones, cells, n, ResolvedShadow);
    TallyCounts(tombstones, cells, n, UnresolvedShadow);
    TallyCounts(tombstones, cells, n, ResolvedDeleted);
    TallyCounts(tombstones, cells, n, UnresolvedDeleted);
    CountedPartition(tombstones, cells, n);
  }

  lemma StruckTotal(s: Store, cells: seq<CellDecision>, current: map<CellKey, Pair>, dead: map<CellKey, Tombstone>)
    requires DistinctKeys(cells) && Struck(s, cells, |cells|, current, dead)
    requires forall i :: 0 <= i < |cells| ==> (cells[i].key in s.cells <==> cells[i].key !in s.tombstones)
    ensures |current| + |dead| == |s.cells| + |s.tombstones| - |cells|
  {
    hide DistinctKeys, Hits, PrefixKeys;
    StruckHits(s.cells, cells, |cells|);
    StruckHits(s.tombstones, cells, |cells|);
    HitsOnce(s, cells, |cells|);
  }

  lemma NotVerified(s: Store, chain: seq<Id>)
    requires Keyed(s.manifests) && IsChain(s.manifests, chain) && !VerifiedAlong(s, chain)
    ensures !VerifiesAt(s, chain[0])
  {
    if VerifiesAt(s, chain[0]) {
      var c :| VerifiedAlong(s, c) && c[0] == chain[0];
      ChainUnique(s.manifests, c, chain);
      assert false;
    }
  }

  lemma Decided(s: Store, chain: seq<Id>)
    requires Keyed(s.manifests) && IsChain(s.manifests, chain)
    ensures VerifiesAt(s, chain[0]) <==> VerifiedAlong(s, chain)
  {
    if !VerifiedAlong(s, chain) { NotVerified(s, chain); }
  }

  /** The ids of the rows that the cells belong to, table by table. */
  method CollectRows(keys: set<CellKey>) returns (executions: set<Id>, events: set<Id>)
    ensures executions == RowIds(keys, Execution) && events == RowIds(keys, Event)
  {
    executions, events := {}, {};
    var rest := keys;
    while rest != {}
      invariant rest <= keys
      invariant executions == RowIds(keys - rest, Execution) && events == RowIds(keys - rest, Event)
    {
      var k :| k in rest;
      assert keys - (rest - {k}) == (keys - rest) + {k};
      RowIdsJoin(keys - rest, k);
      if k.row.table == Execution {
        executions := executions + {k.row.id};
      } else {
        events := events + {k.row.id};
      }
      rest := rest - {k};
    }
    assert keys - {} == keys;
  }

  lemma RowIdsJoin(keys: set<CellKey>, k: CellKey)
    ensures forall table :: RowIds(keys + {k}, table) ==
                            if k.row.table == table then RowIds(keys, table) + {k.row.id} else RowIds(keys, table)
  {
  }

  /** The rows of one table that hold some cell the manifest does not list. */
  ghost function LaterRows(s: Store, m: Manifest, table: Table): set<Id> {
    RowIds(s.cells.Keys + s.tombstones.Keys - KeysOf(m.cells), table)
  }

  /** Whole rows are known by their creation cells. */
  lemma RowById(keys: set<CellKey>, table: Table, id: Id)
    requires WholeRows(keys)
    ensures id in RowIds(keys, table) <==> CellKey(RowKey(table, id), CreatedAt) in keys
  {
    forall k | k in keys && k.row == RowKey(table, id)
      ensures CellKey(RowKey(table, id), CreatedAt) in keys
    {
      assert RowWhole(keys, k.row);
    }
  }

  lemma WholeHolds(keys: set<CellKey>, k: CellKey)
    requires WholeRows(keys) && ValidKey(k)
    ensures CellKey(k.row, CreatedAt) in keys ==> k in keys
  {
    if CellKey(k.row, CreatedAt) in keys { RowInside(keys, k); }
  }

  lemma RowsApart(a: set<CellKey>, b: set<CellKey>, table: Table)
    requires WholeRows(a) && WholeRows(b) && a !! b
    ensures RowIds(a, table) !! RowIds(b, table)
  {
    hide WholeRows, RowIds;
    forall id | id in RowIds(a, table)
      ensures id !in RowIds(b, table)
    {
      RowById(a, table, id);
      RowById(b, table, id);
    }
  }

  lemma RowsBeyond(all: set<CellKey>, recorded: set<CellKey>, table: Table)
    requires WholeRows(recorded) && recorded <= all && forall k :: k in all ==> ValidKey(k)
    ensures RowIds(all, table) == RowIds(recorded, table) + RowIds(all - recorded, table)
    ensures RowIds(recorded, table) !! RowIds(all - recorded, table)
  {
    forall k | k in all - recorded && k.row.table == table
      ensures k.row.id !in RowIds(recorded, table)
    {
      RowById(recorded, table, k.row.id);
      WholeHolds(recorded, k);
      assert k.row == RowKey(table, k.row.id);
    }
    hide WholeRows, ValidKey;
  }

  lemma DocumentRows(m: Manifest, table: Table)
    requires ValidDocument(m)
    ensures WholeRows(KeysOf(m.cells))
    ensures |RowIds(KeysOf(m.cells), table)| == if table == Execution then m.executionCount else m.eventCount
  {
    hide KeysOf, WholeRows, RowIds, Populated, DistinctKeys, ValidHeader;
  }

  lemma RecordedWithin(s: Store, m: Manifest, baseline: Instant, promoted: map<CellKey, Instant>)
    requires CellsVerified(s, m, baseline, promoted)
    ensures KeysOf(m.cells) <= s.cells.Keys + s.tombstones.Keys
  {
    forall k | k in KeysOf(m.cells)
      ensures k in s.cells.Keys + s.tombstones.Keys
    {
      var p :| p in m.cells && p.key == k;
      assert CellVerified(s, p, baseline, Lookup(promoted, p.key));
    }
  }

  /** In a verified store the live and the deleted rows of a table together are the recorded ones and the later ones,
      none counted twice. */
  lemma RowsAccounted(s: Store, m: Manifest, baseline: Instant, promoted: map<CellKey, Instant>, table: Table)
    requires ValidDocument(m) && CellsVerified(s, m, baseline, promoted) && s.cells.Keys !! s.tombstones.Keys
    requires WholeRows(s.cells.Keys) && WholeRows(s.tombstones.Keys)
    requires forall k :: k in s.cells.Keys + s.tombstones.Keys ==> ValidKey(k)
    ensures |RowIds(s.cells.Keys, table)| + |RowIds(s.tombstones.Keys, table)|
            == (if table == Execution then m.executionCount else m.eventCount) + |LaterRows(s, m, table)|
  {
    var live, dead, recorded := s.cells.Keys, s.tombstones.Keys, KeysOf(m.cells);
    hide ValidDocument, CellsVerified, ValidKey, KeysOf, WholeRows, RowIds;
    DocumentRows(m, table);
    RecordedWithin(s, m, baseline, promoted);
    RowsApart(live, dead, table);
    RowsBeyond(live + dead, recorded, table);
    RowIdsUnion(live, dead, table);
    DisjointCount(RowIds(live, table), RowIds(dead, table));
    DisjointCount(RowIds(recorded, table), RowIds(live + dead - recorded, table));
  }

  lemma RowIdsUnion(a: set<CellKey>, b: set<CellKey>, table: Table)
    ensures RowIds(a + b, table) == RowIds(a, table) + RowIds(b, table)
  {
  }

  lemma DisjointCount(a: set<Id>, b: set<Id>)
    requires a !! b
    ensures |a + b| == |a| + |b|
  {
  }

  /** The cell checks of verification: recorded cells first, then every cell left over. */
  method VerifyCells(s: Store, m: Manifest, baseline: Instant, promoted: map<CellKey, Instant>) returns (r: Result<Report>)
    requires DistinctKeys(m.cells) && s.cells.Keys !! s.tombstones.Keys
    ensures r.Ok? <==> CellsVerified(s, m, baseline, promoted)
    ensures r.Ok? ==> Accounts(s, m, r.value)
  {
    var executions, events := CollectRows(s.cells.Keys);
    var deletedExecutions, deletedEvents := CollectRows(s.tombstones.Keys);
    var recorded, current, dead := CheckRecorded(s, m.cells, baseline, promoted);
    RecordedDecide(s, m, baseline, promoted);
    if recorded.Err? {
      return Err(recorded.message);
    }
    PrefixKeysWhole(m.cells);
    LaterDecide(s, KeysOf(m.cells), baseline, current, dead);
    var live := CheckLater(LiveViews(s, current), baseline);
    var deleted := CheckLater(DeadViews(dead), baseline);
    if live.Err? || deleted.Err? {
      return Err("post-manifest pair");
    }
    r := Ok(recorded.value.(source := Rows(m.executionCount, m.eventCount), current := Rows(|executions|, |events|),
                            deleted := Rows(|deletedExecutions|, |deletedEvents|), provenanceRows := |m.cells|, tombstoneRows := |s.tombstones|,
                            postManifestPaired := live.value + deleted.value));
    AccountsHold(s, m, r.value, current, dead);
  }
}

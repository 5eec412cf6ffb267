/** Deployment log records: enumerating resource names by skipping along an index, and trimming each resource's
    log to its newest entries. */
module LogRecords {
  import opened Wrappers
  import opened Ordering

  type Id = nat

  datatype Record = Record(deployment: Id, revision: Id, resource: string, timestamp: int, id: Id)

  datatype Revision = Revision(id: Id, deployment: Id, createdAt: int)

  // ---------------------------------------------------------------- the skip scan

  predicate Named(r: Record, deployment: Id, above: Option<string>) {
    r.deployment == deployment && (above.Some? ==> TextLess(above.value, r.resource))
  }

  /** SELECT MIN(resource) of the deployment's records, above a given name if there is one; NULL if none. */
  function MinResource(records: seq<Record>, deployment: Id, above: Option<string>): Option<string> {
    if records == [] then None
    else
      var rest := MinResource(records[1..], deployment, above);
      if Named(records[0], deployment, above) && (rest.None? || TextLess(records[0].resource, rest.value)) then
        Some(records[0].resource)
      else rest
  }

  lemma {:induction false} MinIsLeast(records: seq<Record>, deployment: Id, above: Option<string>)
    ensures var m := MinResource(records, deployment, above);
            && (m.None? <==> forall r :: r in records ==> !Named(r, deployment, above))
            && (m.Some? ==> (exists r :: r in records && Named(r, deployment, above) && r.resource == m.value)
                            && forall r :: r in records && Named(r, deployment, above) ==> !TextLess(r.resource, m.value))
  {
    if records != [] {
      MinIsLeast(records[1..], deployment, above);
      TextOrder();
      hide TextLess;
      assert forall r :: r in records <==> r == records[0] || r in records[1..];
    }
  }

  ghost function NamesAbove(records: seq<Record>, deployment: Id, above: Option<string>): set<string> {
    set r | r in records && Named(r, deployment, above) :: r.resource
  }

  /** The recursive query: the least name, then the least name above the last one, until there is none. */
  method SkipScan(records: seq<Record>, deployment: Id) returns (names: seq<string>)
    ensures Ascending(names, TextLess)
    ensures forall n :: n in names <==> n in NamesAbove(records, deployment, None)
  {
    TextOrder();
    hide TextLess;
    names := [];
    var current := MinResource(records, deployment, None);
    MinIsLeast(records, deployment, None);
    ghost var last: Option<string> := None;
    while current.Some?
      invariant current == MinResource(records, deployment, last)
      invariant Ascending(names, TextLess)
      invariant last == if names == [] then None else Some(names[|names| - 1])
      invariant forall n :: n in NamesAbove(records, deployment, None) <==>
                            n in names || n in NamesAbove(records, deployment, last)
      invariant forall n, m :: n in names && m in NamesAbove(records, deployment, last) ==> TextLess(n, m)
      decreases NamesAbove(records, deployment, last)
    {
      MinIsLeast(records, deployment, last);
      Skips(records, deployment, last, current.value);
      names := names + [current.value];
      last := current;
      current := MinResource(records, deployment, current);
    }
    MinIsLeast(records, deployment, last);
  }

  /** Skipping to the least name above leaves everything else above it. */
  lemma Skips(records: seq<Record>, deployment: Id, last: Option<string>, m: string)
    requires MinResource(records, deployment, last) == Some(m)
    ensures m in NamesAbove(records, deployment, last) && m !in NamesAbove(records, deployment, Some(m))
    ensures NamesAbove(records, deployment, last) == {m} + NamesAbove(records, deployment, Some(m))
    ensures forall n :: n in NamesAbove(records, deployment, Some(m)) ==> TextLess(m, n)
  {
    MinIsLeast(records, deployment, last);
    TextOrder();
    hide TextLess, MinResource;
  }

  /** SELECT DISTINCT resource ORDER BY resource. */
  function DistinctResources(records: seq<Record>, deployment: Id): seq<string> {
    if records == [] then []
    else if records[0].deployment == deployment then Placed(records[0].resource, DistinctResources(records[1..], deployment))
    else DistinctResources(records[1..], deployment)
  }

  function Placed(n: string, names: seq<string>): seq<string> {
    if names == [] then [n]
    else if names[0] == n then names
    else if TextLess(names[0], n) then [names[0]] + Placed(n, names[1..])
    else [n] + names
  }

  lemma {:induction false} PlacedOnce(n: string, names: seq<string>)
    requires Ascending(names, TextLess)
    ensures Ascending(Placed(n, names), TextLess) && forall m :: m in Placed(n, names) <==> m == n || m in names
  {
    TextOrder();
    hide TextLess;
    if names != [] {
      PlacedOnce(n, names[1..]);
      assert forall m :: m in names <==> m == names[0] || m in names[1..];
      forall m | m in names[1..]
        ensures TextLess(names[0], m)
      {
        var i :| 0 <= i < |names[1..]| && names[1..][i] == m;
        assert names[i + 1] == m;
      }
    }
  }

  lemma {:induction false} DistinctIsAscending(records: seq<Record>, deployment: Id)
    ensures Ascending(DistinctResources(records, deployment), TextLess)
    ensures forall n :: n in DistinctResources(records, deployment) <==> n in NamesAbove(records, deployment, None)
  {
    if records != [] {
      DistinctIsAscending(records[1..], deployment);
      assert forall r :: r in records <==> r == records[0] || r in records[1..];
      if records[0].deployment == deployment {
        PlacedOnce(records[0].resource, DistinctResources(records[1..], deployment));
      }
    }
  }

  // ---------------------------------------------------------------- active and archived

  predicate Later(a: Revision, b: Revision) {
    a.createdAt > b.createdAt
  }

  function OfDeployment(revisions: seq<Revision>, deployment: Id): seq<Revision> {
    if revisions == [] then []
    else if revisions[0].deployment == deployment then [revisions[0]] + OfDeployment(revisions[1..], deployment)
    else OfDeployment(revisions[1..], deployment)
  }

  /** The deployment's five latest revisions. */
  function LatestRevisions(revisions: seq<Revision>, deployment: Id): seq<Revision> {
    var sorted := StableSort(OfDeployment(revisions, deployment), Later);
    if |sorted| > 5 then sorted[..5] else sorted
  }

  predicate Logs(records: seq<Record>, latest: seq<Revision>, name: string) {
    exists r, v :: r in records && v in latest && r.revision == v.id && r.resource == name
  }

  lemma {:induction false} OfDeploymentMeans(revisions: seq<Revision>, deployment: Id)
    ensures forall v :: v in OfDeployment(revisions, deployment) <==> v in revisions && v.deployment == deployment
  {
    if revisions != [] {
      OfDeploymentMeans(revisions[1..], deployment);
      assert forall v :: v in revisions <==> v == revisions[0] || v in revisions[1..];
    }
  }

  lemma LaterOrder()
    ensures WeakOrder(Later)
  {
  }

  /** The latest revisions are at most five of the deployment's, none left out is later than one of them, and with fewer
      than five none is left out. */
  lemma LatestMeans(revisions: seq<Revision>, deployment: Id)
    ensures var latest := LatestRevisions(revisions, deployment);
            && |latest| <= 5 && (forall v :: v in latest ==> v in revisions && v.deployment == deployment)
            && forall o :: o in revisions && o.deployment == deployment && o !in latest ==>
                 |latest| == 5 && forall v :: v in latest ==> o.createdAt <= v.createdAt
  {
    var all := OfDeployment(revisions, deployment);
    var sorted := StableSort(all, Later);
    OfDeploymentMeans(revisions, deployment);
    LaterOrder();
    StableSortSorts(all, Later);
    StableSortPermutes(all, Later);
    SameMembers(sorted, all);
    var latest := LatestRevisions(revisions, deployment);
    hide StableSort, OfDeployment;
    forall o | o in all && o !in latest
      ensures |latest| == 5 && forall v :: v in latest ==> o.createdAt <= v.createdAt
    {
      var i :| 0 <= i < |sorted| && sorted[i] == o;
      assert forall k :: 0 <= k < |latest| ==> sorted[k] == latest[k] && sorted[k] in latest;
      forall v | v in latest
        ensures o.createdAt <= v.createdAt
      {
        var j :| 0 <= j < |latest| && latest[j] == v;
        assert sorted[j] == v && !Later(sorted[i], sorted[j]);
      }
    }
  }

  function IdsOf(revisions: seq<Revision>): set<Id> {
    set v | v in revisions :: v.id
  }

  /** A name is logged by a record of one of the revisions. */
  lemma LogsMean(records: seq<Record>, latest: seq<Revision>, name: string)
    ensures Logs(records, latest, name) <==> exists r :: r in records && r.resource == name && r.revision in IdsOf(latest)
  {
    if r, v :| r in records && v in latest && r.revision == v.id && r.resource == name {
      assert r.revision in IdsOf(latest);
    }
  }

  lemma NextIsLast(names: seq<string>, i: nat, some: seq<string>)
    requires Ascending(names, TextLess) && i < |names| && Ascending(some, TextLess)
    requires forall n :: n in some ==> n in names[..i]
    ensures Ascending(some + [names[i]], TextLess)
  {
    hide TextLess;
    forall n | n in some
      ensures TextLess(n, names[i])
    {
      var j :| 0 <= j < i && names[..i][j] == n;
      assert names[j] == n;
    }
  }

  /** The first names, parted into those the latest revisions log and the others, each in order. */
  ghost predicate Parted(records: seq<Record>, latest: seq<Revision>, names: seq<string>, i: nat, active: seq<string>,
                         archived: seq<string>) {
    && i <= |names| && Ascending(active, TextLess) && Ascending(archived, TextLess) && |active| + |archived| == i
    && (forall n :: n in active || n in archived <==> n in names[..i])
    && (forall n :: n in active ==> Logs(records, latest, n))
    && (forall n :: n in archived ==> !Logs(records, latest, n))
  }

  lemma NoneParted(records: seq<Record>, latest: seq<Revision>, names: seq<string>)
    ensures Parted(records, latest, names, 0, [], [])
  {
  }

  lemma PartedWhole(records: seq<Record>, latest: seq<Revision>, names: seq<string>, active: seq<string>, archived: seq<string>)
    requires Parted(records, latest, names, |names|, active, archived)
    ensures Ascending(active, TextLess) && Ascending(archived, TextLess) && |active| + |archived| == |names|
    ensures forall n :: n in active || n in archived <==> n in names
    ensures forall n :: n in active ==> Logs(records, latest, n)
    ensures forall n :: n in archived ==> !Logs(records, latest, n)
  {
    hide Ascending, Logs;
    assert names[..|names|] == names;
  }

  lemma PartedNext(records: seq<Record>, latest: seq<Revision>, names: seq<string>, i: nat, active: seq<string>, archived: seq<string>)
    requires Parted(records, latest, names, i, active, archived) && i < |names| && Ascending(names, TextLess)
    ensures if Logs(records, latest, names[i]) then Parted(records, latest, names, i + 1, active + [names[i]], archived)
            else Parted(records, latest, names, i + 1, active, archived + [names[i]])
  {
    hide Ascending, TextLess, Logs;
    NextIsLast(names, i, active);
    NextIsLast(names, i, archived);
    assert names[..i + 1] == names[..i] + [names[i]];
  }

  /** The resources of a deployment, split by whether a recent revision still logs them. */
  method Resources(records: seq<Record>, revisions: seq<Revision>, deployment: Id)
    returns (active: seq<string>, archived: seq<string>)
    ensures Ascending(active, TextLess) && Ascending(archived, TextLess)
    ensures forall n :: n in active || n in archived <==> n in DistinctResources(records, deployment)
    ensures |active| + |archived| == |DistinctResources(records, deployment)|
    ensures forall n :: n in active ==> Logs(records, LatestRevisions(revisions, deployment), n)
    ensures forall n :: n in archived ==> !Logs(records, LatestRevisions(revisions, deployment), n)
  {
    var latest := LatestRevisions(revisions, deployment);
    var names := SkipScan(records, deployment);
    DistinctIsAscending(records, deployment);
    TextOrder();
    AscendingUnique(names, DistinctResources(records, deployment), TextLess);
    hide TextLess, LatestRevisions, DistinctResources, Ascending, Logs, Parted;
    NoneParted(records, latest, names);
    active, archived := [], [];
    for i := 0 to |names|
      invariant Parted(records, latest, names, i, active, archived)
    {
      PartedNext(records, latest, names, i, active, archived);
      if Logs(records, latest, names[i]) {
        active := active + [names[i]];
      } else {
        archived := archived + [names[i]];
      }
    }
    PartedWhole(records, latest, names, active, archived);
  }

  // ---------------------------------------------------------------- retention

  datatype Group = Group(deployment: Id, resource: string)

  datatype Pivot = Pivot(group: Group, timestamp: int)

  function GroupOf(r: Record): Group {
    Group(r.deployment, r.resource)
  }

  function Members(records: set<Record>, g: Group): set<Record> {
    set r | r in records && GroupOf(r) == g
  }

  function Newer(records: set<Record>, p: Pivot): set<Record> {
    set r | r in records && GroupOf(r) == p.group && r.timestamp > p.timestamp
  }

  function Hit(records: set<Record>, p: Pivot): set<Record> {
    set r | r in records && GroupOf(r) == p.group && r.timestamp <= p.timestamp
  }

  /** The record of this rank in its group, newest first from rank 1, has this timestamp, however ties are ranked. */
  predicate AtRank(records: set<Record>, rank: nat, p: Pivot) {
    && |Newer(records, p)| < rank
    && rank <= |Newer(records, p)| + |set r | r in Members(records, p.group) && r.timestamp == p.timestamp|
  }

  /** The newest record beyond the limit. */
  predicate IsPivot(records: set<Record>, limit: nat, p: Pivot) {
    AtRank(records, limit + 1, p)
  }

  /** The ranking query's answer: one pivot for every group with more than `limit` records. */
  ghost predicate Ranked(records: set<Record>, limit: nat, pivots: seq<Pivot>) {
    && (forall p :: p in pivots ==> IsPivot(records, limit, p))
    && (forall i, j :: 0 <= i < j < |pivots| ==> pivots[i].group != pivots[j].group)
    && (forall g :: |Members(records, g)| > limit ==> exists p :: p in pivots && p.group == g)
  }

  class LogTable {
    var records: set<Record>

    constructor (rs: set<Record>)
      ensures records == rs
    {
      records := rs;
    }

    /** Deletes each pivot and everything no newer in its group; a failed statement skips its group. */
    method Cleanup(pivots: seq<Pivot>, fails: Pivot -> bool) returns (deleted: nat, errors: nat)
      modifies this
      ensures records == set r | r in old(records) && !exists p :: p in pivots && !fails(p) && r in Hit(old(records), p)
      ensures deleted == |old(records)| - |records|
      ensures errors == 0 <==> forall p :: p in pivots ==> !fails(p)
    {
      ghost var before := records;
      deleted, errors := 0, 0;
      for i := 0 to |pivots|
        invariant records == set r | r in before && !exists p :: p in pivots[..i] && !fails(p) && r in Hit(before, p)
        invariant deleted + |records| == |before|
        invariant errors == 0 <==> forall p :: p in pivots[..i] ==> !fails(p)
      {
        assert pivots[..i + 1] == pivots[..i] + [pivots[i]];
        if fails(pivots[i]) {
          errors := errors + 1;
        } else {
          var hit := Hit(records, pivots[i]);
          assert records == (records - hit) + hit;
          deleted := deleted + |hit|;
          records := records - hit;
        }
      }
      assert pivots[..|pivots|] == pivots;
    }
  }

  ghost function Kept(records: set<Record>, pivots: seq<Pivot>): set<Record> {
    set r | r in records && !exists p :: p in pivots && r in Hit(records, p)
  }

  lemma OnePivot(pivots: seq<Pivot>, p: Pivot, q: Pivot)
    requires forall i, j :: 0 <= i < j < |pivots| ==> pivots[i].group != pivots[j].group
    requires p in pivots && q in pivots
    ensures p.group == q.group ==> p == q
  {
    var i :| 0 <= i < |pivots| && pivots[i] == p;
    var j :| 0 <= j < |pivots| && pivots[j] == q;
  }

  lemma KeptOfPivot(records: set<Record>, limit: nat, pivots: seq<Pivot>, p: Pivot)
    requires Ranked(records, limit, pivots) && p in pivots
    ensures Members(Kept(records, pivots), p.group) == Newer(records, p)
  {
    forall r | r in Newer(records, p)
      ensures r in Kept(records, pivots)
    {
      forall q | q in pivots
        ensures r !in Hit(records, q)
      {
        OnePivot(pivots, p, q);
      }
    }
  }

  lemma PivotMeansLarge(records: set<Record>, limit: nat, p: Pivot)
    requires IsPivot(records, limit, p)
    ensures |Members(records, p.group)| > limit
  {
    var same := set r | r in Members(records, p.group) && r.timestamp == p.timestamp;
    var older := set r | r in Members(records, p.group) && r.timestamp < p.timestamp;
    assert Members(records, p.group) == Newer(records, p) + same + older;
  }

  /** Each rank has one timestamp, and a later rank never a newer one. */
  lemma RanksDescend(records: set<Record>, i: nat, p: Pivot, j: nat, q: Pivot)
    requires p.group == q.group && AtRank(records, i, p) && AtRank(records, j, q) && i <= j
    ensures q.timestamp <= p.timestamp
  {
    if p.timestamp < q.timestamp {
      var at := set r | r in Members(records, q.group) && r.timestamp == q.timestamp;
      assert Newer(records, q) !! at;
      assert |Newer(records, q) + at| == |Newer(records, q)| + |at|;
      SubsetSmaller(Newer(records, q) + at, Newer(records, p));
    }
  }

  /** The limit-th newest record of the group and the one after it have one timestamp. */
  ghost predicate SharedAtLimit(records: set<Record>, limit: nat, g: Group) {
    exists p: Pivot :: p.group == g && AtRank(records, limit, p) && AtRank(records, limit + 1, p)
  }

  /** Fewer than `limit` records are newer than the pivot exactly when the record of rank `limit` shares its timestamp. */
  lemma PivotShared(records: set<Record>, limit: nat, p: Pivot)
    requires IsPivot(records, limit, p)
    ensures |Newer(records, p)| < limit <==> SharedAtLimit(records, limit, p.group)
  {
    if |Newer(records, p)| < limit {
      assert AtRank(records, limit, p);
    }
    if SharedAtLimit(records, limit, p.group) {
      var q: Pivot :| q.group == p.group && AtRank(records, limit, q) && AtRank(records, limit + 1, q);
      RanksDescend(records, limit + 1, p, limit + 1, q);
      RanksDescend(records, limit + 1, q, limit + 1, p);
    }
  }

  /** A group keeps at most `limit` records, the newest ones. Over the limit it keeps the records newer than the
      newest one beyond the limit: exactly `limit` of them, and fewer exactly when the limit-th newest record shares
      its timestamp with the next. */
  lemma RetentionKeepsNewest(records: set<Record>, limit: nat, pivots: seq<Pivot>, g: Group)
    requires Ranked(records, limit, pivots)
    ensures var kept := Members(Kept(records, pivots), g);
            && |kept| <= limit
            && (|Members(records, g)| <= limit ==> kept == Members(records, g))
            && (forall r, d :: r in kept && d in Members(records, g) && d !in kept ==> r.timestamp > d.timestamp)
            && (|Members(records, g)| > limit ==> exists p: Pivot :: p.group == g && IsPivot(records, limit, p) && kept == Newer(records, p))
            && (|Members(records, g)| > limit ==> (|kept| < limit <==> SharedAtLimit(records, limit, g)))
  {
    if |Members(records, g)| > limit {
      var p :| p in pivots && p.group == g;
      KeptOfPivot(records, limit, pivots, p);
      PivotShared(records, limit, p);
      assert IsPivot(records, limit, p) && Members(Kept(records, pivots), g) == Newer(records, p);
      hide AtRank, SharedAtLimit;
    } else {
      forall r | r in Members(records, g)
        ensures r in Kept(records, pivots)
      {
        forall p | p in pivots
          ensures r !in Hit(records, p)
        {
          PivotMeansLarge(records, limit, p);
        }
      }
      assert Members(Kept(records, pivots), g) == Members(records, g);
    }
  }

  /** A group over the limit whose records share one timestamp loses all of them. */
  lemma SharedTimestampLosesAll(records: set<Record>, limit: nat, pivots: seq<Pivot>, g: Group, at: int)
    requires Ranked(records, limit, pivots) && |Members(records, g)| > limit
    requires forall r :: r in Members(records, g) ==> r.timestamp == at
    ensures Members(Kept(records, pivots), g) == {}
  {
    var p :| p in pivots && p.group == g;
    KeptOfPivot(records, limit, pivots, p);
    assert p.timestamp < at ==> Newer(records, p) >= Members(records, g);
    assert Newer(records, p) <= Members(records, g);
  }
}

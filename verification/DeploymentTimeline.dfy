/** The deployment timeline: the newest tasks and the newest legacy revisions, merged and cut to a limit. */
module DeploymentTimeline {
  import opened Wrappers
  import opened Ordering

  datatype Source = Task(queueOrder: int) | Legacy

  /** One entry; a legacy revision counts as completed when it was created. */
  datatype Entry = Entry(source: Source, id: string, queuedAt: int, startedAt: Option<int>, completedAt: Option<int>)

  function SortTime(e: Entry): int {
    if e.completedAt.Some? then e.completedAt.value else if e.startedAt.Some? then e.startedAt.value else e.queuedAt
  }

  function QueueOrder(e: Entry): int {
    if e.source.Task? then e.source.queueOrder else 0
  }

  const NIL_TEXT := "00000000-0000-0000-0000-000000000000"

  /** The merge's tie break: the revision id followed by the task id, the missing one all zeroes. */
  function TieText(e: Entry): string {
    if e.source.Task? then NIL_TEXT + e.id else e.id + NIL_TEXT
  }

  /** The two queries' order, newest first. */
  predicate QueryLess(a: Entry, b: Entry) {
    SortTime(a) > SortTime(b)
    || (SortTime(a) == SortTime(b)
        && (QueueOrder(a) > QueueOrder(b) || (QueueOrder(a) == QueueOrder(b) && TextLess(b.id, a.id))))
  }

  predicate MergeLess(a: Entry, b: Entry) {
    SortTime(a) > SortTime(b) || (SortTime(a) == SortTime(b) && TextLess(TieText(b), TieText(a)))
  }

  function Cut<T>(s: seq<T>, limit: nat): seq<T> {
    if limit < |s| then s[..limit] else s
  }

  function ClampedLimit(limit: int): nat {
    if limit <= 0 || limit > 200 then 100 else limit
  }

  /** ORDER BY, newest first, LIMIT. */
  function Newest(rows: seq<Entry>, limit: nat): seq<Entry> {
    Cut(StableSort(rows, QueryLess), limit)
  }

  predicate Distinct<T(==)>(s: seq<T>) {
    forall i, j :: 0 <= i < j < |s| ==> s[i] != s[j]
  }

  predicate NewestFirst(s: seq<Entry>) {
    forall i, j :: 0 <= i < j < |s| ==> SortTime(s[i]) >= SortTime(s[j])
  }

  /** Nothing of `all` that `kept` leaves out is newer than anything it keeps. */
  predicate KeepsNewest(all: seq<Entry>, kept: seq<Entry>) {
    forall o, r :: o in all && o !in kept && r in kept ==> SortTime(o) <= SortTime(r)
  }

  function Shorter(a: nat, b: nat): nat {
    if a < b then a else b
  }

  function Merged(tasks: seq<Entry>, legacy: seq<Entry>, limit: nat, includeLegacy: bool): seq<Entry> {
    if includeLegacy then Cut(StableSort(Newest(tasks, limit) + Newest(legacy, limit), MergeLess), limit)
    else Newest(tasks, limit)
  }

  /** What the timeline reads: every task, and every legacy revision unless only given tasks are asked for. */
  function Shown(tasks: seq<Entry>, legacy: seq<Entry>, includeLegacy: bool): seq<Entry> {
    if includeLegacy then tasks + legacy else tasks
  }

  // ---------------------------------------------------------------- orders and members

  lemma Orders()
    ensures WeakOrder(QueryLess) && WeakOrder(MergeLess)
  {
    TextOrder();
    hide TextLess, SortTime, QueueOrder, TieText;
  }

  lemma DistinctPermutes<T>(a: seq<T>, b: seq<T>)
    requires Permutes(a, b) && Distinct(a)
    ensures Distinct(b)
  {
    DistinctSurvives(a, b, (x: T) => x);
    assert forall i, j :: 0 <= i < j < |b| ==> ((x: T) => x)(b[i]) != ((x: T) => x)(b[j]);
  }

  lemma CutAt(s: seq<Entry>, limit: nat, j: nat)
    requires j < |s|
    ensures j < limit ==> s[j] in Cut(s, limit)
  {
    if j < limit { assert Cut(s, limit)[j] == s[j]; }
  }

  /** A newest-first list cut short keeps the newest. */
  lemma CutKeepsNewest(sorted: seq<Entry>, limit: nat)
    requires NewestFirst(sorted)
    ensures NewestFirst(Cut(sorted, limit)) && KeepsNewest(sorted, Cut(sorted, limit))
    ensures forall e :: e in Cut(sorted, limit) ==> e in sorted
  {
    forall o, r | o in sorted && o !in Cut(sorted, limit) && r in Cut(sorted, limit)
      ensures SortTime(o) <= SortTime(r)
    {
      var j :| 0 <= j < |sorted| && sorted[j] == o;
      var i :| 0 <= i < |Cut(sorted, limit)| && Cut(sorted, limit)[i] == r;
      assert sorted[i] == r && i < limit;
      CutAt(sorted, limit, j);
    }
  }

  lemma NewestKeepsNewest(rows: seq<Entry>, limit: nat)
    requires Distinct(rows)
    ensures var kept := Newest(rows, limit);
            && Distinct(kept) && NewestFirst(kept) && KeepsNewest(rows, kept)
            && |kept| == Shorter(limit, |rows|) && forall e :: e in kept ==> e in rows
  {
    var sorted := StableSort(rows, QueryLess);
    Orders();
    StableSortSorts(rows, QueryLess);
    StableSortPermutes(rows, QueryLess);
    SameMembers(sorted, rows);
    DistinctPermutes(rows, sorted);
    assert NewestFirst(sorted) by {
      forall i, j | 0 <= i < j < |sorted|
        ensures SortTime(sorted[i]) >= SortTime(sorted[j])
      {
        assert !QueryLess(sorted[j], sorted[i]);
      }
    }
    hide StableSort, SortTime, QueryLess;
    CutKeepsNewest(sorted, limit);
  }

  // ---------------------------------------------------------------- the merge loses nothing that belongs

  function Members(s: seq<Entry>): set<Entry> {
    set e | e in s
  }

  lemma {:induction false} MembersCount(s: seq<Entry>)
    ensures |Members(s)| <= |s|
    ensures Distinct(s) ==> |Members(s)| == |s|
  {
    if s == [] {
      assert Members(s) == {};
    } else {
      var front, last := s[..|s| - 1], s[|s| - 1];
      MembersCount(front);
      assert s == front + [last];
      assert Members(s) == Members(front) + {last};
      if Distinct(s) {
        assert last !in front;
      }
    }
  }

  /** If a full page of entries is at least as new as `o`, so is everything the merge keeps. */
  lemma FullPageBounds(merged: seq<Entry>, page: seq<Entry>, limit: nat, o: Entry)
    requires NewestFirst(merged) && Distinct(page) && |page| == limit
    requires forall e :: e in page ==> e in merged && SortTime(o) <= SortTime(e)
    ensures forall r :: r in Cut(merged, limit) ==> SortTime(o) <= SortTime(r)
  {
    forall r | r in Cut(merged, limit)
      ensures SortTime(o) <= SortTime(r)
    {
      var p :| 0 <= p < |Cut(merged, limit)| && Cut(merged, limit)[p] == r;
      assert merged[p] == r;
      if SortTime(r) < SortTime(o) {
        forall e | e in page
          ensures e in merged[..p]
        {
          var i :| 0 <= i < |merged| && merged[i] == e;
          assert i < p;
          assert merged[..p][i] == e;
        }
        MembersCount(page);
        MembersCount(merged[..p]);
        assert Members(page) <= Members(merged[..p]);
        SubsetSmaller(Members(page), Members(merged[..p]));
      }
    }
  }

  function Pages(tasks: seq<Entry>, legacy: seq<Entry>, limit: nat): seq<Entry> {
    Newest(tasks, limit) + Newest(legacy, limit)
  }

  lemma PagesApart(tasks: seq<Entry>, legacy: seq<Entry>, limit: nat)
    requires Distinct(tasks + legacy)
    ensures Distinct(Pages(tasks, legacy, limit))
    ensures |Pages(tasks, legacy, limit)| == Shorter(limit, |tasks|) + Shorter(limit, |legacy|)
    ensures forall e :: e in Pages(tasks, legacy, limit) ==> e in tasks + legacy
  {
    Halves(tasks, legacy);
    NewestKeepsNewest(tasks, limit);
    NewestKeepsNewest(legacy, limit);
    hide Newest, NewestFirst, KeepsNewest;
    var t, l := Newest(tasks, limit), Newest(legacy, limit);
    forall i, j | 0 <= i < j < |t + l|
      ensures (t + l)[i] != (t + l)[j]
    {
      assert i < |t| <= j ==> t[i] in tasks && l[j - |t|] in legacy;
    }
  }

  lemma MergeSorts(tasks: seq<Entry>, legacy: seq<Entry>, limit: nat) returns (merged: seq<Entry>)
    requires Distinct(tasks + legacy)
    ensures merged == StableSort(Newest(tasks, limit) + Newest(legacy, limit), MergeLess)
    ensures NewestFirst(merged) && Distinct(merged)
    ensures |merged| == Shorter(limit, |tasks|) + Shorter(limit, |legacy|)
    ensures forall e :: e in merged <==> e in Newest(tasks, limit) || e in Newest(legacy, limit)
  {
    var both := Pages(tasks, legacy, limit);
    PagesApart(tasks, legacy, limit);
    merged := StableSort(both, MergeLess);
    Orders();
    StableSortSorts(both, MergeLess);
    StableSortPermutes(both, MergeLess);
    hide StableSort, TextLess, TieText, Newest;
    SameMembers(merged, both);
    DistinctPermutes(both, merged);
    forall i, j | 0 <= i < j < |merged|
      ensures SortTime(merged[i]) >= SortTime(merged[j])
    {
      assert !MergeLess(merged[j], merged[i]);
    }
  }

  lemma Halves(tasks: seq<Entry>, legacy: seq<Entry>)
    requires Distinct(tasks + legacy)
    ensures Distinct(tasks) && Distinct(legacy) && forall e :: e in tasks ==> e !in legacy
  {
    var all := tasks + legacy;
    assert forall i :: 0 <= i < |tasks| ==> all[i] == tasks[i];
    assert forall i :: 0 <= i < |legacy| ==> all[|tasks| + i] == legacy[i];
  }

  /** The timeline holds as many entries as there are, up to the limit, newest first, none twice, and no entry
      of either source that it leaves out is newer than one it shows. */
  lemma MergeKeepsNewest(tasks: seq<Entry>, legacy: seq<Entry>, limit: nat)
    requires Distinct(tasks + legacy)
    ensures var items := Merged(tasks, legacy, limit, true);
            && |items| == Shorter(limit, |tasks| + |legacy|)
            && NewestFirst(items) && Distinct(items) && KeepsNewest(tasks + legacy, items)
            && forall e :: e in items ==> e in tasks + legacy
  {
    var merged := MergeSorts(tasks, legacy, limit);
    var items := Cut(merged, limit);
    Halves(tasks, legacy);
    NewestKeepsNewest(tasks, limit);
    NewestKeepsNewest(legacy, limit);
    CutKeepsNewest(merged, limit);
    forall o | o in tasks + legacy && o !in items
      ensures forall r :: r in items ==> SortTime(o) <= SortTime(r)
    {
      OmittedIsOlder(tasks, legacy, limit, merged, o);
    }
  }

  lemma OmittedIsOlder(tasks: seq<Entry>, legacy: seq<Entry>, limit: nat, merged: seq<Entry>, o: Entry)
    requires Distinct(tasks) && Distinct(legacy) && NewestFirst(merged)
    requires forall e :: e in merged <==> e in Newest(tasks, limit) || e in Newest(legacy, limit)
    requires o in tasks + legacy && o !in Cut(merged, limit)
    ensures forall r :: r in Cut(merged, limit) ==> SortTime(o) <= SortTime(r)
  {
    var rows := if o in tasks then tasks else legacy;
    NewestKeepsNewest(rows, limit);
    CutKeepsNewest(merged, limit);
    hide Cut, Newest;
    if o !in merged {
      MissedMeansFull(rows, Newest(rows, limit), limit, o);
      FullPageBounds(merged, Newest(rows, limit), limit, o);
    }
  }

  lemma MissedMeansFull(rows: seq<Entry>, kept: seq<Entry>, limit: nat, o: Entry)
    requires Distinct(rows) && Distinct(kept) && o in rows && o !in kept
    requires |kept| == Shorter(limit, |rows|) && forall e :: e in kept ==> e in rows
    ensures |kept| == limit
  {
    MembersCount(rows);
    MembersCount(kept);
    SubsetSmaller(Members(kept), Members(rows) - {o});
  }

  lemma MergedShows(tasks: seq<Entry>, legacy: seq<Entry>, limit: nat, includeLegacy: bool)
    requires Distinct(tasks + legacy)
    ensures var items, all := Merged(tasks, legacy, limit, includeLegacy), Shown(tasks, legacy, includeLegacy);
            && |items| == Shorter(limit, |all|) && NewestFirst(items) && Distinct(items) && KeepsNewest(all, items)
            && forall e :: e in items ==> e in all
  {
    hide KeepsNewest, NewestFirst, Newest;
    if includeLegacy {
      MergeKeepsNewest(tasks, legacy, limit);
    } else {
      Halves(tasks, legacy);
      NewestKeepsNewest(tasks, limit);
    }
  }

  /** The entry's time: when it completed, or else started, or else was queued. */
  predicate HappenedAt(e: Entry, t: int) {
    || e.completedAt == Some(t)
    || (e.completedAt == None && e.startedAt == Some(t))
    || (e.completedAt == None && e.startedAt == None && e.queuedAt == t)
  }

  /** In times: the timeline never leaves an entry out for one that happened before it, nor shows them out of order. */
  lemma ShownMeans(tasks: seq<Entry>, legacy: seq<Entry>, limit: nat, includeLegacy: bool)
    requires Distinct(tasks + legacy)
    ensures var items, all := Merged(tasks, legacy, limit, includeLegacy), if includeLegacy then tasks + legacy else tasks;
            && (forall o, e, x, y :: o in all && o !in items && e in items && HappenedAt(o, x) && HappenedAt(e, y) ==> x <= y)
            && (forall i, j, x, y :: 0 <= i < j < |items| && HappenedAt(items[i], x) && HappenedAt(items[j], y) ==> x >= y)
  {
    MergedShows(tasks, legacy, limit, includeLegacy);
    forall e, x
      ensures HappenedAt(e, x) <==> SortTime(e) == x
    {
    }
    hide Merged, HappenedAt, SortTime;
  }

  /** The merged timeline. With task ids given, only those tasks are read and nothing is merged. Whatever the sources,
      it shows as many entries as there are up to the clamped limit, newest first, none twice, and leaves out nothing
      newer than what it shows. */
  method Timeline(tasks: seq<Entry>, legacy: seq<Entry>, requested: int, includeLegacy: bool) returns (items: seq<Entry>)
    ensures items == Merged(tasks, legacy, ClampedLimit(requested), includeLegacy)
    ensures |items| <= 200
    ensures Distinct(tasks + legacy) ==>
              && |items| == Shorter(ClampedLimit(requested), |Shown(tasks, legacy, includeLegacy)|)
              && NewestFirst(items) && Distinct(items) && KeepsNewest(Shown(tasks, legacy, includeLegacy), items)
              && forall e :: e in items ==> e in Shown(tasks, legacy, includeLegacy)
  {
    hide Distinct, NewestFirst, KeepsNewest, StableSort, Shown;
    var limit := requested;
    if limit <= 0 || limit > 200 {
      limit := 100;
    }
    items := Newest(tasks, limit);
    if includeLegacy {
      items := items + Newest(legacy, limit);
      items := StableSort(items, MergeLess);
      if |items| > limit {
        items := items[..limit];
      }
    }
    assert items == Merged(tasks, legacy, ClampedLimit(requested), includeLegacy);
    if Distinct(tasks + legacy) { MergedShows(tasks, legacy, limit, includeLegacy); }
  }

  // ---------------------------------------------------------------- against the simple form

  predicate TimesDiffer(all: seq<Entry>) {
    forall a, b :: a in all && b in all && a != b ==> SortTime(a) != SortTime(b)
  }

  /** When no two entries have the same time, the two capped queries and the merge show exactly what sorting
      everything and cutting once would. */
  lemma MergeIsOneSort(tasks: seq<Entry>, legacy: seq<Entry>, limit: nat)
    requires Distinct(tasks + legacy)
    requires TimesDiffer(tasks + legacy)
    ensures Merged(tasks, legacy, limit, true) == Cut(StableSort(tasks + legacy, MergeLess), limit)
  {
    var all := tasks + legacy;
    var items, sorted := Merged(tasks, legacy, limit, true), StableSort(all, MergeLess);
    MergeKeepsNewest(tasks, legacy, limit);
    Orders();
    StableSortSorts(all, MergeLess);
    StableSortPermutes(all, MergeLess);
    SameMembers(sorted, all);
    DistinctPermutes(all, sorted);
    hide StableSort, TextLess, TieText, Merged;
    forall i, j | 0 <= i < j < |sorted|
      ensures SortTime(sorted[i]) >= SortTime(sorted[j])
    {
      assert !MergeLess(sorted[j], sorted[i]);
    }
    CutKeepsNewest(sorted, limit);
    SameNewest(all, items, Cut(sorted, limit));
  }

  /** A newest-first selection that keeps the newest. */
  predicate NewestOf(all: seq<Entry>, kept: seq<Entry>) {
    NewestFirst(kept) && Distinct(kept) && KeepsNewest(all, kept) && forall e :: e in kept ==> e in all
  }

  /** When times differ there is one such selection of each length. */
  lemma SameNewest(all: seq<Entry>, a: seq<Entry>, b: seq<Entry>)
    requires TimesDiffer(all) && NewestOf(all, a) && NewestOf(all, b) && |a| == |b|
    ensures a == b
  {
    hide TimesDiffer, NewestOf;
    SamePrefix(all, a, b, |a|);
  }

  lemma {:induction false} SamePrefix(all: seq<Entry>, a: seq<Entry>, b: seq<Entry>, n: nat)
    requires TimesDiffer(all) && NewestOf(all, a) && NewestOf(all, b) && n <= |a| == |b|
    ensures forall k :: 0 <= k < n ==> a[k] == b[k]
  {
    hide TimesDiffer, NewestOf;
    if n > 0 {
      SamePrefix(all, a, b, n - 1);
      SameNext(all, a, b, n - 1);
    }
  }

  lemma SameNext(all: seq<Entry>, a: seq<Entry>, b: seq<Entry>, n: nat)
    requires TimesDiffer(all) && NewestOf(all, a) && NewestOf(all, b) && n < |a| == |b|
    requires forall k :: 0 <= k < n ==> a[k] == b[k]
    ensures a[n] == b[n]
  {
    assert a[n] in a && b[n] in b;
    hide NewestFirst, Distinct, KeepsNewest, SortTime;
    NotNewer(all, a, b, n);
    NotNewer(all, b, a, n);
  }

  lemma NotNewer(all: seq<Entry>, a: seq<Entry>, b: seq<Entry>, n: nat)
    requires n < |a| == |b| && Distinct(a) && NewestFirst(b) && KeepsNewest(all, b) && a[n] in all
    requires forall k :: 0 <= k < n ==> a[k] == b[k]
    ensures SortTime(a[n]) <= SortTime(b[n])
  {
    if a[n] in b {
      var k :| 0 <= k < |b| && b[k] == a[n];
      assert n <= k;
    } else {
      assert b[n] in b;
    }
  }

  // ---------------------------------------------------------------- ties at the cut of the task page

  function IdOf(e: Entry): string {
    e.id
  }

  /** What the two tables' keys give: ids of one length, none twice in one table, and no revision of id zero. */
  predicate Keyed(tasks: seq<Entry>, legacy: seq<Entry>) {
    && (forall e :: e in tasks ==> e.source.Task? && |e.id| == |NIL_TEXT|)
    && (forall e :: e in legacy ==> e.source.Legacy? && |e.id| == |NIL_TEXT| && e.id != NIL_TEXT)
    && DistinctBy(tasks, IdOf) && DistinctBy(legacy, IdOf)
  }

  function Before(rows: seq<Entry>, less: (Entry, Entry) -> bool, o: Entry): set<Entry> {
    set x | x in rows && less(x, o)
  }

  ghost predicate Total(rows: seq<Entry>, less: (Entry, Entry) -> bool) {
    WeakOrder(less) && Distinct(rows) && forall a, b :: a in rows && b in rows && a != b ==> less(a, b) || less(b, a)
  }

  lemma TotalAscends(rows: seq<Entry>, less: (Entry, Entry) -> bool)
    requires Total(rows, less)
    ensures Ascending(StableSort(rows, less), less) && Distinct(StableSort(rows, less))
    ensures |StableSort(rows, less)| == |rows| && forall x :: x in StableSort(rows, less) <==> x in rows
  {
    var sorted := StableSort(rows, less);
    StableSortSorts(rows, less);
    StableSortPermutes(rows, less);
    SameMembers(sorted, rows);
    DistinctPermutes(rows, sorted);
    hide StableSort;
  }

  /** A row is among the first `limit` exactly when fewer than `limit` rows come before it. */
  lemma AscendingRank(sorted: seq<Entry>, less: (Entry, Entry) -> bool, limit: nat, o: Entry)
    requires StrictOrder(less) && Ascending(sorted, less) && Distinct(sorted) && o in sorted
    ensures o in Cut(sorted, limit) <==> |Before(sorted, less, o)| < limit
  {
    var i :| 0 <= i < |sorted| && sorted[i] == o;
    CutAt(sorted, limit, i);
    forall x
      ensures x in Before(sorted, less, o) <==> x in sorted[..i]
    {
      if x in sorted && less(x, o) {
        var j :| 0 <= j < |sorted| && sorted[j] == x;
        assert j < i;
        assert sorted[..i][j] == x;
      }
    }
    assert Before(sorted, less, o) == Members(sorted[..i]);
    assert Distinct(sorted[..i]);
    MembersCount(sorted[..i]);
  }

  lemma SortedRank(rows: seq<Entry>, less: (Entry, Entry) -> bool, limit: nat, o: Entry)
    requires Total(rows, less) && o in rows
    ensures o in Cut(StableSort(rows, less), limit) <==> |Before(rows, less, o)| < limit
  {
    TotalAscends(rows, less);
    hide StableSort, Ascending;
    AscendingRank(StableSort(rows, less), less, limit, o);
    assert Before(StableSort(rows, less), less, o) == Before(rows, less, o);
  }

  lemma SameId(rows: seq<Entry>, a: Entry, b: Entry)
    requires DistinctBy(rows, IdOf) && a in rows && b in rows && a.id == b.id
    ensures a == b
  {
    var i :| 0 <= i < |rows| && rows[i] == a;
    var j :| 0 <= j < |rows| && rows[j] == b;
    assert IdOf(rows[i]) == IdOf(rows[j]);
  }

  lemma TiesApart(tasks: seq<Entry>, legacy: seq<Entry>, a: Entry, b: Entry)
    requires Keyed(tasks, legacy) && a in tasks + legacy && b in tasks + legacy && TieText(a) == TieText(b)
    ensures a == b
  {
    var n := |NIL_TEXT|;
    assert TieText(a)[..n] == TieText(b)[..n] && TieText(a)[n..] == TieText(b)[n..];
    assert a.source.Task? ==> TieText(a)[..n] == NIL_TEXT && TieText(a)[n..] == a.id;
    assert b.source.Task? ==> TieText(b)[..n] == NIL_TEXT && TieText(b)[n..] == b.id;
    assert a.source.Legacy? ==> TieText(a)[..n] == a.id;
    assert b.source.Legacy? ==> TieText(b)[..n] == b.id;
    SameId(if a in tasks then tasks else legacy, a, b);
  }

  lemma KeyedDistinct(tasks: seq<Entry>, legacy: seq<Entry>)
    requires Keyed(tasks, legacy)
    ensures Distinct(tasks + legacy)
  {
    var all := tasks + legacy;
    forall i, j | 0 <= i < j < |all|
      ensures all[i] != all[j]
    {
      if j < |tasks| {
        assert IdOf(tasks[i]) != IdOf(tasks[j]);
      } else if |tasks| <= i {
        assert IdOf(legacy[i - |tasks|]) != IdOf(legacy[j - |tasks|]);
      } else {
        assert all[i] in tasks && all[j] in legacy;
      }
    }
  }

  lemma MergeTotal(tasks: seq<Entry>, legacy: seq<Entry>)
    requires Keyed(tasks, legacy)
    ensures Total(tasks + legacy, MergeLess)
  {
    Orders();
    TextOrder();
    KeyedDistinct(tasks, legacy);
    forall a, b | a in tasks + legacy && b in tasks + legacy && a != b
      ensures MergeLess(a, b) || MergeLess(b, a)
    {
      if TieText(a) == TieText(b) { TiesApart(tasks, legacy, a, b); }
      hide TextLess, TieText, SortTime, Keyed;
    }
  }

  lemma PageIsTotal(tasks: seq<Entry>, legacy: seq<Entry>, pool: seq<Entry>)
    requires Keyed(tasks, legacy) && Distinct(pool) && forall e :: e in pool ==> e in tasks + legacy
    ensures Total(pool, MergeLess)
  {
    MergeTotal(tasks, legacy);
    hide MergeLess, Distinct, Keyed;
  }

  /** The revisions' own page is in the merge's order. */
  lemma LegacyOrder(tasks: seq<Entry>, legacy: seq<Entry>)
    requires Keyed(tasks, legacy)
    ensures forall a, b :: a in legacy && b in legacy ==> (QueryLess(a, b) <==> MergeLess(a, b))
    ensures Total(legacy, QueryLess)
  {
    forall a, b | a in legacy && b in legacy
      ensures QueryLess(a, b) <==> MergeLess(a, b)
    {
      TextAppended(b.id, a.id, NIL_TEXT);
      TextIrreflexive(a.id);
    }
    KeyedDistinct(tasks, legacy);
    Halves(tasks, legacy);
    PageIsTotal(tasks, legacy, legacy);
    Orders();
    hide MergeLess, QueryLess, Distinct, Keyed;
  }

  /** One sort of everything, cut once: the simple form of the timeline. */
  function OneSort(tasks: seq<Entry>, legacy: seq<Entry>, limit: nat): seq<Entry> {
    Cut(StableSort(tasks + legacy, MergeLess), limit)
  }

  /** A revision the simple form shows is on the revisions' page. */
  lemma LegacyStays(tasks: seq<Entry>, legacy: seq<Entry>, limit: nat, o: Entry)
    requires Keyed(tasks, legacy) && o in legacy && o in OneSort(tasks, legacy, limit)
    ensures o in Newest(legacy, limit)
  {
    LegacyOrder(tasks, legacy);
    MergeTotal(tasks, legacy);
    hide StableSort, MergeLess, QueryLess, Keyed, Total;
    SortedRank(tasks + legacy, MergeLess, limit, o);
    SortedRank(legacy, QueryLess, limit, o);
    SubsetSmaller(Before(legacy, QueryLess, o), Before(tasks + legacy, MergeLess, o));
  }

  lemma CutAscends(sorted: seq<Entry>, less: (Entry, Entry) -> bool, limit: nat)
    requires Ascending(sorted, less) && Distinct(sorted)
    ensures Ascending(Cut(sorted, limit), less) && Distinct(Cut(sorted, limit))
    ensures |Cut(sorted, limit)| == Shorter(limit, |sorted|) && forall e :: e in Cut(sorted, limit) ==> e in sorted
  {
  }

  /** Two ascending lists of one length, one within the other, are one list. */
  lemma WithinIsSame(a: seq<Entry>, b: seq<Entry>, less: (Entry, Entry) -> bool)
    requires StrictOrder(less) && Ascending(a, less) && Ascending(b, less) && Distinct(a) && Distinct(b)
    requires |a| == |b| && forall e :: e in a ==> e in b
    ensures a == b
  {
    MembersCount(a);
    MembersCount(b);
    SubsetSmaller(Members(a), Members(b));
    forall e
      ensures e in a <==> e in b
    {
      assert e in Members(a) <==> e in Members(b);
    }
    AscendingUnique(a, b, less);
  }

  lemma PagesTotal(tasks: seq<Entry>, legacy: seq<Entry>, limit: nat)
    requires Keyed(tasks, legacy)
    ensures Total(Pages(tasks, legacy, limit), MergeLess)
    ensures forall e :: e in Pages(tasks, legacy, limit) ==> e in tasks + legacy
    ensures |Pages(tasks, legacy, limit)| == Shorter(limit, |tasks|) + Shorter(limit, |legacy|)
  {
    KeyedDistinct(tasks, legacy);
    PagesApart(tasks, legacy, limit);
    hide Keyed, Pages, MergeLess;
    PageIsTotal(tasks, legacy, Pages(tasks, legacy, limit));
  }

  lemma ShownStays(tasks: seq<Entry>, legacy: seq<Entry>, limit: nat, o: Entry)
    requires Keyed(tasks, legacy) && o in OneSort(tasks, legacy, limit) && o in Pages(tasks, legacy, limit)
    ensures o in Merged(tasks, legacy, limit, true)
  {
    MergeTotal(tasks, legacy);
    PagesTotal(tasks, legacy, limit);
    hide StableSort, MergeLess, Keyed, Total, Cut, Newest;
    SortedRank(tasks + legacy, MergeLess, limit, o);
    SortedRank(Pages(tasks, legacy, limit), MergeLess, limit, o);
    SubsetSmaller(Before(Pages(tasks, legacy, limit), MergeLess, o), Before(tasks + legacy, MergeLess, o));
  }

  lemma TopAscends(rows: seq<Entry>, limit: nat)
    requires Total(rows, MergeLess)
    ensures var top := Cut(StableSort(rows, MergeLess), limit);
            && Ascending(top, MergeLess) && Distinct(top) && |top| == Shorter(limit, |rows|)
            && forall e :: e in top ==> e in rows
  {
    TotalAscends(rows, MergeLess);
    hide StableSort, MergeLess, Total;
    CutAscends(StableSort(rows, MergeLess), MergeLess, limit);
  }

  /** The pages decide: the merge is the simple form exactly when all that the simple form shows is on a page. */
  lemma PagesDecide(tasks: seq<Entry>, legacy: seq<Entry>, limit: nat)
    requires Keyed(tasks, legacy)
    ensures Merged(tasks, legacy, limit, true) == OneSort(tasks, legacy, limit)
            <==> forall o :: o in OneSort(tasks, legacy, limit) ==> o in Pages(tasks, legacy, limit)
  {
    MergeTotal(tasks, legacy);
    PagesTotal(tasks, legacy, limit);
    TopAscends(tasks + legacy, limit);
    TopAscends(Pages(tasks, legacy, limit), limit);
    var shown, simple := Merged(tasks, legacy, limit, true), OneSort(tasks, legacy, limit);
    if forall o :: o in simple ==> o in Pages(tasks, legacy, limit) {
      forall o | o in simple
        ensures o in shown
      {
        ShownStays(tasks, legacy, limit, o);
      }
      Orders();
      hide StableSort, MergeLess, Keyed, Total, Cut, Newest, Ascending;
      WithinIsSame(simple, shown, MergeLess);
    }
  }

  // ---------------------------------------------------------------- exactly when the merge is one sort

  /** A task its page leaves out, with the time of one that the page keeps. */
  predicate TiedAtCut(tasks: seq<Entry>, limit: nat, o: Entry) {
    o in tasks && o !in Newest(tasks, limit) && exists k :: k in Newest(tasks, limit) && SortTime(k) == SortTime(o)
  }

  lemma UntiedIsOlder(tasks: seq<Entry>, legacy: seq<Entry>, limit: nat, o: Entry)
    requires Distinct(tasks) && o in tasks && o !in Newest(tasks, limit) && !TiedAtCut(tasks, limit, o)
    ensures limit <= |Before(tasks + legacy, MergeLess, o)|
  {
    var page := Newest(tasks, limit);
    NewestKeepsNewest(tasks, limit);
    hide Newest;
    MissedMeansFull(tasks, page, limit, o);
    MembersCount(page);
    forall k | k in page
      ensures k in Before(tasks + legacy, MergeLess, o)
    {
      assert SortTime(o) <= SortTime(k) && SortTime(k) != SortTime(o);
    }
    SubsetSmaller(Members(page), Before(tasks + legacy, MergeLess, o));
  }

  /** The two queries order tied entries by queue order and id, the merge by id alone. So the merge shows what one sort
      of everything, cut once, would show exactly when every task its page leaves out by a tie has at least `limit`
      entries before it in the merge's own order. Ties among revisions, or within a page, never matter. */
  lemma MergeIsOneSortExactly(tasks: seq<Entry>, legacy: seq<Entry>, limit: nat)
    requires Keyed(tasks, legacy)
    ensures Merged(tasks, legacy, limit, true) == Cut(StableSort(tasks + legacy, MergeLess), limit)
            <==> forall o :: TiedAtCut(tasks, limit, o) ==> limit <= |Before(tasks + legacy, MergeLess, o)|
  {
    PagesDecide(tasks, legacy, limit);
    forall o | o in OneSort(tasks, legacy, limit) && o in legacy
      ensures o in Pages(tasks, legacy, limit)
    {
      LegacyStays(tasks, legacy, limit, o);
    }
    forall o | o in tasks && o !in Newest(tasks, limit)
      ensures o !in Pages(tasks, legacy, limit)
      ensures o !in OneSort(tasks, legacy, limit) <==> limit <= |Before(tasks + legacy, MergeLess, o)|
      ensures !TiedAtCut(tasks, limit, o) ==> limit <= |Before(tasks + legacy, MergeLess, o)|
    {
      LeftOutRank(tasks, legacy, limit, o);
    }
    MergeTotal(tasks, legacy);
    TopAscends(tasks + legacy, limit);
    hide StableSort, MergeLess, Keyed, Total, Cut, Newest, Before, Merged;
  }

  lemma LeftOutRank(tasks: seq<Entry>, legacy: seq<Entry>, limit: nat, o: Entry)
    requires Keyed(tasks, legacy) && o in tasks && o !in Newest(tasks, limit)
    ensures o !in Pages(tasks, legacy, limit)
    ensures o !in OneSort(tasks, legacy, limit) <==> limit <= |Before(tasks + legacy, MergeLess, o)|
    ensures !TiedAtCut(tasks, limit, o) ==> limit <= |Before(tasks + legacy, MergeLess, o)|
  {
    KeyedDistinct(tasks, legacy);
    Halves(tasks, legacy);
    NewestKeepsNewest(legacy, limit);
    MergeTotal(tasks, legacy);
    SortedRank(tasks + legacy, MergeLess, limit, o);
    if !TiedAtCut(tasks, limit, o) { UntiedIsOlder(tasks, legacy, limit, o); }
    hide StableSort, MergeLess, Keyed, Total, Newest, Before, TiedAtCut;
  }

  lemma SortOfTwo(a: Entry, b: Entry, less: (Entry, Entry) -> bool)
    ensures StableSort([a, b], less) == if less(b, a) then [b, a] else [a, b]
  {
    assert [a, b][1..] == [b] && [b][1..] == [];
    assert StableSort([b], less) == Insert(b, [], less) == [b];
    assert Insert(a, [b], less) == if less(b, a) then [b] + Insert(a, [], less) else [a, b];
  }

  /** Two tasks of one time whose ids run against their queue order: with room for one, the page keeps the one queued
      later, where one sort of both shows the one with the greater id. */
  lemma TwoTied(first: Entry, second: Entry)
    requires first.source.Task? && second.source.Task? && SortTime(first) == SortTime(second)
    requires QueueOrder(first) < QueueOrder(second) && TextLess(second.id, first.id)
    ensures Merged([first, second], [], 1, true) == [second]
    ensures Cut(StableSort([first, second] + [], MergeLess), 1) == [first]
  {
    TextPrefixed(NIL_TEXT, second.id, first.id);
    TextIrreflexive(first.id);
    Orders();
    assert MergeLess(first, second) && QueryLess(second, first);
    assert !MergeLess(second, first);
    hide TextLess, TieText, MergeLess, QueryLess, SortTime;
    SortOfTwo(first, second, MergeLess);
    SortOfTwo(first, second, QueryLess);
    assert [first, second] + [] == [first, second];
    assert Newest([first, second], 1) == [second] && Newest([], 1) == [];
    assert [second] + [] == [second] && [second][1..] == [];
    assert StableSort([second], MergeLess) == [second];
  }

  lemma TwoKeyed(first: Entry, second: Entry)
    requires first.source.Task? && second.source.Task? && first.id != second.id
    requires |first.id| == |second.id| == |NIL_TEXT|
    ensures Keyed([first, second], [])
  {
    assert IdOf(first) != IdOf(second);
  }

  lemma QueueAgainstIds()
    ensures var first := Entry(Task(1), "20000000-0000-0000-0000-000000000000", 7, None, None);
            var second := Entry(Task(2), "10000000-0000-0000-0000-000000000000", 7, None, None);
            && Keyed([first, second], [])
            && Merged([first, second], [], 1, true) == [second]
            && Cut(StableSort([first, second] + [], MergeLess), 1) == [first]
  {
    var first := Entry(Task(1), "20000000-0000-0000-0000-000000000000", 7, None, None);
    var second := Entry(Task(2), "10000000-0000-0000-0000-000000000000", 7, None, None);
    assert first.id[0] == '2' && second.id[0] == '1';
    TextIrreflexive(first.id);
    assert TextLess(second.id, first.id);
    hide StableSort, Merged, MergeLess, Keyed, TextLess;
    TwoTied(first, second);
    TwoKeyed(first, second);
  }
}

/** Backfilling compatibility rows for legacy deployment revisions, page by page along (created_at, id). */
module CompatibilityBackfill {
  import opened Wrappers
  import opened Ordering

  type Id = nat

  /** How the insert of a projection ends: the server may refuse it, or it may never be sent. */
  datatype Insert = Inserted | Conflicted | Refused | NotSent

  datatype Revision = Revision(createdAt: int, id: Id, projects: bool, insert: Insert)

  datatype Cursor = Cursor(createdAt: int, id: Id)

  datatype Report = Report(scanned: nat, eligible: nat, projected: nat, alreadyPresent: nat, skipped: nat, failed: nat,
                           lastCursor: Option<Cursor>)

  const EMPTY := Report(0, 0, 0, 0, 0, 0, None)

  // ---------------------------------------------------------------- the keyset query

  predicate Less(a: Revision, b: Revision) {
    a.createdAt < b.createdAt || (a.createdAt == b.createdAt && a.id < b.id)
  }

  function CursorAt(r: Revision): Cursor {
    Cursor(r.createdAt, r.id)
  }

  predicate Beyond(r: Revision, c: Option<Cursor>) {
    c.None? || c.value.createdAt < r.createdAt || (c.value.createdAt == r.createdAt && c.value.id < r.id)
  }

  function Filtered(rows: seq<Revision>, c: Option<Cursor>): seq<Revision> {
    if rows == [] then []
    else if Beyond(rows[0], c) then [rows[0]] + Filtered(rows[1..], c)
    else Filtered(rows[1..], c)
  }

  /** WHERE beyond the cursor, in order. */
  function Listed(revisions: seq<Revision>, c: Option<Cursor>): seq<Revision> {
    Filtered(StableSort(revisions, Less), c)
  }

  function Clamped(batchSize: int): nat {
    if batchSize <= 0 then 500 else if batchSize > 5000 then 5000 else batchSize
  }

  function Page(revisions: seq<Revision>, c: Option<Cursor>, batchSize: int): seq<Revision> {
    var rows := Listed(revisions, c);
    if Clamped(batchSize) < |rows| then rows[..Clamped(batchSize)] else rows
  }

  /** A page holds the first rows: all of them, or as many as asked for, 500 where nothing sensible is asked and never
      more than 5000. */
  lemma PageMeans(revisions: seq<Revision>, c: Option<Cursor>, batchSize: int)
    ensures var all, page := Listed(revisions, c), Page(revisions, c, batchSize);
            && page <= all && |page| <= 5000 && (batchSize > 0 ==> |page| <= batchSize) && (batchSize <= 0 ==> |page| <= 500)
            && (page != all ==> |page| == 5000 || |page| == batchSize || (batchSize <= 0 && |page| == 500))
  {
    hide Listed;
  }

  lemma {:induction false} FilteredMembers(rows: seq<Revision>, c: Option<Cursor>)
    ensures forall r :: r in Filtered(rows, c) <==> r in rows && Beyond(r, c)
  {
    hide Beyond;
    if rows != [] {
      FilteredMembers(rows[1..], c);
      assert forall r :: r in rows <==> r == rows[0] || r in rows[1..];
    }
  }

  lemma {:induction false} FilteredAscends(rows: seq<Revision>, c: Option<Cursor>)
    requires Ascending(rows, Less)
    ensures Ascending(Filtered(rows, c), Less)
  {
    hide Beyond, Less;
    if rows != [] {
      FilteredAscends(rows[1..], c);
      FilteredMembers(rows[1..], c);
      forall r | r in rows[1..]
        ensures Less(rows[0], r)
      {
        var i :| 0 <= i < |rows[1..]| && rows[1..][i] == r;
        assert rows[i + 1] == r;
      }
    }
  }

  lemma {:induction false} FilteredFurther(rows: seq<Revision>, c: Option<Cursor>, r: Revision)
    requires Ascending(rows, Less) && Beyond(r, c)
    ensures Filtered(rows, Some(CursorAt(r))) == Filtered(Filtered(rows, c), Some(CursorAt(r)))
  {
    if rows != [] {
      FilteredFurther(rows[1..], c, r);
      if Beyond(rows[0], c) { assert ([rows[0]] + Filtered(rows[1..], c))[1..] == Filtered(rows[1..], c); }
    }
  }

  /** Continuing after the last row of a page lists exactly the rest. */
  lemma {:induction false} FilteredRest(rows: seq<Revision>, k: nat)
    requires Ascending(rows, Less) && 0 < k <= |rows|
    ensures Filtered(rows, Some(CursorAt(rows[k - 1]))) == rows[k..]
  {
    if k > 1 {
      assert rows[1..][k - 2] == rows[k - 1] && rows[1..][k - 1..] == rows[k..];
      FilteredRest(rows[1..], k - 1);
      assert Less(rows[0], rows[k - 1]);
    } else {
      FilteredAll(rows[1..], rows[0]);
    }
  }

  lemma {:induction false} FilteredAll(rows: seq<Revision>, first: Revision)
    requires forall i :: 0 <= i < |rows| ==> Less(first, rows[i])
    ensures Filtered(rows, Some(CursorAt(first))) == rows
  {
    if rows != [] {
      FilteredAll(rows[1..], first);
      assert Less(first, rows[0]);
    }
  }

  ghost predicate DistinctIds(revisions: seq<Revision>) {
    DistinctBy(revisions, (r: Revision) => r.id)
  }

  lemma SortedAscends(revisions: seq<Revision>)
    requires DistinctIds(revisions)
    ensures Ascending(StableSort(revisions, Less), Less)
  {
    var sorted := StableSort(revisions, Less);
    StableSortSorts(revisions, Less);
    StableSortPermutes(revisions, Less);
    var key := (r: Revision) => r.id;
    DistinctSurvives(revisions, sorted, key);
    forall i, j | 0 <= i < j < |sorted|
      ensures Less(sorted[i], sorted[j])
    {
      assert key(sorted[i]) != key(sorted[j]);
    }
  }

  lemma ListedFrom(revisions: seq<Revision>, c: Option<Cursor>, k: nat)
    requires DistinctIds(revisions) && 0 < k <= |Listed(revisions, c)|
    ensures Listed(revisions, Some(CursorAt(Listed(revisions, c)[k - 1]))) == Listed(revisions, c)[k..]
  {
    var sorted, rows := StableSort(revisions, Less), Listed(revisions, c);
    SortedAscends(revisions);
    FilteredMembers(sorted, c);
    FilteredAscends(sorted, c);
    assert rows[k - 1] in rows;
    FilteredFurther(sorted, c, rows[k - 1]);
    FilteredRest(rows, k);
  }

  // ---------------------------------------------------------------- what happens to one revision

  datatype Outcome = Projects | IsPresent | Skips | Fails

  predicate Attempts(r: Revision, present: set<Id>) {
    r.id !in present && r.projects
  }

  function OutcomeOf(r: Revision, present: set<Id>, apply: bool): Outcome {
    if r.id in present then IsPresent
    else if !r.projects then Skips
    else if !apply then Projects
    else match r.insert
      case Inserted => Projects
      case Conflicted => IsPresent
      case _ => Fails
  }

  predicate Aborts(r: Revision, present: set<Id>, apply: bool) {
    apply && Attempts(r, present) && r.insert == Refused
  }

  function Stores(r: Revision, present: set<Id>, apply: bool): set<Id> {
    if apply && Attempts(r, present) && r.insert in {Inserted, Conflicted} then {r.id} else {}
  }

  function Added(t: Report, r: Revision, o: Outcome): Report {
    var s := t.(scanned := t.scanned + 1, lastCursor := Some(CursorAt(r)));
    match o
    case Projects => s.(eligible := s.eligible + 1, projected := s.projected + 1)
    case IsPresent => s.(eligible := s.eligible + 1, alreadyPresent := s.alreadyPresent + 1)
    case Skips => s.(skipped := s.skipped + 1, failed := s.failed + 1)
    case Fails => s.(eligible := s.eligible + 1, failed := s.failed + 1)
  }

  function Totals(rows: seq<Revision>, n: nat, present: set<Id>, apply: bool): Report
    requires n <= |rows|
  {
    if n == 0 then EMPTY
    else Added(Totals(rows, n - 1, present, apply), rows[n - 1], OutcomeOf(rows[n - 1], present, apply))
  }

  function StoredBy(rows: seq<Revision>, n: nat, present: set<Id>, apply: bool): set<Id>
    requires n <= |rows|
  {
    if n == 0 then present else StoredBy(rows, n - 1, present, apply) + Stores(rows[n - 1], present, apply)
  }

  function Merged(t: Report, b: Report): Report {
    Report(t.scanned + b.scanned, t.eligible + b.eligible, t.projected + b.projected,
           t.alreadyPresent + b.alreadyPresent, t.skipped + b.skipped, t.failed + b.failed,
           if b.lastCursor.Some? then b.lastCursor else t.lastCursor)
  }

  ghost function With(rows: seq<Revision>, n: nat, present: set<Id>, apply: bool, o: Outcome): set<nat>
    requires n <= |rows|
  {
    set i: nat | i < n && OutcomeOf(rows[i], present, apply) == o
  }

  lemma WithNone(rows: seq<Revision>, present: set<Id>, apply: bool)
    ensures forall o :: With(rows, 0, present, apply, o) == {}
  {
  }

  lemma WithGrows(rows: seq<Revision>, n: nat, present: set<Id>, apply: bool, o: Outcome)
    requires n < |rows|
    ensures |With(rows, n + 1, present, apply, o)| ==
            |With(rows, n, present, apply, o)| + One(OutcomeOf(rows[n], present, apply) == o)
  {
    WithStep(rows, n, present, apply, o);
    WithBounded(rows, n, present, apply, o);
    hide OutcomeOf, With;
  }

  lemma WithStep(rows: seq<Revision>, n: nat, present: set<Id>, apply: bool, o: Outcome)
    requires n < |rows|
    ensures With(rows, n + 1, present, apply, o) ==
            With(rows, n, present, apply, o) + (if OutcomeOf(rows[n], present, apply) == o then {n} else {})
  {
    hide OutcomeOf;
  }

  lemma WithBounded(rows: seq<Revision>, n: nat, present: set<Id>, apply: bool, o: Outcome)
    requires n < |rows|
    ensures n !in With(rows, n, present, apply, o)
  {
  }

  /** A report over `n` rows with the given numbers of each outcome. */
  predicate Counts(t: Report, n: nat, projects: nat, present: nat, skips: nat, fails: nat) {
    && t.scanned == n && t.scanned == t.eligible + t.skipped
    && t.scanned == t.projected + t.alreadyPresent + t.failed
    && t.projected == projects && t.alreadyPresent == present && t.skipped == skips && t.failed == t.skipped + fails
  }

  function One(b: bool): nat {
    if b then 1 else 0
  }

  lemma AddedCounts(t: Report, r: Revision, o: Outcome, n: nat, projects: nat, present: nat, skips: nat, fails: nat)
    requires Counts(t, n, projects, present, skips, fails)
    ensures Counts(Added(t, r, o), n + 1, projects + One(o == Projects), present + One(o == IsPresent),
                   skips + One(o == Skips), fails + One(o == Fails))
  {
  }

  lemma CountsGrow(rows: seq<Revision>, n: nat, present: set<Id>, apply: bool)
    requires n < |rows|
    requires Counts(Totals(rows, n, present, apply), n, |With(rows, n, present, apply, Projects)|,
                    |With(rows, n, present, apply, IsPresent)|, |With(rows, n, present, apply, Skips)|,
                    |With(rows, n, present, apply, Fails)|)
    ensures Counts(Totals(rows, n + 1, present, apply), n + 1, |With(rows, n + 1, present, apply, Projects)|,
                   |With(rows, n + 1, present, apply, IsPresent)|, |With(rows, n + 1, present, apply, Skips)|,
                   |With(rows, n + 1, present, apply, Fails)|)
  {
    hide *;
    TotalsLast(rows, n + 1, present, apply);
    AddedCounts(Totals(rows, n, present, apply), rows[n], OutcomeOf(rows[n], present, apply), n,
                |With(rows, n, present, apply, Projects)|, |With(rows, n, present, apply, IsPresent)|,
                |With(rows, n, present, apply, Skips)|, |With(rows, n, present, apply, Fails)|);
    WithGrows(rows, n, present, apply, Projects);
    WithGrows(rows, n, present, apply, IsPresent);
    WithGrows(rows, n, present, apply, Skips);
    WithGrows(rows, n, present, apply, Fails);
  }

  /** The counters say how many revisions met each end, and they balance. */
  lemma {:induction false} TotalsCount(rows: seq<Revision>, n: nat, present: set<Id>, apply: bool)
    requires n <= |rows|
    ensures Counts(Totals(rows, n, present, apply), n, |With(rows, n, present, apply, Projects)|,
                   |With(rows, n, present, apply, IsPresent)|, |With(rows, n, present, apply, Skips)|,
                   |With(rows, n, present, apply, Fails)|)
  {
    hide OutcomeOf, With;
    if n == 0 {
      WithNone(rows, present, apply);
    } else {
      TotalsCount(rows, n - 1, present, apply);
      CountsGrow(rows, n - 1, present, apply);
    }
  }

  lemma MergedAdded(t: Report, b: Report, r: Revision, o: Outcome)
    ensures Merged(t, Added(b, r, o)) == Added(Merged(t, b), r, o)
  {
  }

  lemma MergedEmpty(t: Report)
    ensures Merged(t, EMPTY) == t
  {
  }

  lemma TotalsStart(rows: seq<Revision>, present: set<Id>, apply: bool)
    ensures Totals(rows, 0, present, apply) == EMPTY
  {
  }

  lemma TotalsLast(rows: seq<Revision>, n: nat, present: set<Id>, apply: bool)
    requires 0 < n <= |rows|
    ensures Totals(rows, n, present, apply)
            == Added(Totals(rows, n - 1, present, apply), rows[n - 1], OutcomeOf(rows[n - 1], present, apply))
  {
  }

  lemma OutcomeAlike(r: Revision, present: set<Id>, now: set<Id>, apply: bool)
    requires r.id in now <==> r.id in present
    ensures OutcomeOf(r, now, apply) == OutcomeOf(r, present, apply)
  {
  }

  lemma PageLast(rows: seq<Revision>, k: nat, m: nat, now: set<Id>, apply: bool)
    requires 0 < m && k + m <= |rows|
    ensures Totals(rows[k..k + m], m, now, apply)
            == Added(Totals(rows[k..k + m - 1], m - 1, now, apply), rows[k + m - 1], OutcomeOf(rows[k + m - 1], now, apply))
  {
    var page := rows[k..k + m];
    assert page[m - 1] == rows[k + m - 1];
    hide Totals, OutcomeOf, Added;
    TotalsPrefix(page, rows[k..k + m - 1], m - 1, now, apply);
    TotalsLast(page, m, now, apply);
  }

  /** Pages add up: how the rows are cut makes no difference to the totals. */
  lemma {:induction false} TotalsMerge(rows: seq<Revision>, k: nat, m: nat, present: set<Id>, now: set<Id>, apply: bool)
    requires k + m <= |rows|
    requires forall i :: k <= i < k + m ==> (rows[i].id in now <==> rows[i].id in present)
    ensures Merged(Totals(rows, k, present, apply), Totals(rows[k..k + m], m, now, apply)) == Totals(rows, k + m, present, apply)
  {
    hide *;
    if m == 0 {
      TotalsStart(rows[k..k + m], now, apply);
      MergedEmpty(Totals(rows, k, present, apply));
    } else {
      TotalsMerge(rows, k, m - 1, present, now, apply);
      var r := rows[k + m - 1];
      PageLast(rows, k, m, now, apply);
      TotalsLast(rows, k + m, present, apply);
      OutcomeAlike(r, present, now, apply);
      MergedAdded(Totals(rows, k, present, apply), Totals(rows[k..k + m - 1], m - 1, now, apply), r, OutcomeOf(r, now, apply));
    }
  }

  lemma {:induction false} TotalsPrefix(rows: seq<Revision>, front: seq<Revision>, n: nat, present: set<Id>, apply: bool)
    requires n <= |rows| && n <= |front| && forall i :: 0 <= i < n ==> rows[i] == front[i]
    ensures Totals(rows, n, present, apply) == Totals(front, n, present, apply)
  {
    if n > 0 { TotalsPrefix(rows, front, n - 1, present, apply); }
  }

  lemma {:induction false} StoredMerge(rows: seq<Revision>, k: nat, m: nat, present: set<Id>, now: set<Id>, apply: bool)
    requires k + m <= |rows| && now == StoredBy(rows, k, present, apply)
    requires forall i :: k <= i < k + m ==> (rows[i].id in now <==> rows[i].id in present)
    ensures StoredBy(rows[k..k + m], m, now, apply) == StoredBy(rows, k + m, present, apply)
  {
    if m > 0 {
      StoredMerge(rows, k, m - 1, present, now, apply);
      StoredPrefix(rows[k..k + m], rows[k..k + m - 1], m - 1, now, apply);
      assert rows[k..k + m][m - 1] == rows[k + m - 1];
    }
  }

  lemma {:induction false} StoredPrefix(rows: seq<Revision>, front: seq<Revision>, n: nat, present: set<Id>, apply: bool)
    requires n <= |rows| && n <= |front| && forall i :: 0 <= i < n ==> rows[i] == front[i]
    ensures StoredBy(rows, n, present, apply) == StoredBy(front, n, present, apply)
  {
    if n > 0 { StoredPrefix(rows, front, n - 1, present, apply); }
  }

  lemma {:induction false} StoredMembers(rows: seq<Revision>, n: nat, present: set<Id>, apply: bool)
    requires n <= |rows|
    ensures forall id :: id in StoredBy(rows, n, present, apply) <==>
                         id in present || exists i :: 0 <= i < n && id in Stores(rows[i], present, apply)
  {
    if n > 0 { StoredMembers(rows, n - 1, present, apply); }
  }

  lemma StoredApart(rows: seq<Revision>, k: nat, present: set<Id>, apply: bool)
    requires k <= |rows| && DistinctBy(rows, (r: Revision) => r.id)
    ensures forall i :: k <= i < |rows| ==> (rows[i].id in StoredBy(rows, k, present, apply) <==> rows[i].id in present)
  {
    StoredMembers(rows, k, present, apply);
    var key := (r: Revision) => r.id;
    forall i, j | 0 <= j < k <= i < |rows|
      ensures rows[i].id !in Stores(rows[j], present, apply)
    {
      assert key(rows[j]) != key(rows[i]);
    }
  }

  lemma {:induction false} FilteredDistinct(rows: seq<Revision>, c: Option<Cursor>)
    requires DistinctBy(rows, (r: Revision) => r.id)
    ensures DistinctBy(Filtered(rows, c), (r: Revision) => r.id)
    ensures forall r :: r in Filtered(rows, c) ==> r in rows
  {
    var key := (r: Revision) => r.id;
    if rows != [] {
      var tail := rows[1..];
      forall i, j | 0 <= i < j < |tail|
        ensures key(tail[i]) != key(tail[j])
      {
        assert key(rows[i + 1]) != key(rows[j + 1]);
      }
      FilteredDistinct(tail, c);
      forall r | r in Filtered(tail, c)
        ensures r.id != rows[0].id
      {
        assert r in tail;
        var j :| 0 <= j < |tail| && tail[j] == r;
        assert key(rows[0]) != key(rows[j + 1]);
      }
    }
  }

  predicate AnyAborts(rows: seq<Revision>, from: nat, to: nat, present: set<Id>, apply: bool)
    requires from <= to <= |rows|
  {
    exists i :: from <= i < to && Aborts(rows[i], present, apply)
  }

  class Backfill {
    const revisions: seq<Revision>
    var present: set<Id>

    constructor (rows: seq<Revision>, stored: set<Id>)
      ensures revisions == rows && present == stored
    {
      revisions, present := rows, stored;
    }

    /** One page. After a refused insert the transaction answers nothing more, and its commit fails. */
    method ProcessPage(page: seq<Revision>, apply: bool) returns (report: Report, stored: set<Id>, aborted: bool)
      ensures aborted <==> AnyAborts(page, 0, |page|, present, apply)
      ensures !aborted ==> report == Totals(page, |page|, present, apply) && stored == StoredBy(page, |page|, present, apply)
    {
      report, stored, aborted := EMPTY, present, false;
      for i := 0 to |page|
        invariant aborted <==> AnyAborts(page, 0, i, present, apply)
        invariant !aborted ==> report == Totals(page, i, present, apply) && stored == StoredBy(page, i, present, apply)
      {
        var r := page[i];
        report := report.(scanned := report.scanned + 1, lastCursor := Some(CursorAt(r)));
        if r.id in present {
          report := report.(eligible := report.eligible + 1, alreadyPresent := report.alreadyPresent + 1);
        } else if !r.projects {
          report := report.(skipped := report.skipped + 1, failed := report.failed + 1);
        } else {
          report := report.(eligible := report.eligible + 1);
          if !apply {
            report := report.(projected := report.projected + 1);
          } else if aborted || r.insert == Refused {
            aborted := true;
            report := report.(failed := report.failed + 1);
          } else if r.insert == NotSent {
            report := report.(failed := report.failed + 1);
          } else {
            stored := stored + {r.id};
            if r.insert == Inserted {
              report := report.(projected := report.projected + 1);
            } else {
              report := report.(alreadyPresent := report.alreadyPresent + 1);
            }
          }
        }
      }
    }

    /** The whole backfill. It succeeds exactly when no insert is refused, and then its report and its rows do
        not depend on the batch size; a refused insert loses its whole page, and `done` rows stay. */
    method Run(cursor: Option<Cursor>, batchSize: int, apply: bool) returns (r: Result<Report>, ghost done: nat)
      requires DistinctIds(revisions)
      modifies this`present
      ensures var rows := Listed(revisions, cursor);
              && (r.Ok? <==> !AnyAborts(rows, 0, |rows|, old(present), apply))
              && (r.Ok? ==> Progress(rows, |rows|, old(present), apply, r.value, present))
              && (r.Err? ==> StopsAt(rows, done, Clamped(batchSize), old(present), apply, present))
    {
      ghost var rows, start := Listed(revisions, cursor), present;
      RowsDistinct(revisions, cursor);
      ProgressStarts(rows, start, apply);
      assert Reached(revisions, cursor, cursor, 0);
      hide *;
      var report, at := EMPTY, cursor;
      done := 0;
      while true
        invariant Reached(revisions, cursor, at, done)
        invariant done <= |rows| && Progress(rows, done, start, apply, report, present)
        decreases |rows| - done
      {
        var page := Page(revisions, at, batchSize);
        PageRun(revisions, cursor, at, batchSize, done, start, apply, report, present);
        if page == [] {
          return Ok(report), done;
        }
        var batch, stored, aborted := ProcessPage(page, apply);
        if aborted {
          return Err("commit refused"), done;
        }
        present := stored;
        report := Merged(report, batch);
        if batch.lastCursor.None? {
          return Ok(report), done;
        }
        at := batch.lastCursor;
        done := done + |page|;
      }
    }
  }

  lemma RowsDistinct(revisions: seq<Revision>, c: Option<Cursor>)
    requires DistinctIds(revisions)
    ensures DistinctBy(Listed(revisions, c), (r: Revision) => r.id)
  {
    StableSortPermutes(revisions, Less);
    DistinctSurvives(revisions, StableSort(revisions, Less), (r: Revision) => r.id);
    FilteredDistinct(StableSort(revisions, Less), c);
  }

  /** The first `done` rows are dealt with, and none of them stopped a page. */
  ghost predicate Progress(rows: seq<Revision>, done: nat, start: set<Id>, apply: bool, report: Report, now: set<Id>) {
    && done <= |rows|
    && report == Totals(rows, done, start, apply) && now == StoredBy(rows, done, start, apply)
    && !AnyAborts(rows, 0, done, start, apply)
  }

  /** The page after the first `done` rows met a refused insert, and left only what came before it. */
  ghost predicate StopsAt(rows: seq<Revision>, done: nat, size: nat, start: set<Id>, apply: bool, now: set<Id>) {
    && done < |rows| && now == StoredBy(rows, done, start, apply) && !AnyAborts(rows, 0, done, start, apply)
    && AnyAborts(rows, done, if done + size < |rows| then done + size else |rows|, start, apply)
  }

  /** The cursor `at` continues right after the first `done` of the listed rows. */
  ghost predicate Reached(revisions: seq<Revision>, cursor: Option<Cursor>, at: Option<Cursor>, done: nat) {
    done <= |Listed(revisions, cursor)| && Listed(revisions, at) == Listed(revisions, cursor)[done..]
  }

  /** One turn of the loop: the page is empty at the end, stops at a refused insert, or moves the progress on. */
  lemma PageRun(revisions: seq<Revision>, cursor: Option<Cursor>, at: Option<Cursor>, batchSize: int, done: nat,
                start: set<Id>, apply: bool, report: Report, now: set<Id>)
    requires DistinctIds(revisions) && Reached(revisions, cursor, at, done)
    requires DistinctBy(Listed(revisions, cursor), (r: Revision) => r.id)
    requires Progress(Listed(revisions, cursor), done, start, apply, report, now)
    ensures var rows, page := Listed(revisions, cursor), Page(revisions, at, batchSize);
            if page == [] then done == |rows| && !AnyAborts(rows, 0, |rows|, start, apply)
            else if AnyAborts(page, 0, |page|, now, apply) then
              StopsAt(rows, done, Clamped(batchSize), start, apply, now) && AnyAborts(rows, 0, |rows|, start, apply)
            else
              var batch := Totals(page, |page|, now, apply);
              && done + |page| <= |rows|
              && Progress(rows, done + |page|, start, apply, Merged(report, batch), StoredBy(page, |page|, now, apply))
              && batch.lastCursor.Some? && Reached(revisions, cursor, batch.lastCursor, done + |page|)
  {
    var rows, page := Listed(revisions, cursor), Page(revisions, at, batchSize);
    hide Listed, Page, Clamped, DistinctIds, DistinctBy, Totals, StoredBy, Merged, AnyAborts, Progress, StopsAt;
    PageIs(revisions, at, batchSize, rows, done);
    if page == [] {
      ProgressDone(rows, start, apply, report, now);
    } else {
      PageStep(rows, done, |page|, Clamped(batchSize), start, apply, report, now);
      LastOf(page, now, apply);
      ListedFrom(revisions, cursor, done + |page|);
    }
  }

  lemma ProgressDone(rows: seq<Revision>, start: set<Id>, apply: bool, report: Report, now: set<Id>)
    requires Progress(rows, |rows|, start, apply, report, now)
    ensures !AnyAborts(rows, 0, |rows|, start, apply)
  {
  }

  lemma ProgressStarts(rows: seq<Revision>, start: set<Id>, apply: bool)
    ensures Progress(rows, 0, start, apply, EMPTY, start)
  {
  }

  lemma PageStep(rows: seq<Revision>, done: nat, m: nat, size: nat, start: set<Id>, apply: bool, report: Report, now: set<Id>)
    requires DistinctBy(rows, (r: Revision) => r.id) && Progress(rows, done, start, apply, report, now)
    requires done < |rows| && done + m == if done + size < |rows| then done + size else |rows|
    ensures var page := rows[done..done + m];
            if AnyAborts(page, 0, m, now, apply) then
              StopsAt(rows, done, size, start, apply, now) && AnyAborts(rows, 0, |rows|, start, apply)
            else
              Progress(rows, done + m, start, apply, Merged(report, Totals(page, m, now, apply)),
                       StoredBy(page, m, now, apply))
  {
    StoredApart(rows, done, start, apply);
    AbortsAlike(rows, done, m, start, now, apply);
    AbortsSplit(rows, done, done + m, start, apply);
    AbortsSplit(rows, done + m, |rows|, start, apply);
    TotalsMerge(rows, done, m, start, now, apply);
    StoredMerge(rows, done, m, start, now, apply);
    hide Totals, StoredBy, Merged, AnyAborts, DistinctBy, OutcomeOf, Added;
  }

  lemma AbortsSplit(rows: seq<Revision>, a: nat, b: nat, present: set<Id>, apply: bool)
    requires a <= b <= |rows|
    ensures AnyAborts(rows, 0, b, present, apply) <==>
            AnyAborts(rows, 0, a, present, apply) || AnyAborts(rows, a, b, present, apply)
  {
  }

  lemma PageIs(revisions: seq<Revision>, at: Option<Cursor>, batchSize: int, rows: seq<Revision>, done: nat)
    requires done <= |rows| && Listed(revisions, at) == rows[done..]
    ensures var n := |Page(revisions, at, batchSize)|;
            && done + n == (if done + Clamped(batchSize) < |rows| then done + Clamped(batchSize) else |rows|)
            && Page(revisions, at, batchSize) == rows[done..done + n] && (n == 0 <==> done == |rows|)
  {
    hide Listed;
  }

  lemma LastOf(page: seq<Revision>, present: set<Id>, apply: bool)
    requires page != []
    ensures Totals(page, |page|, present, apply).lastCursor == Some(CursorAt(page[|page| - 1]))
  {
  }

  lemma AbortsAlike(rows: seq<Revision>, k: nat, m: nat, present: set<Id>, now: set<Id>, apply: bool)
    requires k + m <= |rows|
    requires forall i :: k <= i < |rows| ==> (rows[i].id in now <==> rows[i].id in present)
    ensures AnyAborts(rows[k..k + m], 0, m, now, apply) <==> AnyAborts(rows, k, k + m, present, apply)
  {
    if AnyAborts(rows, k, k + m, present, apply) {
      var i :| k <= i < k + m && Aborts(rows[i], present, apply);
      assert rows[k..k + m][i - k] == rows[i];
    }
  }

  /** What is scanned: every revision beyond the cursor, once each, in (created_at, id) order. */
  lemma ListedExactly(revisions: seq<Revision>, c: Option<Cursor>)
    requires DistinctIds(revisions)
    ensures Ascending(Listed(revisions, c), Less)
    ensures forall r :: r in Listed(revisions, c) <==> r in revisions && Beyond(r, c)
  {
    SortedAscends(revisions);
    StableSortPermutes(revisions, Less);
    FilteredMembers(StableSort(revisions, Less), c);
    FilteredAscends(StableSort(revisions, Less), c);
    forall r
      ensures r in StableSort(revisions, Less) <==> r in revisions
    {
      assert r in multiset(StableSort(revisions, Less)) <==> r in multiset(revisions);
    }
  }

  /** Applying twice projects nothing the second time. */
  lemma SecondRunProjectsNothing(rows: seq<Revision>, present: set<Id>)
    ensures Totals(rows, |rows|, StoredBy(rows, |rows|, present, true), true).projected == 0
  {
    var now := StoredBy(rows, |rows|, present, true);
    StoredMembers(rows, |rows|, present, true);
    TotalsCount(rows, |rows|, now, true);
    forall i: nat | i < |rows|
      ensures OutcomeOf(rows[i], now, true) != Projects
    {
      assert rows[i].id !in now ==> rows[i].id !in Stores(rows[i], present, true);
    }
    assert With(rows, |rows|, now, true, Projects) == {};
  }
}

/** Sorted sequences: what ORDER BY and a stable sort return, and when a sorted reading is the only one. */
module Ordering {
  ghost predicate StrictOrder<T(!new)>(less: (T, T) -> bool) {
    && (forall x :: !less(x, x))
    && (forall x, y, z :: less(x, y) && less(y, z) ==> less(x, z))
  }

  /** Values that are ordered neither way are interchangeable, as rows with equal sort keys are. */
  ghost predicate WeakOrder<T(!new)>(less: (T, T) -> bool) {
    StrictOrder(less) && forall x, y, z :: !less(x, y) && !less(y, z) ==> !less(x, z)
  }

  predicate Ascending<T>(s: seq<T>, less: (T, T) -> bool) {
    forall i, j :: 0 <= i < j < |s| ==> less(s[i], s[j])
  }

  /** What ORDER BY promises: nothing comes after something greater. Ties come in any order. */
  predicate Sorted<T>(s: seq<T>, less: (T, T) -> bool) {
    forall i, j :: 0 <= i < j < |s| ==> !less(s[j], s[i])
  }

  ghost predicate Permutes<T>(a: seq<T>, b: seq<T>) {
    multiset(a) == multiset(b)
  }

  lemma FirstCounts<T>(s: seq<T>)
    requires s != []
    ensures multiset(s) == multiset{s[0]} + multiset(s[1..])
  {
    assert s == [s[0]] + s[1..];
  }

  lemma NothingLess<T(!new)>(s: seq<T>, less: (T, T) -> bool, i: nat)
    requires StrictOrder(less) && Sorted(s, less) && i < |s|
    ensures !less(s[i], s[0])
  {
  }

  /** A table whose rows were written in ascending order is read back exactly as written, by any sorted reading. */
  lemma {:induction false} SortedReading<T(!new)>(written: seq<T>, read: seq<T>, less: (T, T) -> bool)
    requires StrictOrder(less) && Ascending(written, less) && Sorted(read, less) && Permutes(written, read)
    ensures read == written
  {
    assert |multiset(written)| == |multiset(read)|;
    if written != [] {
      FirstCounts(written);
      FirstCounts(read);
      assert written[0] in multiset(read) && read[0] in multiset(written);
      assert written[0] in read && read[0] in written;
      var i :| 0 <= i < |read| && read[i] == written[0];
      var j :| 0 <= j < |written| && written[j] == read[0];
      NothingLess(read, less, i);
      assert read[0] == written[0];
      assert multiset(written[1..]) == multiset(written) - multiset{written[0]};
      assert multiset(read[1..]) == multiset(read) - multiset{written[0]};
      SortedReading(written[1..], read[1..], less);
    }
  }

  lemma EmptyIff<T>(s: seq<T>)
    ensures s == [] <==> forall x :: x !in s
  {
    if s != [] { assert s[0] in s; }
  }

  /** Two ascending lists of the same members are the same list. */
  lemma {:induction false} AscendingUnique<T(!new)>(a: seq<T>, b: seq<T>, less: (T, T) -> bool)
    requires StrictOrder(less) && Ascending(a, less) && Ascending(b, less) && forall x :: x in a <==> x in b
    ensures a == b
  {
    EmptyIff(a);
    EmptyIff(b);
    if a != [] {
      assert a[0] in a && b[0] in b;
      FirstIsLeast(a, b[0], less);
      FirstIsLeast(b, a[0], less);
      assert a[0] == b[0];
      forall x
        ensures x in a[1..] <==> x in b[1..]
      {
        AfterFirst(a, x, less);
        AfterFirst(b, x, less);
      }
      AscendingUnique(a[1..], b[1..], less);
    }
  }

  lemma FirstIsLeast<T>(a: seq<T>, x: T, less: (T, T) -> bool)
    requires Ascending(a, less) && x in a
    ensures a[0] == x || less(a[0], x)
  {
    var i :| 0 <= i < |a| && a[i] == x;
  }

  lemma AfterFirst<T(!new)>(a: seq<T>, x: T, less: (T, T) -> bool)
    requires StrictOrder(less) && a != [] && Ascending(a, less)
    ensures x in a[1..] <==> x in a && x != a[0]
  {
    if x in a[1..] {
      var i :| 0 <= i < |a[1..]| && a[1..][i] == x;
      assert a[i + 1] == x;
    }
    if x in a && x != a[0] {
      var i :| 0 <= i < |a| && a[i] == x;
      assert a[1..][i - 1] == x;
    }
  }

  // ---------------------------------------------------------------- a stable sort

  function Insert<T>(x: T, s: seq<T>, less: (T, T) -> bool): seq<T> {
    if s == [] then [x] else if less(s[0], x) then [s[0]] + Insert(x, s[1..], less) else [x] + s
  }

  function StableSort<T>(s: seq<T>, less: (T, T) -> bool): seq<T> {
    if s == [] then [] else Insert(s[0], StableSort(s[1..], less), less)
  }

  lemma {:induction false} InsertPermutes<T>(x: T, s: seq<T>, less: (T, T) -> bool)
    ensures multiset(Insert(x, s, less)) == multiset{x} + multiset(s)
  {
    if s != [] && less(s[0], x) {
      InsertPermutes(x, s[1..], less);
      FirstCounts(s);
      assert multiset([s[0]] + Insert(x, s[1..], less)) == multiset{s[0]} + multiset(Insert(x, s[1..], less));
    } else {
      assert multiset([x] + s) == multiset{x} + multiset(s);
    }
  }

  lemma {:induction false} StableSortPermutes<T>(s: seq<T>, less: (T, T) -> bool)
    ensures Permutes(StableSort(s, less), s) && |StableSort(s, less)| == |s|
  {
    if s != [] {
      StableSortPermutes(s[1..], less);
      InsertPermutes(s[0], StableSort(s[1..], less), less);
      FirstCounts(s);
    }
    assert |multiset(StableSort(s, less))| == |multiset(s)|;
  }

  lemma InsertMembers<T>(x: T, s: seq<T>, less: (T, T) -> bool)
    ensures forall y :: y in Insert(x, s, less) ==> y == x || y in s
  {
    InsertPermutes(x, s, less);
    forall y | y in Insert(x, s, less)
      ensures y == x || y in s
    {
      assert y in multiset(Insert(x, s, less));
    }
  }

  lemma {:induction false} InsertSorted<T(!new)>(x: T, s: seq<T>, less: (T, T) -> bool)
    requires WeakOrder(less) && Sorted(s, less)
    ensures Sorted(Insert(x, s, less), less)
  {
    if s != [] && less(s[0], x) {
      InsertSorted(x, s[1..], less);
      InsertMembers(x, s[1..], less);
      var rest := Insert(x, s[1..], less);
      forall y | y in rest
        ensures !less(y, s[0])
      {
        if y in s[1..] { var k :| 0 <= k < |s[1..]| && s[1..][k] == y; assert s[k + 1] == y; }
      }
    } else if s != [] {
      forall j | 0 <= j < |s|
        ensures !less(s[j], x)
      {
        assert j > 0 ==> !less(s[j], s[0]);
      }
    }
  }

  lemma {:induction false} StableSortSorts<T(!new)>(s: seq<T>, less: (T, T) -> bool)
    requires WeakOrder(less)
    ensures Sorted(StableSort(s, less), less)
  {
    if s != [] {
      StableSortSorts(s[1..], less);
      InsertSorted(s[0], StableSort(s[1..], less), less);
    }
  }

  lemma SameMembers<T>(a: seq<T>, b: seq<T>)
    requires Permutes(a, b)
    ensures |a| == |b| && forall x :: x in a <==> x in b
  {
    assert |a| == |multiset(a)| && |b| == |multiset(b)|;
    forall x
      ensures x in a <==> x in b
    {
      assert x in a <==> x in multiset(a);
      assert x in b <==> x in multiset(b);
    }
  }

  // ---------------------------------------------------------------- distinct keys

  predicate DistinctBy<T, K(==)>(s: seq<T>, key: T -> K) {
    forall i, j :: 0 <= i < j < |s| ==> key(s[i]) != key(s[j])
  }

  lemma DistinctSurvives<T, K>(s: seq<T>, t: seq<T>, key: T -> K)
    requires Permutes(s, t) && DistinctBy(s, key)
    ensures DistinctBy(t, key)
  {
    forall i, j | 0 <= i < j < |t|
      ensures key(t[i]) != key(t[j])
    {
      assert t[i] in multiset(t) && t[j] in multiset(t);
      assert t[i] in multiset(s) && t[j] in multiset(s);
      assert t[i] in s && t[j] in s;
      Twice(t, i, j);
      Once(s, t[i]);
    }
  }

  lemma {:induction false} Twice<T>(t: seq<T>, i: nat, j: nat)
    requires i < j < |t|
    ensures t[i] == t[j] ==> multiset(t)[t[i]] >= 2
  {
    assert t == t[..j] + t[j..] && t[i] in t[..j] && t[j] in t[j..];
    assert multiset(t) == multiset(t[..j]) + multiset(t[j..]);
    assert t[..j][i] == t[i] && t[j..][0] == t[j];
    assert t[i] in multiset(t[..j]) && t[j] in multiset(t[j..]);
  }

  lemma {:induction false} Once<T>(s: seq<T>, x: T)
    requires forall i, j :: 0 <= i < j < |s| ==> s[i] != s[j]
    ensures multiset(s)[x] <= 1
  {
    if s != [] {
      FirstCounts(s);
      Once(s[1..], x);
      assert s[0] !in s[1..];
      assert s[0] !in multiset(s[1..]);
    }
  }

  // ---------------------------------------------------------------- byte order of strings

  predicate TextLess(a: string, b: string) {
    b != "" && (a == "" || a[0] < b[0] || (a[0] == b[0] && TextLess(a[1..], b[1..])))
  }

  lemma {:induction false} TextIrreflexive(a: string)
    ensures !TextLess(a, a)
  {
    if a != "" { TextIrreflexive(a[1..]); }
  }

  lemma {:induction false} TextTransitive(a: string, b: string, c: string)
    requires TextLess(a, b) && TextLess(b, c)
    ensures TextLess(a, c)
  {
    if a != "" && a[0] == b[0] == c[0] { TextTransitive(a[1..], b[1..], c[1..]); }
  }

  lemma {:induction false} TextTotal(a: string, b: string)
    requires a != b
    ensures TextLess(a, b) || TextLess(b, a)
  {
    if a != "" && b != "" && a[0] == b[0] {
      assert a == [a[0]] + a[1..] && b == [b[0]] + b[1..];
      TextTotal(a[1..], b[1..]);
    }
  }

  lemma {:induction false} TextAppended(a: string, b: string, tail: string)
    requires |a| == |b|
    ensures TextLess(a + tail, b + tail) <==> TextLess(a, b)
  {
    if a == "" {
      assert a + tail == tail && b + tail == tail;
      TextIrreflexive(tail);
    } else {
      assert (a + tail)[1..] == a[1..] + tail && (b + tail)[1..] == b[1..] + tail;
      TextAppended(a[1..], b[1..], tail);
    }
  }

  lemma {:induction false} TextPrefixed(head: string, a: string, b: string)
    ensures TextLess(head + a, head + b) <==> TextLess(a, b)
  {
    if head == "" {
      assert head + a == a && head + b == b;
    } else {
      assert (head + a)[1..] == head[1..] + a && (head + b)[1..] == head[1..] + b;
      TextPrefixed(head[1..], a, b);
    }
  }

  lemma TextOrder()
    ensures WeakOrder(TextLess) && forall a, b :: a != b ==> TextLess(a, b) || TextLess(b, a)
  {
    forall a ensures !TextLess(a, a) { TextIrreflexive(a); }
    forall a, b, c | TextLess(a, b) && TextLess(b, c) ensures TextLess(a, c) { TextTransitive(a, b, c); }
    forall a, b | a != b ensures TextLess(a, b) || TextLess(b, a) { TextTotal(a, b); }
  }
}

/** Garbage collection of registry blobs: one pass over the bucket listing, and what it may delete while
    uploads go on. */
module BlobCleanup {
  import opened Wrappers

  type Key = string

  const BATCH: nat := 1000

  datatype Object = Object(key: Option<Key>, lastModified: Option<int>)

  datatype Page = Listed(objects: seq<Object>) | ListFails

  /** What one delete request comes to: the keys it could not delete, or no answer. */
  datatype Answer = Answered(errors: seq<Key>) | NoAnswer

  datatype Rules = Rules(referenced: set<Key>, cutoff: int, isDigest: Key -> bool)

  predicate Eligible(o: Object, rules: Rules) {
    && o.key.Some? && rules.isDigest(o.key.value)
    && o.key.value !in rules.referenced
    && (o.lastModified.Some? ==> o.lastModified.value <= rules.cutoff)
  }

  function EligibleKeys(objects: seq<Object>, rules: Rules): seq<Key> {
    if objects == [] then []
    else
      var front, last := EligibleKeys(objects[..|objects| - 1], rules), objects[|objects| - 1];
      if Eligible(last, rules) then front + [last.key.value] else front
  }

  function Contents(pages: seq<Page>): seq<Object> {
    if pages == [] then []
    else Contents(pages[..|pages| - 1]) + (if pages[|pages| - 1].Listed? then pages[|pages| - 1].objects else [])
  }

  function Flat(batches: seq<seq<Key>>): seq<Key> {
    if batches == [] then [] else Flat(batches[..|batches| - 1]) + batches[|batches| - 1]
  }

  /** Cutting a list into full batches and one last shorter one. */
  function Batches(keys: seq<Key>): seq<seq<Key>>
    decreases |keys|
  {
    if keys == [] then [] else if |keys| <= BATCH then [keys] else [keys[..BATCH]] + Batches(keys[BATCH..])
  }

  predicate AllFull(batches: seq<seq<Key>>) {
    forall b :: b in batches ==> |b| == BATCH
  }

  lemma {:induction false} FlatFirst(first: seq<Key>, rest: seq<seq<Key>>)
    ensures Flat([first] + rest) == first + Flat(rest)
  {
    var all := [first] + rest;
    if rest == [] {
      assert all[..|all| - 1] == [];
    } else {
      FlatFirst(first, rest[..|rest| - 1]);
      assert all[..|all| - 1] == [first] + rest[..|rest| - 1];
    }
  }

  lemma CutFirst(first: seq<Key>, more: seq<Key>)
    requires |first| == BATCH && more != []
    ensures Batches(first + more) == [first] + Batches(more)
  {
    assert (first + more)[..BATCH] == first && (first + more)[BATCH..] == more;
  }

  lemma FlatCut(first: seq<Key>, later: seq<seq<Key>>, rest: seq<Key>)
    requires |first| == BATCH && rest != []
    ensures Batches(Flat([first] + later) + rest) == [first] + Batches(Flat(later) + rest)
  {
    FlatFirst(first, later);
    CutFirst(first, Flat(later) + rest);
    hide Batches, Flat;
    assert (first + Flat(later)) + rest == first + (Flat(later) + rest);
  }

  lemma HeadTail<T>(full: seq<T>, last: T)
    requires full != []
    ensures full == [full[0]] + full[1..] && full + [last] == [full[0]] + (full[1..] + [last])
  {
  }

  /** Full batches followed by a remainder are the cut of everything together. */
  lemma {:induction false} BatchesOf(full: seq<seq<Key>>, rest: seq<Key>)
    requires AllFull(full) && 0 < |rest| <= BATCH
    ensures Batches(Flat(full) + rest) == full + [rest]
    decreases |full|
  {
    if full == [] {
      assert Flat(full) + rest == rest && full + [rest] == [rest];
    } else {
      FirstFull(full);
      HeadTail(full, rest);
      hide *;
      FlatCut(full[0], full[1..], rest);
      BatchesOf(full[1..], rest);
    }
  }

  lemma FirstFull(full: seq<seq<Key>>)
    requires AllFull(full) && full != []
    ensures |full[0]| == BATCH && AllFull(full[1..])
  {
  }

  lemma BatchesFull(full: seq<seq<Key>>)
    requires AllFull(full)
    ensures Batches(Flat(full)) == full
  {
    if full != [] {
      var front, last := full[..|full| - 1], full[|full| - 1];
      assert last in full && full == front + [last];
      BatchesOf(front, last);
    }
  }

  lemma {:induction false} FlatEach(batches: seq<seq<Key>>)
    ensures forall b, k :: b in batches && k in b ==> k in Flat(batches)
  {
    if batches != [] {
      FlatEach(batches[..|batches| - 1]);
      assert batches == batches[..|batches| - 1] + [batches[|batches| - 1]];
    }
  }

  /** As few requests as the limit allows. */
  lemma {:induction false} BatchesCount(keys: seq<Key>)
    ensures |Batches(keys)| == (|keys| + BATCH - 1) / BATCH
    decreases |keys|
  {
    if |keys| > BATCH { BatchesCount(keys[BATCH..]); }
  }

  lemma {:induction false} BatchesKeep(keys: seq<Key>)
    ensures Flat(Batches(keys)) == keys
    ensures forall b :: b in Batches(keys) ==> 0 < |b| <= BATCH
    decreases |keys|
  {
    if |keys| > BATCH {
      BatchesKeep(keys[BATCH..]);
      FlatFirst(keys[..BATCH], Batches(keys[BATCH..]));
    } else if keys != [] {
      assert [keys][..0] == [];
    }
  }

  lemma {:induction false} EligibleJoins(a: seq<Object>, b: seq<Object>, rules: Rules)
    ensures EligibleKeys(a + b, rules) == EligibleKeys(a, rules) + EligibleKeys(b, rules)
  {
    if b == [] {
      assert a + b == a;
    } else {
      assert (a + b)[..|a + b| - 1] == a + b[..|b| - 1];
      EligibleJoins(a, b[..|b| - 1], rules);
    }
  }

  lemma FlatAppend(batches: seq<seq<Key>>, last: seq<Key>)
    ensures Flat(batches + [last]) == Flat(batches) + last && Flat(batches + [last]) + [] == Flat(batches) + last
  {
    assert (batches + [last])[..|batches|] == batches;
  }

  lemma EligibleHasKey(o: Object, rules: Rules)
    requires Eligible(o, rules)
    ensures o.key.Some?
  {
  }

  /** What one more object adds, and that it leaves a prefix of the final list. */
  lemma SweepStep(before: seq<Object>, objects: seq<Object>, i: nat, rules: Rules)
    requires i < |objects|
    ensures Eligible(objects[i], rules) ==> objects[i].key.Some?
    ensures Eligible(objects[i], rules) ==>
              EligibleKeys(before + objects[..i + 1], rules)
              == EligibleKeys(before + objects[..i], rules) + [objects[i].key.value]
    ensures !Eligible(objects[i], rules) ==>
              EligibleKeys(before + objects[..i + 1], rules) == EligibleKeys(before + objects[..i], rules)
    ensures EligibleKeys(before + objects[..i + 1], rules) <= EligibleKeys(before + objects, rules)
  {
    var seen := before + objects[..i + 1];
    assert seen[..|seen| - 1] == before + objects[..i] && seen[|seen| - 1] == objects[i];
    EligibleJoins(seen, objects[i + 1..], rules);
    assert before + objects == seen + objects[i + 1..];
  }

  /** One cleanup: the requests it has sent and the counters it will log. */
  class Cleanup {
    const rules: Rules
    const answers: seq<Answer>
    var requests: seq<seq<Key>>
    var deleted: int
    var errors: seq<Key>

    constructor (r: Rules, a: seq<Answer>)
      ensures rules == r && answers == a && requests == [] && deleted == 0 && errors == []
    {
      rules, answers, requests, deleted, errors := r, a, [], 0, [];
    }

    function AnswerTo(n: nat): Answer {
      if n < |answers| then answers[n] else NoAnswer
    }

    /** Every answered key was deleted or reported. */
    ghost predicate Balanced()
      reads this
    {
      deleted + |errors| == |Flat(requests)|
    }

    ghost predicate AllAnswered()
      reads this
    {
      forall i :: 0 <= i < |requests| ==> AnswerTo(i).Answered?
    }

    method FlushDelete(batch: seq<Key>) returns (ok: bool)
      requires Balanced() && AllAnswered()
      modifies this
      ensures requests == old(requests) + [batch]
      ensures ok <==> AnswerTo(|old(requests)|).Answered?
      ensures ok ==> Balanced() && AllAnswered()
      ensures ok ==> errors == old(errors) + AnswerTo(|old(requests)|).errors
    {
      var answer := AnswerTo(|requests|);
      requests := requests + [batch];
      assert requests[..|requests| - 1] == old(requests);
      if answer.NoAnswer? {
        return false;
      }
      deleted := deleted + |batch| - |answer.errors|;
      errors := errors + answer.errors;
      return true;
    }

    /** The objects of one page. */
    method Sweep(objects: seq<Object>, pending: seq<Key>, ghost before: seq<Object>) returns (ok: bool, left: seq<Key>)
      requires Balanced() && AllAnswered() && AllFull(requests) && |pending| < BATCH
      requires Flat(requests) + pending == EligibleKeys(before, rules)
      modifies this
      ensures ok ==> Balanced() && AllAnswered() && AllFull(requests) && |left| < BATCH
      ensures ok ==> Flat(requests) + left == EligibleKeys(before + objects, rules)
      ensures !ok ==> AllFull(requests) && requests != [] && AnswerTo(|requests| - 1).NoAnswer?
                      && Flat(requests) <= EligibleKeys(before + objects, rules)
    {
      hide Eligible, EligibleKeys, Flat;
      left := pending;
      assert before + objects[..0] == before;
      for i := 0 to |objects|
        invariant Balanced() && AllAnswered() && AllFull(requests) && |left| < BATCH
        invariant Flat(requests) + left == EligibleKeys(before + objects[..i], rules)
      {
        var o := objects[i];
        SweepStep(before, objects, i, rules);
        if Eligible(o, rules) {
          EligibleHasKey(o, rules);
          FlatAppend(requests, left + [o.key.value]);
          left := left + [o.key.value];
          if |left| >= BATCH {
            ok := FlushDelete(left);
            if !ok {
              return false, left;
            }
            left := [];
          }
        }
      }
      assert objects[..|objects|] == objects;
      return true, left;
    }

    /** Every page of the listing, until one is missing or a request goes unanswered. */
    method SweepPages(pages: seq<Page>) returns (ok: bool, pending: seq<Key>)
      requires requests == [] && deleted == 0 && errors == []
      modifies this
      ensures ok ==> Balanced() && AllAnswered() && AllFull(requests) && |pending| < BATCH && ListFails !in pages
      ensures ok ==> Flat(requests) + pending == EligibleKeys(Contents(pages), rules)
      ensures !ok ==> Flat(requests) <= EligibleKeys(Contents(pages), rules)
      ensures !ok ==> ListFails in pages || (requests != [] && AnswerTo(|requests| - 1).NoAnswer?)
    {
      pending := [];
      NothingSwept(rules);
      assert pages[..0] == [];
      hide EligibleKeys, Contents, Flat;
      for i := 0 to |pages|
        invariant Balanced() && AllAnswered() && AllFull(requests) && |pending| < BATCH
        invariant Flat(requests) + pending == EligibleKeys(Contents(pages[..i]), rules)
        invariant ListFails !in pages[..i]
      {
        ContentsGrow(pages, i, rules);
        if pages[i].ListFails? {
          return false, pending;
        }
        PageJoins(pages, i);
        ok, pending := Sweep(pages[i].objects, pending, Contents(pages[..i]));
        ContentsGrow(pages, i + 1, rules);
        if !ok {
          return false, pending;
        }
        assert pages[..i + 1] == pages[..i] + [pages[i]];
      }
      assert pages[..|pages|] == pages;
      return true, pending;
    }

    /** The whole pass. If the listing and every request are answered, the requests are exactly the eligible keys in
        listing order, cut into batches, and every key is counted once as deleted or as an error. */
    method Run(pages: seq<Page>) returns (ok: bool)
      requires requests == [] && deleted == 0 && errors == []
      modifies this
      ensures ok ==> requests == Batches(EligibleKeys(Contents(pages), rules))
                     && deleted + |errors| == |EligibleKeys(Contents(pages), rules)|
                     && |requests| == (|EligibleKeys(Contents(pages), rules)| + BATCH - 1) / BATCH
      ensures ok <==> ListFails !in pages && forall i :: 0 <= i < |requests| ==> AnswerTo(i).Answered?
      ensures Flat(requests) <= EligibleKeys(Contents(pages), rules)
    {
      var swept, pending := SweepPages(pages);
      if !swept {
        return false;
      }
      BatchesFull(requests);
      BatchesCount(EligibleKeys(Contents(pages), rules));
      if |pending| > 0 {
        BatchesOf(requests, pending);
        ghost var sent := requests;
        hide Batches, Flat, EligibleKeys, Contents;
        FlatAppend(sent, pending);
        ok := FlushDelete(pending);
        return ok;
      }
      assert Flat(requests) + [] == Flat(requests);
      return true;
    }
  }

  lemma NothingSwept(rules: Rules)
    ensures Contents([]) == [] && EligibleKeys([], rules) == [] && Flat([]) == []
  {
  }

  lemma PageJoins(pages: seq<Page>, i: nat)
    requires i < |pages| && !pages[i].ListFails?
    ensures Contents(pages[..i + 1]) == Contents(pages[..i]) + pages[i].objects
  {
    assert pages[..i + 1][..i] == pages[..i];
  }

  /** What has been listed stays a prefix of what will be. */
  lemma {:induction false} ContentsGrow(pages: seq<Page>, n: nat, rules: Rules)
    requires n <= |pages|
    ensures EligibleKeys(Contents(pages[..n]), rules) <= EligibleKeys(Contents(pages), rules)
    decreases |pages| - n
  {
    if n == |pages| {
      assert pages[..n] == pages;
    } else {
      ContentsGrow(pages, n + 1, rules);
      assert pages[..n + 1][..n] == pages[..n];
      EligibleJoins(Contents(pages[..n]), if pages[n].Listed? then pages[n].objects else [], rules);
    }
  }

  predicate Distinct(keys: seq<Key>) {
    forall i, j :: 0 <= i < j < |keys| ==> keys[i] != keys[j]
  }

  predicate DistinctObjects(objects: seq<Object>) {
    forall i, j :: 0 <= i < j < |objects| && objects[i].key.Some? ==> objects[i].key != objects[j].key
  }

  lemma {:induction false} SubmittedMembers(objects: seq<Object>, rules: Rules)
    ensures forall k :: k in EligibleKeys(objects, rules) <==> exists o :: o in objects && Eligible(o, rules) && o.key == Some(k)
  {
    if objects != [] {
      var front, last := objects[..|objects| - 1], objects[|objects| - 1];
      assert objects == front + [last];
      SubmittedMembers(front, rules);
    }
  }

  /** A bucket lists each key once, so each eligible key is submitted exactly once and no other ever. */
  lemma {:induction false} SubmittedOnce(objects: seq<Object>, rules: Rules)
    requires DistinctObjects(objects)
    ensures Distinct(EligibleKeys(objects, rules))
    ensures forall k :: k in EligibleKeys(objects, rules) <==> exists o :: o in objects && Eligible(o, rules) && o.key == Some(k)
  {
    if objects != [] {
      var front, last := objects[..|objects| - 1], objects[|objects| - 1];
      assert objects == front + [last];
      SubmittedOnce(front, rules);
    }
  }

  /** No key stands in two batches, or twice in one. */
  predicate NoKeyTwice(batches: seq<seq<Key>>) {
    forall i, x, j, y | 0 <= i < |batches| && 0 <= x < |batches[i]| && 0 <= j < |batches| && 0 <= y < |batches[j]|
      :: batches[i][x] == batches[j][y] ==> i == j && x == y
  }

  lemma {:induction false} FlatDistinct(batches: seq<seq<Key>>)
    requires Distinct(Flat(batches))
    ensures NoKeyTwice(batches)
  {
    if batches != [] {
      var front, last := batches[..|batches| - 1], batches[|batches| - 1];
      DistinctSplit(Flat(front), last);
      FlatDistinct(front);
      FlatEach(front);
      LastApart(front, last);
      assert batches == front + [last];
    }
  }

  lemma DistinctSplit(a: seq<Key>, b: seq<Key>)
    requires Distinct(a + b)
    ensures Distinct(a) && Distinct(b) && forall k :: k in a ==> k !in b
  {
    assert forall i :: 0 <= i < |a| ==> (a + b)[i] == a[i];
    assert forall i :: 0 <= i < |b| ==> (a + b)[|a| + i] == b[i];
  }

  lemma LastApart(front: seq<seq<Key>>, last: seq<Key>)
    requires NoKeyTwice(front) && Distinct(last) && forall b, k :: b in front && k in b ==> k !in last
    ensures NoKeyTwice(front + [last])
  {
    forall i, x, j, y | 0 <= i < |front| + 1 && 0 <= x < |(front + [last])[i]| && 0 <= j < |front| + 1
                        && 0 <= y < |(front + [last])[j]| && (front + [last])[i][x] == (front + [last])[j][y]
      ensures i == j && x == y
    {
      assert i < |front| ==> front[i] in front && front[i][x] in front[i];
      assert j < |front| ==> front[j] in front && front[j][y] in front[j];
    }
  }

  /** Of a bucket that lists each key once, every request names eligible keys only, every eligible key stands in exactly
      one request, and once in it. */
  lemma OneRequestEach(objects: seq<Object>, rules: Rules)
    requires DistinctObjects(objects)
    ensures var requests := Batches(EligibleKeys(objects, rules));
            && NoKeyTwice(requests)
            && forall k :: (exists b :: b in requests && k in b) <==>
                 exists o :: o in objects && Eligible(o, rules) && o.key == Some(k)
  {
    var keys := EligibleKeys(objects, rules);
    SubmittedOnce(objects, rules);
    BatchesKeep(keys);
    FlatDistinct(Batches(keys));
    FlatEach(Batches(keys));
    hide Batches, EligibleKeys, Eligible, NoKeyTwice, Distinct;
    forall k | k in keys
      ensures exists b :: b in Batches(keys) && k in b
    {
      FlatSome(Batches(keys), k);
    }
  }

  /** No request names a referenced key, one that is no digest, or an object changed since the cutoff, if its time is
      known; and every other object is requested. */
  lemma RequestsSpare(objects: seq<Object>, rules: Rules, k: Key)
    ensures (exists b :: b in Batches(EligibleKeys(objects, rules)) && k in b) <==>
              k !in rules.referenced && rules.isDigest(k)
              && exists o :: o in objects && o.key == Some(k) && !(o.lastModified.Some? && o.lastModified.value > rules.cutoff)
  {
    var keys := EligibleKeys(objects, rules);
    SubmittedMembers(objects, rules);
    BatchesKeep(keys);
    FlatEach(Batches(keys));
    if k in keys { FlatSome(Batches(keys), k); }
    hide Batches, EligibleKeys;
  }

  lemma {:induction false} FlatSome(batches: seq<seq<Key>>, k: Key)
    requires k in Flat(batches)
    ensures exists b :: b in batches && k in b
  {
    if k in batches[|batches| - 1] {
      assert batches[|batches| - 1] in batches;
    } else {
      FlatSome(batches[..|batches| - 1], k);
    }
  }
}

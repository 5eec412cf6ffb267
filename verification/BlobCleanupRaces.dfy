/** Cleanup, uploads and references as steps in any order. */
module BlobCleanupRaces {
  type Key = string

  /** The cutoff is taken first, then the referenced digests are read, then the bucket is listed. */
  datatype Phase = Idle | Started(cutoff: int) | Listing(cutoff: int, snapshot: set<Key>)

  datatype State = State(now: int, bucket: map<Key, int>, refs: set<Key>, phase: Phase, pending: set<Key>, again: set<Key>)

  datatype Step = Tick | Upload(k: Key) | Reference(k: Key) | Dereference(k: Key) | Start | ReadReferences | List(k: Key) | Flush

  /** References are made while the upload is younger than the minimum age. */
  predicate Enabled(s: State, step: Step, minAge: int) {
    match step
    case Reference(k) => k in s.bucket && s.now < s.bucket[k] + minAge
    case Start => s.phase.Idle?
    case ReadReferences => s.phase.Started?
    case List(k) => s.phase.Listing? && k in s.bucket && k !in s.phase.snapshot && s.bucket[k] <= s.phase.cutoff
    case Flush => s.phase.Listing?
    case _ => true
  }

  /** `again` collects the keys uploaded after they were listed for deletion. */
  function Next(s: State, step: Step, minAge: int): State
    requires Enabled(s, step, minAge)
  {
    match step
    case Tick => s.(now := s.now + 1)
    case Upload(k) => s.(bucket := s.bucket[k := s.now], again := if k in s.pending then s.again + {k} else s.again)
    case Reference(k) => s.(refs := s.refs + {k})
    case Dereference(k) => s.(refs := s.refs - {k})
    case Start => s.(phase := Started(s.now - minAge), pending := {}, again := {})
    case ReadReferences => s.(phase := Listing(s.phase.cutoff, s.refs))
    case List(k) => s.(pending := s.pending + {k}, again := s.again - {k})
    case Flush => s.(bucket := s.bucket - s.pending, pending := {}, again := {})
  }

  ghost predicate Inv(s: State, minAge: int) {
    && (s.phase.Started? || s.phase.Listing? ==> s.phase.cutoff + minAge <= s.now)
    && (s.phase.Listing? ==>
          forall k :: k in s.bucket && s.bucket[k] <= s.phase.cutoff && k in s.refs ==> k in s.phase.snapshot)
    && (!s.phase.Listing? ==> s.pending == {})
    && (forall k :: k in s.pending && k !in s.again ==>
          k !in s.refs && k in s.bucket && s.bucket[k] <= s.phase.cutoff)
  }

  lemma NextInv(s: State, step: Step, minAge: int)
    requires minAge > 0 && Inv(s, minAge) && Enabled(s, step, minAge)
    ensures Inv(Next(s, step, minAge), minAge)
  {
  }

  ghost predicate Legal(s: State, steps: seq<Step>, minAge: int)
    decreases |steps|
  {
    steps == [] || (Enabled(s, steps[0], minAge) && Legal(Next(s, steps[0], minAge), steps[1..], minAge))
  }

  ghost function Run(s: State, steps: seq<Step>, minAge: int): State
    requires Legal(s, steps, minAge)
    decreases |steps|
  {
    if steps == [] then s else Run(Next(s, steps[0], minAge), steps[1..], minAge)
  }

  lemma {:induction false} InvOverRuns(s: State, steps: seq<Step>, minAge: int)
    requires minAge > 0 && Inv(s, minAge) && Legal(s, steps, minAge)
    ensures Inv(Run(s, steps, minAge), minAge)
    decreases |steps|
  {
    if steps != [] {
      NextInv(s, steps[0], minAge);
      InvOverRuns(Next(s, steps[0], minAge), steps[1..], minAge);
    }
  }

  /** A flush now would delete a blob that is referenced. */
  predicate Harms(s: State) {
    s.pending * s.refs * s.bucket.Keys != {}
  }

  /** Over every run, a flush deletes a referenced blob exactly when some pending key was uploaded again after it
      was listed, and is referenced: age and the reference snapshot protect everything else. */
  lemma HarmNeedsReupload(s: State, steps: seq<Step>, minAge: int)
    requires minAge > 0 && s.phase.Idle? && s.pending == {} && Legal(s, steps, minAge)
    ensures var t := Run(s, steps, minAge); Harms(t) <==> t.pending * t.again * t.refs * t.bucket.Keys != {}
  {
    InvOverRuns(s, steps, minAge);
    var t := Run(s, steps, minAge);
    if Harms(t) {
      var k :| k in t.pending * t.refs * t.bucket.Keys;
      assert k in t.pending * t.again * t.refs * t.bucket.Keys;
    }
    if k :| k in t.pending * t.again * t.refs * t.bucket.Keys {
      assert k in t.pending * t.refs * t.bucket.Keys;
    }
  }

  /** Between being listed for deletion and the next flush, no key is uploaded. */
  predicate ListedApart(steps: seq<Step>) {
    forall i, j :: 0 <= i < j < |steps| && steps[i].List? && steps[j] == Upload(steps[i].k) ==> Flush in steps[i + 1..j]
  }

  lemma {:induction false} RunPrefix(s: State, steps: seq<Step>, minAge: int, n: nat)
    requires Legal(s, steps, minAge) && n < |steps|
    ensures Legal(s, steps[..n], minAge) && Legal(s, steps[..n + 1], minAge)
    ensures Enabled(Run(s, steps[..n], minAge), steps[n], minAge)
    ensures Run(s, steps[..n + 1], minAge) == Next(Run(s, steps[..n], minAge), steps[n], minAge)
    decreases n
  {
    assert steps[..n + 1][0] == steps[0] && steps[..n + 1][1..] == steps[1..][..n];
    hide Enabled, Next;
    if n > 0 {
      assert steps[..n][0] == steps[0] && steps[..n][1..] == steps[1..][..n - 1];
      RunPrefix(Next(s, steps[0], minAge), steps[1..], minAge, n - 1);
    }
  }

  lemma NextPending(s: State, step: Step, minAge: int, k: Key)
    requires Enabled(s, step, minAge) && k in Next(s, step, minAge).pending
    ensures step == List(k) || (k in s.pending && step != Flush)
  {
  }

  /** The key was listed before step `n`, and there was no flush in between. */
  predicate ListedSince(steps: seq<Step>, n: nat, k: Key)
    requires n <= |steps|
  {
    exists i :: 0 <= i < n && steps[i] == List(k) && Flush !in steps[i + 1..n]
  }

  lemma ListedNow(steps: seq<Step>, n: nat, k: Key)
    requires 0 < n <= |steps| && steps[n - 1] == List(k)
    ensures ListedSince(steps, n, k)
  {
    assert Flush !in steps[n - 1 + 1..n];
  }

  lemma ListedStill(steps: seq<Step>, n: nat, k: Key)
    requires 0 < n <= |steps| && ListedSince(steps, n - 1, k) && steps[n - 1] != Flush
    ensures ListedSince(steps, n, k)
  {
    var i :| 0 <= i < n - 1 && steps[i] == List(k) && Flush !in steps[i + 1..n - 1];
    assert steps[i + 1..n] == steps[i + 1..n - 1] + [steps[n - 1]];
  }

  /** Every pending key was listed since the last flush. */
  lemma {:induction false} PendingListed(s: State, steps: seq<Step>, minAge: int, n: nat, k: Key)
    requires Legal(s, steps, minAge) && s.pending == {} && n <= |steps| && Legal(s, steps[..n], minAge)
    requires k in Run(s, steps[..n], minAge).pending
    ensures ListedSince(steps, n, k)
    decreases n
  {
    if n > 0 {
      hide *;
      RunPrefix(s, steps, minAge, n - 1);
      NextPending(Run(s, steps[..n - 1], minAge), steps[n - 1], minAge, k);
      if steps[n - 1] == List(k) {
        ListedNow(steps, n, k);
      } else {
        PendingListed(s, steps, minAge, n - 1, k);
        ListedStill(steps, n, k);
      }
    }
  }

  lemma {:induction false} NoneUploadedAgain(s: State, steps: seq<Step>, minAge: int, n: nat)
    requires Legal(s, steps, minAge) && s.pending == {} && ListedApart(steps) && n <= |steps|
    ensures Legal(s, steps[..n], minAge)
    ensures Run(s, steps[..n], minAge).pending !! Run(s, steps[..n], minAge).again
  {
    if n > 0 {
      NoneUploadedAgain(s, steps, minAge, n - 1);
      RunPrefix(s, steps, minAge, n - 1);
      var before := Run(s, steps[..n - 1], minAge);
      if steps[n - 1].Upload? && steps[n - 1].k in before.pending {
        PendingListed(s, steps, minAge, n - 1, steps[n - 1].k);
        assert false;
      }
    }
  }

  /** So in a run where no key is uploaded between its listing and the next flush, no flush deletes a referenced
      blob. */
  lemma FlushesHarmless(s: State, steps: seq<Step>, minAge: int, n: nat)
    requires minAge > 0 && s.phase.Idle? && s.pending == {} && Legal(s, steps, minAge)
    requires ListedApart(steps) && n < |steps| && steps[n] == Flush
    ensures Legal(s, steps[..n], minAge) && !Harms(Run(s, steps[..n], minAge))
  {
    NoneUploadedAgain(s, steps, minAge, n);
    HarmNeedsReupload(s, steps[..n], minAge);
  }

  /** And it does happen, although the blob is referenced right after its upload and no reference was ever dropped. */
  lemma ReuploadedBlobIsLost(k: Key, minAge: int)
    requires minAge > 0
    ensures var s := State(minAge, map[k := 0], {}, Idle, {}, {});
            var steps := [Start, ReadReferences, List(k), Upload(k), Reference(k)];
            Legal(s, steps, minAge) && Harms(Run(s, steps, minAge))
  {
    var s := State(minAge, map[k := 0], {}, Idle, {}, {});
    var s1 := Next(s, Start, minAge);
    var s2 := Next(s1, ReadReferences, minAge);
    var s3 := Next(s2, List(k), minAge);
    var s4 := Next(s3, Upload(k), minAge);
    var s5 := Next(s4, Reference(k), minAge);
    assert Run(s5, [], minAge) == s5;
    assert Legal(s4, [Reference(k)], minAge) && Run(s4, [Reference(k)], minAge) == s5;
    var steps := [Start, ReadReferences, List(k), Upload(k), Reference(k)];
    assert steps[1..] == [ReadReferences, List(k), Upload(k), Reference(k)];
    assert steps[1..][1..] == [List(k), Upload(k), Reference(k)];
    assert steps[1..][1..][1..] == [Upload(k), Reference(k)];
    assert steps[1..][1..][1..][1..] == [Reference(k)];
    assert Legal(s3, [Upload(k), Reference(k)], minAge) && Run(s3, [Upload(k), Reference(k)], minAge) == s5;
    assert Legal(s2, steps[1..][1..], minAge) && Run(s2, steps[1..][1..], minAge) == s5;
    assert Legal(s1, steps[1..], minAge) && Run(s1, steps[1..], minAge) == s5;
    assert k in s5.pending * s5.refs * s5.bucket.Keys;
  }
}

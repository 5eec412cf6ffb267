/** The loops of apply preflight: the snapshot comparison and the two computations of the shadows to fill. */
module TimestampPreflight {
  import opened Wrappers
  import opened TimestampManifest
  import opened TimestampVerification
  import opened TimestampChecks
  import opened TimestampApply

  /** Strikes every manifest cell off the live cells; all must match and none may be left. */
  method CheckSnapshot(m: Manifest, cells: map<CellKey, Pair>) returns (ok: bool)
    requires DistinctKeys(m.cells)
    ensures ok <==> MatchesSnapshot(m, cells)
  {
    if !MatchesCounts(m, cells) {
      return false;
    }
    ok := CheckListed(m.cells, cells);
    ListedDecides(m, cells);
  }

  ghost predicate Listed(rows: seq<CellDecision>, n: nat, cells: map<CellKey, Pair>)
    requires n <= |rows|
  {
    forall i :: 0 <= i < n ==> rows[i].key in cells && rows[i].raw == cells[rows[i].key].raw
  }

  method CheckListed(rows: seq<CellDecision>, cells: map<CellKey, Pair>) returns (ok: bool)
    requires DistinctKeys(rows)
    ensures ok <==> Listed(rows, |rows|, cells) && cells.Keys <= PrefixKeys(rows, |rows|)
  {
    var current := cells;
    for i := 0 to |rows|
      invariant current == cells - PrefixKeys(rows, i)
      invariant Listed(rows, i, cells)
    {
      PrefixKeysFresh(rows, i);
      if rows[i].key !in current || current[rows[i].key].raw != rows[i].raw {
        return false;
      }
      StruckOff(cells, current, PrefixKeys(rows, i), rows[i].key);
      current := current - {rows[i].key};
    }
    ok := current.Keys == {};
  }

  lemma ListedDecides(m: Manifest, cells: map<CellKey, Pair>)
    ensures Listed(m.cells, |m.cells|, cells) && cells.Keys <= PrefixKeys(m.cells, |m.cells|) <==> ListsCells(m, cells)
  {
    PrefixKeysWhole(m.cells);
    if Listed(m.cells, |m.cells|, cells) {
      forall c | c in m.cells
        ensures c.key in cells && c.raw == cells[c.key].raw
      {
        var i :| 0 <= i < |m.cells| && m.cells[i] == c;
      }
      assert forall k :: k in KeysOf(m.cells) ==> k in cells;
    }
  }

  /** The resolved keys among the first `n` cells. */
  ghost function ResolvedPrefix(rows: seq<CellDecision>, n: nat): set<CellKey>
    requires n <= |rows|
  {
    if n == 0 then {}
    else ResolvedPrefix(rows, n - 1) + (if Resolved(rows[n - 1]) then {rows[n - 1].key} else {})
  }

  /** A first manifest: every historical shadow must still be null; the resolved ones are to be filled. */
  method RootFills(rows: seq<CellDecision>, cells: map<CellKey, Pair>) returns (r: Result<set<CellKey>>)
    ensures r.Ok? <==> Listed(rows, |rows|, cells) && forall i :: 0 <= i < |rows| ==> cells[rows[i].key].instant.None?
    ensures r.Ok? ==> r.value == ResolvedPrefix(rows, |rows|)
  {
    var fill: set<CellKey> := {};
    for i := 0 to |rows|
      invariant Listed(rows, i, cells)
      invariant forall j :: 0 <= j < i ==> cells[rows[j].key].instant.None?
      invariant fill == ResolvedPrefix(rows, i)
    {
      var c := rows[i];
      if c.key !in cells {
        return Err("manifest cell has no current source row");
      }
      if cells[c.key].raw != c.raw {
        return Err("manifest raw cell changed during preflight");
      }
      if cells[c.key].instant.Some? {
        return Err("first manifest requires every historical timestamp shadow to be null");
      }
      if Resolved(c) {
        fill := fill + {c.key};
      }
    }
    return Ok(fill);
  }

  method ResolvedKeys(rows: seq<CellDecision>) returns (resolved: set<CellKey>)
    ensures resolved == ResolvedPrefix(rows, |rows|)
  {
    resolved := {};
    for i := 0 to |rows|
      invariant resolved == ResolvedPrefix(rows, i)
    {
      if Resolved(rows[i]) {
        resolved := resolved + {rows[i].key};
      }
    }
  }

  /** A promoted cell that is alive with the recorded wall clock. */
  predicate FillsOne(s: Store, previous: map<CellKey, CellDecision>, c: CellDecision) {
    Promotes(previous, c) && c.key in s.cells && c.key !in s.tombstones && s.cells[c.key].raw == previous[c.key].raw
  }

  /** The promoted keys, among the first `n` cells, whose live source still shows the recorded wall clock. */
  ghost function FillPrefix(s: Store, previous: map<CellKey, CellDecision>, rows: seq<CellDecision>, n: nat): set<CellKey>
    requires n <= |rows|
  {
    if n == 0 then {}
    else
      var c := rows[n - 1];
      FillPrefix(s, previous, rows, n - 1)
      + (if FillsOne(s, previous, c) then {c.key} else {})
  }

  ghost predicate PromotablePrefix(s: Store, previous: map<CellKey, CellDecision>, rows: seq<CellDecision>, n: nat)
    requires n <= |rows|
  {
    forall i :: 0 <= i < n ==>
      rows[i].key in previous && (Promotes(previous, rows[i]) ==> Promotable(s, previous[rows[i].key], rows[i].key))
  }

  /** Whether one cell of a superseding manifest is filled, if its promotion is admissible. */
  method PromotionFill(s: Store, previous: map<CellKey, CellDecision>, next: CellDecision) returns (r: Result<bool>)
    ensures r.Ok? <==>
            next.key in previous && (Promotes(previous, next) ==> Promotable(s, previous[next.key], next.key))
    ensures r.Ok? ==> r.value == FillsOne(s, previous, next)
  {
    var k := next.key;
    if k !in previous {
      return Err("superseding cell has no prior decision");
    }
    if previous[k].decision != Unresolved || !Resolved(next) {
      return Ok(false);
    }
    if k in s.cells && k in s.tombstones {
      return Err("promoted provenance cell has both source and tombstone");
    }
    if k !in s.cells && k !in s.tombstones {
      return Err("promoted provenance cell has no source row");
    }
    if k in s.tombstones {
      if previous[k].raw != s.tombstones[k].view.pair.raw {
        return Err("promoted deleted provenance cell raw timestamp changed");
      }
      if s.tombstones[k].view.pair.instant.Some? {
        return Err("promoted deleted provenance cell already has a shadow");
      }
      return Ok(false);
    }
    if previous[k].raw != s.cells[k].raw {
      return Ok(false);
    }
    if s.cells[k].instant.Some? {
      return Err("newly promoted timestamp shadow is already non-null");
    }
    return Ok(true);
  }

  /** A superseding manifest: newly promoted cells, alive or deleted, must have had no shadow. */
  method PromotionFills(s: Store, previous: map<CellKey, CellDecision>, rows: seq<CellDecision>)
    returns (r: Result<set<CellKey>>)
    ensures r.Ok? <==> PromotablePrefix(s, previous, rows, |rows|)
    ensures r.Ok? ==> r.value == FillPrefix(s, previous, rows, |rows|)
  {
    var fill: set<CellKey> := {};
    hide Promotes, Promotable, FillsOne;
    for i := 0 to |rows|
      invariant PromotablePrefix(s, previous, rows, i)
      invariant fill == FillPrefix(s, previous, rows, i)
    {
      var one := PromotionFill(s, previous, rows[i]);
      if one.Err? {
        return Err(one.message);
      }
      if one.value {
        fill := fill + {rows[i].key};
      }
    }
    return Ok(fill);
  }

  lemma {:induction false} ResolvedPrefixMembers(rows: seq<CellDecision>, n: nat)
    requires n <= |rows|
    ensures forall k :: k in ResolvedPrefix(rows, n) <==> exists i :: 0 <= i < n && rows[i].key == k && Resolved(rows[i])
  {
    if n > 0 { ResolvedPrefixMembers(rows, n - 1); }
  }

  lemma RootFillsDecide(s: Store, m: Manifest)
    requires Keyed(s.manifests) && DistinctKeys(m.cells) && m.supersedes.None?
    ensures Listed(m.cells, |m.cells|, s.cells) && (forall i :: 0 <= i < |m.cells| ==> s.cells[m.cells[i].key].instant.None?)
            <==> (forall c :: c in m.cells ==> c.key in s.cells && c.raw == s.cells[c.key].raw) && NoShadows(m, s.cells)
    ensures ResolvedPrefix(m.cells, |m.cells|) == FillSet(s, m)
  {
    ResolvedPrefixMembers(m.cells, |m.cells|);
    forall k | k in FillSet(s, m)
      ensures k in ResolvedPrefix(m.cells, |m.cells|)
    {
      var i :| 0 <= i < |m.cells| && m.cells[i] == CellMap(m.cells)[k];
    }
    forall k | k in ResolvedPrefix(m.cells, |m.cells|)
      ensures k in FillSet(s, m)
    {
      var i :| 0 <= i < |m.cells| && m.cells[i].key == k && Resolved(m.cells[i]);
      assert m.cells[i] in m.cells;
    }
  }

  lemma {:induction false} FillPrefixMembers(s: Store, previous: map<CellKey, CellDecision>, rows: seq<CellDecision>, n: nat)
    requires n <= |rows|
    ensures forall k :: k in FillPrefix(s, previous, rows, n) <==>
              exists i :: 0 <= i < n && rows[i].key == k && FillsOne(s, previous, rows[i])
  {
    hide FillsOne;
    if n > 0 { FillPrefixMembers(s, previous, rows, n - 1); }
  }

  lemma PromotablePrefixDecides(s: Store, previous: Manifest, m: Manifest)
    requires DistinctKeys(previous.cells) && DistinctKeys(m.cells) && KeysOf(m.cells) <= KeysOf(previous.cells)
    ensures PromotablePrefix(s, CellMap(previous.cells), m.cells, |m.cells|)
            <==> forall k :: k in PromotedBy(previous, m) ==> Promotable(s, CellMap(previous.cells)[k], k)
  {
    var before := CellMap(previous.cells);
    forall i | 0 <= i < |m.cells|
      ensures m.cells[i].key in before
      ensures Promotes(before, m.cells[i]) <==> m.cells[i].key in PromotedBy(previous, m)
    {
      assert m.cells[i] in m.cells && CellMap(m.cells)[m.cells[i].key] == m.cells[i];
    }
    hide Promotable, Promotes;
    forall k | k in PromotedBy(previous, m)
      ensures exists i :: 0 <= i < |m.cells| && m.cells[i].key == k
    {
      var i :| 0 <= i < |m.cells| && m.cells[i] == CellMap(m.cells)[k];
    }
  }

  lemma CellAt(cells: seq<CellDecision>, i: nat)
    requires DistinctKeys(cells) && i < |cells|
    ensures cells[i].key in KeysOf(cells) && CellMap(cells)[cells[i].key] == cells[i]
  {
    assert cells[i] in cells;
    hide DistinctKeys;
  }

  lemma CellIndex(cells: seq<CellDecision>, k: CellKey)
    requires DistinctKeys(cells) && k in KeysOf(cells)
    ensures exists i :: 0 <= i < |cells| && cells[i].key == k && cells[i] == CellMap(cells)[k]
  {
    hide DistinctKeys;
    var i :| 0 <= i < |cells| && cells[i] == CellMap(cells)[k];
  }

  /** The fill set, cell by cell. */
  lemma InFillSet(s: Store, previous: Manifest, m: Manifest, k: CellKey)
    requires Keyed(s.manifests) && DistinctKeys(m.cells) && s.cells.Keys !! s.tombstones.Keys
    requires m.supersedes.Some? && m.supersedes.value in s.manifests && s.manifests[m.supersedes.value].doc == previous
    requires ValidSupersession(previous, m)
    ensures DistinctKeys(previous.cells)
    ensures k in FillSet(s, m) <==> k in KeysOf(m.cells) && FillsOne(s, CellMap(previous.cells), CellMap(m.cells)[k])
  {
    assert DistinctKeys(previous.cells) && KeysOf(m.cells) == KeysOf(previous.cells);
    if k in KeysOf(m.cells) {
      CellIndex(m.cells, k);
      SameRaw(previous, m, k);
    }
    hide ValidSupersession, DistinctKeys, KeysOf, Keyed, Resolved;
  }

  lemma FillPrefixDecides(s: Store, previous: Manifest, m: Manifest)
    requires Keyed(s.manifests) && DistinctKeys(m.cells) && s.cells.Keys !! s.tombstones.Keys
    requires m.supersedes.Some? && m.supersedes.value in s.manifests && s.manifests[m.supersedes.value].doc == previous
    requires ValidSupersession(previous, m)
    ensures FillPrefix(s, CellMap(previous.cells), m.cells, |m.cells|) == FillSet(s, m)
  {
    assert DistinctKeys(previous.cells);
    hide *;
    FillPrefixMembers(s, CellMap(previous.cells), m.cells, |m.cells|);
    forall k
      ensures k in FillSet(s, m) <==> k in FillPrefix(s, CellMap(previous.cells), m.cells, |m.cells|)
    {
      InFillSet(s, previous, m, k);
      if k in KeysOf(m.cells) { CellIndex(m.cells, k); }
      if k in FillPrefix(s, CellMap(previous.cells), m.cells, |m.cells|) {
        var i :| 0 <= i < |m.cells| && m.cells[i].key == k && FillsOne(s, CellMap(previous.cells), m.cells[i]);
        CellAt(m.cells, i);
      }
    }
  }

  lemma FilledWith(cells: map<CellKey, Pair>, m: Manifest, fill: set<CellKey>, k: CellKey)
    requires DistinctKeys(m.cells) && k in KeysOf(m.cells) && k in cells && k !in fill
    ensures k in Filled(cells, m, fill) && Filled(cells, m, fill)[k] == cells[k]
    ensures Filled(cells, m, fill + {k}) == Filled(cells, m, fill)[k := Pair(cells[k].raw, CellMap(m.cells)[k].converted)]
  {
    hide DistinctKeys, KeysOf;
  }

  /** A listed cell of the fill set is resolved, and live with its recorded raw value and no shadow. */
  lemma FillMember(cells: map<CellKey, Pair>, m: Manifest, fill: set<CellKey>, i: nat)
    requires DistinctKeys(m.cells) && i < |m.cells| && FillReady(cells, m, fill) && m.cells[i].key in fill
    ensures m.cells[i].key in KeysOf(m.cells) && CellMap(m.cells)[m.cells[i].key] == m.cells[i]
    ensures Resolved(m.cells[i]) && m.cells[i].raw.Some? && m.cells[i].converted.Some?
    ensures m.cells[i].key in cells && cells[m.cells[i].key] == Pair(m.cells[i].raw, None)
  {
    assert m.cells[i] in m.cells;
    hide DistinctKeys, Resolved;
  }

  /** One turn of the apply loop: the next cell is filled or left alone. */
  lemma FilledStep(cells: map<CellKey, Pair>, m: Manifest, fill: set<CellKey>, i: nat)
    requires DistinctKeys(m.cells) && i < |m.cells| && FillReady(cells, m, fill)
    ensures var k := m.cells[i].key;
            var before := Filled(cells, m, fill * PrefixKeys(m.cells, i));
            var after := Filled(cells, m, fill * PrefixKeys(m.cells, i + 1));
            && (k in fill ==> Resolved(m.cells[i]) && m.cells[i].raw.Some? && m.cells[i].converted.Some?
                              && k in before && before[k] == Pair(m.cells[i].raw, None)
                              && after == before[k := Pair(m.cells[i].raw, m.cells[i].converted)])
            && (k !in fill ==> after == before)
  {
    PrefixKeysFresh(m.cells, i);
    FillGrows(fill, PrefixKeys(m.cells, i), PrefixKeys(m.cells, i + 1), m.cells[i].key);
    hide *;
    if m.cells[i].key in fill {
      FillMember(cells, m, fill, i);
      FilledWith(cells, m, fill * PrefixKeys(m.cells, i), m.cells[i].key);
    }
  }

  lemma FillGrows(fill: set<CellKey>, a: set<CellKey>, b: set<CellKey>, k: CellKey)
    requires b == a + {k} && k !in a
    ensures fill * b == if k in fill then fill * a + {k} else fill * a
    ensures k !in fill * a
  {
  }

  lemma FilledAll(cells: map<CellKey, Pair>, m: Manifest, fill: set<CellKey>)
    requires DistinctKeys(m.cells) && FillReady(cells, m, fill)
    ensures Filled(cells, m, fill * PrefixKeys(m.cells, |m.cells|)) == Filled(cells, m, fill)
  {
    PrefixKeysWhole(m.cells);
    assert fill * KeysOf(m.cells) == fill;
  }

  lemma FilledNone(cells: map<CellKey, Pair>, m: Manifest, fill: set<CellKey>)
    requires DistinctKeys(m.cells)
    ensures Filled(cells, m, fill * PrefixKeys(m.cells, 0)) == cells
  {
  }
}

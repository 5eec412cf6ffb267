/** A run of the upstream sync after which access is not downward closed: a synced tag that moves. */
module ArtifactRegistryFailures {
  import opened Entitlements
  import opened ArtifactRegistry

  /** A tag, its manifest of one blob, and a manifest without it. */
  ghost predicate Moves(tag: string, before: Digest, after: Digest, blob: Digest, content: Content) {
    && IsTag(tag) && !IsTag(before) && !IsTag(after) && before != after && blob != before && blob != after
    && content(before) == {blob} && content(after) == {}
  }

  /** The tag is synced, moves upstream, and is synced again. */
  function Move(tag: string, before: Digest, after: Digest): seq<Step> {
    [Fetch(Sync(SHOP, tag, before, (1, 2))), Fetch(Sync(SHOP, tag, after, (3, 4)))]
  }

  function Settled(tag: string, before: Digest, blob: Digest): set<Version> {
    {Version(1, SHOP, tag, before, {blob}), Version(2, SHOP, before, before, {blob})}
  }

  /** The tag's row has the new digest and the old blob. */
  function Moved(tag: string, before: Digest, after: Digest, blob: Digest): set<Version> {
    {Version(1, SHOP, tag, after, {blob}), Version(2, SHOP, before, before, {blob}), Version(4, SHOP, after, after, {})}
  }

  lemma FirstSync(tag: string, before: Digest, after: Digest, blob: Digest, content: Content)
    requires Moves(tag, before, after, blob, content)
    ensures SyncFits({}, Sync(SHOP, tag, before, (1, 2)))
    ensures Synced({}, Sync(SHOP, tag, before, (1, 2)), content) == Settled(tag, before, blob)
  {
    hide IsTag, Upserted;
    var row := Version(1, SHOP, tag, before, {blob});
    AddedOnce({}, SHOP, tag, before, 1, content);
    assert Upserted({}, SHOP, tag, before, 1, content) == {row};
    AddedOnce({row}, SHOP, before, before, 2, content);
  }

  lemma SecondSync(tag: string, before: Digest, after: Digest, blob: Digest, content: Content)
    requires Moves(tag, before, after, blob, content)
    ensures SyncFits(Settled(tag, before, blob), Sync(SHOP, tag, after, (3, 4)))
    ensures !Fresh(Settled(tag, before, blob), Sync(SHOP, tag, after, (3, 4)), content)
    ensures Synced(Settled(tag, before, blob), Sync(SHOP, tag, after, (3, 4)), content) == Moved(tag, before, after, blob)
  {
    hide IsTag, Upserted;
    var row, first := Version(1, SHOP, tag, before, {blob}), Version(2, SHOP, before, before, {blob});
    var moved := Version(1, SHOP, tag, after, {blob});
    RenewedOnce({row, first}, SHOP, tag, row, after, 3, content);
    assert row.(digest := after, parts := {blob} + content(after)) == moved by { assert {blob} + content(after) == {blob}; }
    assert {row, first} - {row} + {moved} == {moved, first};
    assert Upserted({row, first}, SHOP, tag, after, 3, content) == {moved, first};
    AddedOnce({moved, first}, SHOP, after, after, 4, content);
    assert Named(row, SHOP, tag);
  }

  lemma MovedMisses(tag: string, before: Digest, after: Digest, blob: Digest, content: Content)
    requires Moves(tag, before, after, blob, content)
    ensures !BlobsFollow(Moved(tag, before, after, blob), SHOP, tag)
  {
    hide IsTag;
    var vs := Moved(tag, before, after, blob);
    var row, own := Version(1, SHOP, tag, after, {blob}), Version(4, SHOP, after, after, {});
    assert row in vs && own in vs && Matches(row, SHOP, tag);
    FlatReaches(vs, BlobSeed(vs, blob), own);
    hide Reaches, BlobsFollow;
    BlobsFollowExactly(vs, SHOP, tag);
    assert !Holds(vs, own, blob);
  }

  lemma TwoSteps(vs: set<Version>, steps: seq<Step>, content: Content)
    requires |steps| == 2
    ensures var mid := Next(vs, steps[0], content);
            && (Legal(vs, steps, content) <==> Enabled(vs, steps[0], content) && Enabled(mid, steps[1], content))
            && (NeverMixes(vs, steps, content) <==> !Mixes(vs, steps[0], content) && !Mixes(mid, steps[1], content))
            && Run(vs, steps, content) == Next(mid, steps[1], content)
  {
    hide Next, Mixes, Enabled;
    var mid := Next(vs, steps[0], content);
    assert steps[1..][0] == steps[1] && steps[1..][1..] == [];
    assert Run(mid, steps[1..], content) == Run(Next(mid, steps[1], content), [], content);
    assert Legal(mid, steps[1..], content) <==> Enabled(mid, steps[1], content) && Legal(Next(mid, steps[1], content), [], content);
    assert NeverMixes(mid, steps[1..], content)
           <==> !Mixes(mid, steps[1], content) && NeverMixes(Next(mid, steps[1], content), [], content);
  }

  /** Then whoever is entitled to the new manifest alone may pull by the tag, but not the blob left on its row. */
  lemma MovedTagFails(tag: string, before: Digest, after: Digest, blob: Digest, content: Content)
    requires Moves(tag, before, after, blob, content)
    ensures Legal({}, Move(tag, before, after), content) && !NeverMixes({}, Move(tag, before, after), content)
    ensures !BlobsFollow(Run({}, Move(tag, before, after), content), SHOP, tag)
  {
    FirstSync(tag, before, after, blob, content);
    SecondSync(tag, before, after, blob, content);
    MovedMisses(tag, before, after, blob, content);
    hide SyncFits, Synced, Fresh, BlobsFollow, Moves, Settled, Moved;
    TwoSteps({}, Move(tag, before, after), content);
  }

  function OneBlob(digest: Digest): set<Digest> {
    if digest == "sha256:1" then {"sha256:3"} else {}
  }

  lemma MovedTagExample()
    ensures Moves("latest", "sha256:1", "sha256:2", "sha256:3", OneBlob)
    ensures !BlobsFollow(Run({}, Move("latest", "sha256:1", "sha256:2"), OneBlob), SHOP, "latest")
  {
    assert "sha256:1"[6] == "sha256:2"[6] == ':';
    assert "sha256:1"[7] == '1' && "sha256:2"[7] == '2' && "sha256:3"[7] == '3';
    hide Run, BlobsFollow, Move;
    MovedTagFails("latest", "sha256:1", "sha256:2", "sha256:3", OneBlob);
  }
}

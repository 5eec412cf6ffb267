/** The registry's own writes to artifact versions, pushes, deletions and the sync of an upstream artifact, and what they
    keep of the names that access is granted by. */
module ArtifactRegistry {
  import opened Wrappers
  import opened Entitlements

  /** What a manifest's digest says it is made of. */
  type Content = Digest -> set<Digest>

  /** Tags have no colon, digests do. */
  predicate IsTag(name: string) {
    ':' !in name
  }

  predicate Taken(vs: set<Version>, artifact: Artifact, reference: string) {
    exists v :: v in vs && Named(v, artifact, reference)
  }

  /** The name is there, and it is the digest of what it names. */
  predicate NamesItself(vs: set<Version>, artifact: Artifact, reference: string) {
    exists v :: v in vs && Named(v, artifact, reference) && v.digest == reference
  }

  /** What the database and the organization decide about one put. */
  datatype Leave = Leave(quota: bool, mutable: bool, pinned: bool)

  /** A new name needs quota, a name that is its own digest is left alone, and any other may only be replaced where tags
      are mutable, which no digest is. */
  predicate Accepts(vs: set<Version>, artifact: Artifact, reference: string, leave: Leave) {
    if !Taken(vs, artifact, reference) then leave.quota
    else NamesItself(vs, artifact, reference) || (leave.mutable && IsTag(reference) && !leave.pinned)
  }

  function Without(vs: set<Version>, artifact: Artifact, reference: string): set<Version> {
    set v | v in vs && !Named(v, artifact, reference)
  }

  function Put(vs: set<Version>, artifact: Artifact, reference: string, digest: Digest, id: Id, content: Content): set<Version> {
    if NamesItself(vs, artifact, reference) then vs
    else Without(vs, artifact, reference) + {Version(id, artifact, reference, digest, content(digest))}
  }

  predicate Unused(vs: set<Version>, id: Id) {
    forall v :: v in vs ==> v.id != id
  }

  /** A push: the manifest under its own digest, and under the target. */
  datatype Push = Push(artifact: Artifact, target: string, digest: Digest, ids: (Id, Id), leaves: (Leave, Leave))

  predicate Pushes(vs: set<Version>, p: Push, content: Content) {
    Accepts(vs, p.artifact, p.digest, p.leaves.0)
    && Accepts(Put(vs, p.artifact, p.digest, p.digest, p.ids.0, content), p.artifact, p.target, p.leaves.1)
  }

  function Pushed(vs: set<Version>, p: Push, content: Content): set<Version> {
    Put(Put(vs, p.artifact, p.digest, p.digest, p.ids.0, content), p.artifact, p.target, p.digest, p.ids.1, content)
  }

  // ---------------------------------------------------------------- the sync of an upstream artifact

  /** A manifest fetched from upstream: under its tag and its digest, or, for a child of an index, its digest alone. */
  datatype Sync = Sync(artifact: Artifact, name: string, digest: Digest, ids: (Id, Id))

  /** Upserting a name keeps the row with its id and its parts, and adds the manifest's parts. */
  function Renewed(v: Version, artifact: Artifact, name: string, digest: Digest, content: Content): Version {
    if Named(v, artifact, name) then v.(digest := digest, parts := v.parts + content(digest)) else v
  }

  function Upserted(vs: set<Version>, artifact: Artifact, name: string, digest: Digest, id: Id, content: Content): set<Version> {
    (set v | v in vs :: Renewed(v, artifact, name, digest, content))
    + if Taken(vs, artifact, name) then {} else {Version(id, artifact, name, digest, content(digest))}
  }

  function Synced(vs: set<Version>, s: Sync, content: Content): set<Version> {
    Upserted(Upserted(vs, s.artifact, s.name, s.digest, s.ids.0, content), s.artifact, s.digest, s.digest, s.ids.1, content)
  }

  predicate SyncFits(vs: set<Version>, s: Sync) {
    !IsTag(s.digest) && (IsTag(s.name) || s.name == s.digest) && Unused(vs, s.ids.0) && Unused(vs, s.ids.1) && s.ids.0 != s.ids.1
  }

  /** Neither name holds a part that the fetched manifest lacks. */
  predicate Fresh(vs: set<Version>, s: Sync, content: Content) {
    forall v :: v in vs && (Named(v, s.artifact, s.name) || Named(v, s.artifact, s.digest)) ==> v.parts <= content(s.digest)
  }

  class Registry {
    var versions: set<Version>

    constructor ()
      ensures versions == {}
    {
      versions := {};
    }

    /** One put; a refused one changes nothing. */
    method PutManifest(artifact: Artifact, reference: string, digest: Digest, id: Id, leave: Leave, content: Content)
      returns (r: Result<()>)
      requires UniqueNames(versions)
      modifies this`versions
      ensures r.Ok? <==> Accepts(old(versions), artifact, reference, leave)
      ensures versions == if r.Ok? then Put(old(versions), artifact, reference, digest, id, content) else old(versions)
    {
      if exists v :: v in versions && Named(v, artifact, reference) {
        var existing :| existing in versions && Named(existing, artifact, reference);
        if existing.digest == reference {
          return Ok(());
        }
        if !leave.mutable {
          return Err("tag already exists with different content");
        }
        if !IsTag(reference) || leave.pinned {
          return Err("could not delete tag");
        }
        NamedOnce(versions, artifact, reference, existing);
        versions := versions - {existing};
      } else if !leave.quota {
        return Err("quota exceeded");
      } else {
        assert Without(versions, artifact, reference) == versions;
      }
      versions := versions + {Version(id, artifact, reference, digest, content(digest))};
      return Ok(());
    }

    /** A push stores the manifest under its digest and under the target in one transaction, or not at all; whatever it
        does, no reference comes to mean two manifests. */
    method PushManifest(p: Push, content: Content) returns (r: Result<()>)
      requires Sound(versions, content) && !IsTag(p.digest)
      requires Unused(versions, p.ids.0) && Unused(versions, p.ids.1) && p.ids.0 != p.ids.1
      modifies this`versions
      ensures r.Ok? <==> Pushes(old(versions), p, content)
      ensures versions == if r.Ok? then Pushed(old(versions), p, content) else old(versions)
      ensures Sound(versions, content)
    {
      var before := versions;
      PutKeeps(before, p.artifact, p.digest, p.digest, p.ids.0, content);
      SoundNames(before, content);
      hide Accepts, Put, Sound, NamesItself;
      r := PutManifest(p.artifact, p.digest, p.digest, p.ids.0, p.leaves.0, content);
      if r.Err? {
        return;
      }
      StillUnused(before, p, content);
      PutKeeps(versions, p.artifact, p.target, p.digest, p.ids.1, content);
      SoundNames(versions, content);
      r := PutManifest(p.artifact, p.target, p.digest, p.ids.1, p.leaves.1, content);
      if r.Err? {
        versions := before;
      }
    }

    /** INSERT, or on a name taken UPDATE, and the manifest's parts added to the row. */
    method UpsertManifest(artifact: Artifact, name: string, digest: Digest, id: Id, content: Content)
      requires UniqueNames(versions)
      modifies this`versions
      ensures versions == Upserted(old(versions), artifact, name, digest, id, content)
    {
      if exists v :: v in versions && Named(v, artifact, name) {
        var existing :| existing in versions && Named(existing, artifact, name);
        RenewedOnce(versions, artifact, name, existing, digest, id, content);
        versions := versions - {existing} + {existing.(digest := digest, parts := existing.parts + content(digest))};
      } else {
        AddedOnce(versions, artifact, name, digest, id, content);
        versions := versions + {Version(id, artifact, name, digest, content(digest))};
      }
    }

    /** A completed sync of one manifest; it keeps what the other writes keep exactly when neither name holds a part
        that the manifest lacks. */
    method SyncManifest(s: Sync, content: Content)
      requires Sound(versions, content) && SyncFits(versions, s)
      modifies this`versions
      ensures versions == Synced(old(versions), s, content)
      ensures Sound(versions, content) <==> Fresh(old(versions), s, content)
    {
      SoundNames(versions, content);
      SyncKeeps(versions, s, content);
      UpsertedNames(versions, s.artifact, s.name, s.digest, s.ids.0, content);
      hide Sound, Fresh, Upserted, SyncFits;
      UpsertManifest(s.artifact, s.name, s.digest, s.ids.0, content);
      UpsertManifest(s.artifact, s.digest, s.digest, s.ids.1, content);
    }
  }

  lemma NamedOnce(vs: set<Version>, artifact: Artifact, reference: string, v: Version)
    requires UniqueNames(vs) && v in vs && Named(v, artifact, reference)
    ensures Without(vs, artifact, reference) == vs - {v}
    ensures NamesItself(vs, artifact, reference) <==> v.digest == reference
  {
  }

  lemma RenewedOnce(vs: set<Version>, artifact: Artifact, name: string, v: Version, digest: Digest, id: Id, content: Content)
    requires v in vs && Named(v, artifact, name) && forall w :: w in vs && Named(w, artifact, name) ==> w == v
    ensures Upserted(vs, artifact, name, digest, id, content)
            == vs - {v} + {v.(digest := digest, parts := v.parts + content(digest))}
  {
    var after := Upserted(vs, artifact, name, digest, id, content);
    assert Taken(vs, artifact, name);
    assert Renewed(v, artifact, name, digest, content) in after;
    forall w | w in vs && w != v
      ensures w in after
    {
      assert Renewed(w, artifact, name, digest, content) == w;
    }
  }

  lemma AddedOnce(vs: set<Version>, artifact: Artifact, name: string, digest: Digest, id: Id, content: Content)
    requires !Taken(vs, artifact, name)
    ensures Upserted(vs, artifact, name, digest, id, content) == vs + {Version(id, artifact, name, digest, content(digest))}
  {
    forall v | v in vs
      ensures Renewed(v, artifact, name, digest, content) == v
    {
      assert !Named(v, artifact, name);
    }
  }

  // ---------------------------------------------------------------- what every write keeps

  /** Ids and names are unique, manifests are content-addressed, and every stored manifest is named by its digest. */
  ghost predicate Sound(vs: set<Version>, content: Content) {
    && UniqueIds(vs) && UniqueNames(vs)
    && (forall v :: v in vs ==> !IsTag(v.digest) && v.parts == content(v.digest))
    && (forall v :: v in vs ==> NamesItself(vs, v.artifact, v.digest))
  }

  lemma SoundNames(vs: set<Version>, content: Content)
    requires Sound(vs, content)
    ensures UniqueNames(vs)
  {
  }

  /** So no reference means two manifests. */
  lemma SoundMeansOne(vs: set<Version>, content: Content, artifact: Artifact, reference: string)
    requires Sound(vs, content)
    ensures ContentAddressed(vs) && Unambiguous(vs, artifact, reference)
  {
    AmbiguousExactly(vs, artifact, reference);
    forall v, w | v in vs && w in vs && Named(v, artifact, reference) && Hashed(w, artifact, reference)
      ensures v.digest == reference
    {
      assert NamesItself(vs, w.artifact, w.digest);
    }
  }

  lemma DigestStays(vs: set<Version>, artifact: Artifact, reference: string, added: Version, other: Artifact, digest: Digest)
    requires !NamesItself(vs, artifact, reference) && NamesItself(vs, other, digest)
    ensures NamesItself(Without(vs, artifact, reference) + {added}, other, digest)
  {
    var v :| v in vs && Named(v, other, digest) && v.digest == digest;
    assert !Named(v, artifact, reference);
  }

  /** A put of a manifest that is, or is being, stored under its digest. */
  lemma PutKeeps(vs: set<Version>, artifact: Artifact, reference: string, digest: Digest, id: Id, content: Content)
    requires Sound(vs, content) && !IsTag(digest) && Unused(vs, id)
    requires reference == digest || NamesItself(vs, artifact, digest)
    ensures Sound(Put(vs, artifact, reference, digest, id, content), content)
    ensures NamesItself(Put(vs, artifact, reference, digest, id, content), artifact, digest)
  {
    if !NamesItself(vs, artifact, reference) {
      var added := Version(id, artifact, reference, digest, content(digest));
      var after := Without(vs, artifact, reference) + {added};
      assert NamesItself(after, artifact, digest) by {
        if reference == digest {
          assert added in after && Named(added, artifact, reference);
        } else {
          DigestStays(vs, artifact, reference, added, artifact, digest);
        }
      }
      forall v | v in after
        ensures NamesItself(after, v.artifact, v.digest)
      {
        if v != added { DigestStays(vs, artifact, reference, added, v.artifact, v.digest); }
      }
      hide NamesItself;
    }
  }

  lemma UpsertedNames(vs: set<Version>, artifact: Artifact, name: string, digest: Digest, id: Id, content: Content)
    requires UniqueNames(vs)
    ensures UniqueNames(Upserted(vs, artifact, name, digest, id, content))
  {
    forall v
      ensures Renewed(v, artifact, name, digest, content).name == v.name
      ensures Renewed(v, artifact, name, digest, content).artifact == v.artifact
    {
    }
    hide Renewed;
  }

  lemma UpsertedIds(vs: set<Version>, artifact: Artifact, name: string, digest: Digest, id: Id, content: Content)
    requires UniqueIds(vs) && Unused(vs, id)
    ensures UniqueIds(Upserted(vs, artifact, name, digest, id, content))
    ensures forall other :: Unused(vs, other) && other != id ==> Unused(Upserted(vs, artifact, name, digest, id, content), other)
  {
    forall v
      ensures Renewed(v, artifact, name, digest, content).id == v.id
    {
    }
    hide Renewed;
  }

  /** What one row of the sync becomes. */
  function Landed(v: Version, s: Sync, content: Content): Version {
    if Named(v, s.artifact, s.name) || Named(v, s.artifact, s.digest)
    then v.(digest := s.digest, parts := v.parts + content(s.digest)) else v
  }

  lemma LandsOnce(v: Version, s: Sync, content: Content)
    ensures Renewed(Renewed(v, s.artifact, s.name, s.digest, content), s.artifact, s.digest, s.digest, content)
            == Landed(v, s, content)
  {
    assert v.parts + content(s.digest) + content(s.digest) == v.parts + content(s.digest);
  }

  lemma UpsertedSo(vs: set<Version>, artifact: Artifact, name: string, digest: Digest, id: Id, content: Content)
    ensures var after := Upserted(vs, artifact, name, digest, id, content);
            && (forall v :: v in vs ==> Renewed(v, artifact, name, digest, content) in after)
            && (forall x :: x in after ==> x == Version(id, artifact, name, digest, content(digest))
                                           || exists v :: v in vs && x == Renewed(v, artifact, name, digest, content))
            && exists x :: x in after && Named(x, artifact, name) && x.digest == digest
  {
    var after := Upserted(vs, artifact, name, digest, id, content);
    if Taken(vs, artifact, name) {
      var v :| v in vs && Named(v, artifact, name);
      assert Renewed(v, artifact, name, digest, content) in after;
    } else {
      assert Version(id, artifact, name, digest, content(digest)) in after;
    }
  }

  lemma LandsSo(vs: set<Version>, s: Sync, content: Content)
    ensures forall v :: v in vs ==> Landed(v, s, content) in Synced(vs, s, content)
    ensures forall x :: x in Synced(vs, s, content) ==>
              (x.digest == s.digest && x.parts == content(s.digest) && x.artifact == s.artifact)
              || exists v :: v in vs && x == Landed(v, s, content)
    ensures NamesItself(Synced(vs, s, content), s.artifact, s.digest)
  {
    var mid := Upserted(vs, s.artifact, s.name, s.digest, s.ids.0, content);
    UpsertedSo(vs, s.artifact, s.name, s.digest, s.ids.0, content);
    UpsertedSo(mid, s.artifact, s.digest, s.digest, s.ids.1, content);
    hide Upserted, Landed;
    forall v | v in vs
      ensures Landed(v, s, content) in Synced(vs, s, content)
    {
      LandsOnce(v, s, content);
    }
    forall x | x in Synced(vs, s, content)
      ensures (x.digest == s.digest && x.parts == content(s.digest) && x.artifact == s.artifact)
              || exists v :: v in vs && x == Landed(v, s, content)
    {
      if m :| m in mid && x == Renewed(m, s.artifact, s.digest, s.digest, content) {
        if v :| v in vs && m == Renewed(v, s.artifact, s.name, s.digest, content) { LandsOnce(v, s, content); }
      }
    }
  }

  lemma LandedFits(vs: set<Version>, s: Sync, content: Content, x: Version)
    requires Sound(vs, content) && SyncFits(vs, s) && Fresh(vs, s, content) && x in Synced(vs, s, content)
    ensures !IsTag(x.digest) && x.parts == content(x.digest) && NamesItself(Synced(vs, s, content), x.artifact, x.digest)
  {
    LandsSo(vs, s, content);
    hide Synced, UniqueIds, UniqueNames, NamesItself, Unused, IsTag;
    if v :| v in vs && x == Landed(v, s, content) { LandedNamed(vs, s, content, v); }
  }

  lemma FreshKeeps(vs: set<Version>, s: Sync, content: Content)
    requires Sound(vs, content) && SyncFits(vs, s) && Fresh(vs, s, content)
    ensures Sound(Synced(vs, s, content), content)
  {
    SyncKeys(vs, s, content);
    forall x | x in Synced(vs, s, content)
      ensures !IsTag(x.digest) && x.parts == content(x.digest) && NamesItself(Synced(vs, s, content), x.artifact, x.digest)
    {
      LandedFits(vs, s, content, x);
    }
    hide Synced, UniqueIds, UniqueNames, NamesItself, SyncFits, Fresh, IsTag;
  }

  /** A synced manifest keeps what pushes keep exactly when neither of its names holds a part that it lacks. */
  lemma SyncKeeps(vs: set<Version>, s: Sync, content: Content)
    requires Sound(vs, content) && SyncFits(vs, s)
    ensures Sound(Synced(vs, s, content), content) <==> Fresh(vs, s, content)
  {
    if Fresh(vs, s, content) {
      FreshKeeps(vs, s, content);
    } else {
      LandsSo(vs, s, content);
      hide Synced, UniqueIds, UniqueNames, NamesItself, SyncFits;
      var v :| v in vs && (Named(v, s.artifact, s.name) || Named(v, s.artifact, s.digest)) && !(v.parts <= content(s.digest));
      assert Landed(v, s, content).parts == v.parts + content(s.digest) != content(s.digest);
    }
  }

  lemma SyncKeys(vs: set<Version>, s: Sync, content: Content)
    requires UniqueIds(vs) && UniqueNames(vs) && SyncFits(vs, s)
    ensures UniqueIds(Synced(vs, s, content)) && UniqueNames(Synced(vs, s, content))
  {
    hide UniqueIds, UniqueNames, Upserted, Unused;
    var mid := Upserted(vs, s.artifact, s.name, s.digest, s.ids.0, content);
    UpsertedNames(vs, s.artifact, s.name, s.digest, s.ids.0, content);
    UpsertedNames(mid, s.artifact, s.digest, s.digest, s.ids.1, content);
    UpsertedIds(vs, s.artifact, s.name, s.digest, s.ids.0, content);
    UpsertedIds(mid, s.artifact, s.digest, s.digest, s.ids.1, content);
  }

  lemma LandedNamed(vs: set<Version>, s: Sync, content: Content, v: Version)
    requires Sound(vs, content) && SyncFits(vs, s) && v in vs
    ensures NamesItself(Synced(vs, s, content), v.artifact, Landed(v, s, content).digest)
  {
    LandsSo(vs, s, content);
    var w :| w in vs && Named(w, v.artifact, v.digest) && w.digest == v.digest;
    hide Synced, UniqueIds, UniqueNames;
    assert Landed(w, s, content) in Synced(vs, s, content);
  }

  lemma StillUnused(vs: set<Version>, p: Push, content: Content)
    requires Unused(vs, p.ids.1) && p.ids.0 != p.ids.1
    ensures Unused(Put(vs, p.artifact, p.digest, p.digest, p.ids.0, content), p.ids.1)
  {
  }

  lemma PushKeeps(vs: set<Version>, p: Push, content: Content)
    requires Sound(vs, content) && !IsTag(p.digest)
    requires Unused(vs, p.ids.0) && Unused(vs, p.ids.1) && p.ids.0 != p.ids.1
    ensures Sound(Pushed(vs, p, content), content)
  {
    hide Put, Sound, NamesItself, Unused;
    PutKeeps(vs, p.artifact, p.digest, p.digest, p.ids.0, content);
    StillUnused(vs, p, content);
    PutKeeps(Put(vs, p.artifact, p.digest, p.digest, p.ids.0, content), p.artifact, p.target, p.digest, p.ids.1, content);
  }

  lemma UntaggedKeeps(vs: set<Version>, artifact: Artifact, tag: string, content: Content)
    requires Sound(vs, content) && IsTag(tag)
    ensures Sound(Without(vs, artifact, tag), content)
  {
    var after := Without(vs, artifact, tag);
    forall v | v in after
      ensures NamesItself(after, v.artifact, v.digest)
    {
      var w :| w in vs && Named(w, v.artifact, v.digest) && w.digest == v.digest;
      assert w in after;
    }
    hide NamesItself;
  }

  // ---------------------------------------------------------------- runs

  /** Tags go one by one, digests only with their artifact. */
  datatype Step = Publish(p: Push) | Fetch(s: Sync) | Untag(artifact: Artifact, tag: string) | Remove(artifact: Artifact)

  predicate Enabled(vs: set<Version>, step: Step, content: Content) {
    match step
    case Publish(p) =>
      !IsTag(p.digest) && Unused(vs, p.ids.0) && Unused(vs, p.ids.1) && p.ids.0 != p.ids.1 && Pushes(vs, p, content)
    case Fetch(s) => SyncFits(vs, s)
    case Untag(artifact, tag) => IsTag(tag) && Taken(vs, artifact, tag)
    case Remove(_) => true
  }

  function Next(vs: set<Version>, step: Step, content: Content): set<Version> {
    match step
    case Publish(p) => Pushed(vs, p, content)
    case Fetch(s) => Synced(vs, s, content)
    case Untag(artifact, tag) => Without(vs, artifact, tag)
    case Remove(artifact) => set v | v in vs && v.artifact != artifact
  }

  /** After an artifact is removed no reference to it means anything, and references to others mean what they did. */
  lemma RemovedMeans(vs: set<Version>, artifact: Artifact, other: Artifact, reference: string, content: Content)
    requires other != artifact
    ensures var after := Next(vs, Remove(artifact), content);
            && ReferenceSeed(after, artifact, reference) == {}
            && ReferenceSeed(after, other, reference) == ReferenceSeed(vs, other, reference)
  {
    var after := Next(vs, Remove(artifact), content);
    forall x
      ensures Matches(x, other, reference) && x in vs ==> x in after
    {
    }
  }

  lemma RemovedKeeps(vs: set<Version>, artifact: Artifact, content: Content)
    requires Sound(vs, content)
    ensures Sound(Next(vs, Remove(artifact), content), content)
  {
    var after := Next(vs, Remove(artifact), content);
    forall v | v in after
      ensures NamesItself(after, v.artifact, v.digest)
    {
      var w :| w in vs && Named(w, v.artifact, v.digest) && w.digest == v.digest;
      assert w in after;
    }
    hide NamesItself;
  }

  /** The only write that can mix two manifests is a sync that moves a name to a manifest without its parts. */
  predicate Mixes(vs: set<Version>, step: Step, content: Content) {
    step.Fetch? && !Fresh(vs, step.s, content)
  }

  lemma NextKeeps(vs: set<Version>, step: Step, content: Content)
    requires Sound(vs, content) && Enabled(vs, step, content)
    ensures Sound(Next(vs, step, content), content) <==> !Mixes(vs, step, content)
  {
    hide Sound, Unused, Pushes, Taken, Pushed, Synced, SyncFits, Fresh;
    match step
    case Publish(p) => PushKeeps(vs, p, content);
    case Fetch(s) => SyncKeeps(vs, s, content);
    case Untag(artifact, tag) => UntaggedKeeps(vs, artifact, tag, content);
    case Remove(artifact) => RemovedKeeps(vs, artifact, content);
  }

  ghost predicate Legal(vs: set<Version>, steps: seq<Step>, content: Content)
    decreases |steps|
  {
    steps == [] || (Enabled(vs, steps[0], content) && Legal(Next(vs, steps[0], content), steps[1..], content))
  }

  function Run(vs: set<Version>, steps: seq<Step>, content: Content): set<Version>
    decreases |steps|
  {
    if steps == [] then vs else Run(Next(vs, steps[0], content), steps[1..], content)
  }

  ghost predicate NeverMixes(vs: set<Version>, steps: seq<Step>, content: Content)
    decreases |steps|
  {
    steps == [] || (!Mixes(vs, steps[0], content) && NeverMixes(Next(vs, steps[0], content), steps[1..], content))
  }

  lemma {:induction false} SoundOverRuns(vs: set<Version>, steps: seq<Step>, content: Content)
    requires Sound(vs, content) && Legal(vs, steps, content) && NeverMixes(vs, steps, content)
    ensures Sound(Run(vs, steps, content), content)
    decreases |steps|
  {
    hide Sound, Enabled, Next, Mixes;
    if steps != [] {
      NextKeeps(vs, steps[0], content);
      SoundOverRuns(Next(vs, steps[0], content), steps[1..], content);
    }
  }

  /** After any run of pushes, deletions and syncs in which no sync moves a name to a manifest without its parts, access
      is downward closed, for every artifact, reference and set of entitlements. */
  lemma AccessClosedOverRuns(steps: seq<Step>, content: Content, artifact: Artifact, reference: string)
    requires Legal({}, steps, content) && NeverMixes({}, steps, content)
    ensures var vs := Run({}, steps, content);
            Unambiguous(vs, artifact, reference) && BlobsFollow(vs, artifact, reference) && ChildrenFollow(vs, artifact, reference)
  {
    SoundOverRuns({}, steps, content);
    var vs := Run({}, steps, content);
    assert UniqueIds(vs);
    hide Sound, Run, Legal, NeverMixes, BlobsFollow, ChildrenFollow, UniqueIds, Unambiguous, ContentAddressed;
    SoundMeansOne(vs, content, artifact, reference);
    UnambiguousFollows(vs, artifact, reference);
  }
}

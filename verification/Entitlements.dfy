/** Which artifact versions an entitlement covers: the recursive query over manifests and their parts, round
    by round, against transitive containment. */
module Entitlements {
  import opened Wrappers

  type Id = nat
  type Digest = string

  datatype Artifact = Artifact(organization: string, name: string)

  /** A stored version: a tag or digest as its name, its manifest's digest, and the digests of its parts. */
  datatype Version = Version(id: Id, artifact: Artifact, name: string, digest: Digest, parts: set<Digest>)

  datatype Item = Item(artifact: Artifact, version: Option<Id>)

  datatype Entitlement = Entitlement(organization: Id, customer: Id, expiresAt: Option<int>, items: set<Item>)

  datatype Tables = Tables(versions: set<Version>, entitlements: set<Entitlement>)

  // ---------------------------------------------------------------- rounds of the recursive query

  predicate Contains(v: Version, w: Version) {
    w.digest in v.parts
  }

  /** The recursive term: every version with a part among the last round's manifests. */
  function Above(vs: set<Version>, work: set<Version>): set<Version> {
    set v | v in vs && exists w :: w in work && Contains(v, w)
  }

  function Round(vs: set<Version>, seed: set<Version>, n: nat): set<Version> {
    if n == 0 then seed else Above(vs, Round(vs, seed, n - 1))
  }

  predicate Link(path: seq<Version>, i: int) {
    0 <= i < |path| - 1 && Contains(path[i + 1], path[i])
  }

  /** A chain of versions, each contained in the next. */
  predicate Climb(vs: set<Version>, path: seq<Version>) {
    && (forall v :: v in path ==> v in vs)
    && forall i :: 0 <= i < |path| - 1 ==> Link(path, i)
  }

  predicate ClimbFrom(vs: set<Version>, seed: set<Version>, path: seq<Version>) {
    path != [] && path[0] in seed && Climb(vs, path)
  }

  /** Contained, over any number of levels, in `v`. */
  ghost predicate Reaches(vs: set<Version>, seed: set<Version>, v: Version) {
    exists path :: ClimbFrom(vs, seed, path) && path[|path| - 1] == v
  }

  predicate Repeats(path: seq<Version>) {
    exists i, j :: 0 <= i < j < |path| && path[i] == path[j]
  }

  /** Some version above the seed contains itself over one or more levels. */
  ghost predicate CycleAbove(vs: set<Version>, seed: set<Version>) {
    exists path :: ClimbFrom(vs, seed, path) && Repeats(path)
  }

  ghost predicate Terminates(vs: set<Version>, seed: set<Version>) {
    exists n: nat :: Round(vs, seed, n) == {}
  }

  lemma {:induction false} RoundHasClimb(vs: set<Version>, seed: set<Version>, n: nat, v: Version) returns (path: seq<Version>)
    requires seed <= vs && v in Round(vs, seed, n)
    ensures ClimbFrom(vs, seed, path) && |path| == n + 1 && path[n] == v
  {
    if n == 0 {
      path := [v];
    } else {
      var w :| w in Round(vs, seed, n - 1) && Contains(v, w);
      var shorter := RoundHasClimb(vs, seed, n - 1, w);
      path := shorter + [v];
      forall i | 0 <= i < |path| - 1
        ensures Link(path, i)
      {
        if i < n - 1 { assert Link(shorter, i); }
      }
    }
  }

  lemma {:induction false} ClimbInRound(vs: set<Version>, seed: set<Version>, path: seq<Version>, n: nat)
    requires ClimbFrom(vs, seed, path) && n < |path|
    ensures path[n] in Round(vs, seed, n)
  {
    if n > 0 {
      ClimbInRound(vs, seed, path, n - 1);
      assert Link(path, n - 1) && path[n] in path;
    }
  }

  /** Round n holds exactly what is reached over n levels. */
  lemma RoundExactly(vs: set<Version>, seed: set<Version>, n: nat, v: Version)
    requires seed <= vs
    ensures v in Round(vs, seed, n) <==> exists path :: ClimbFrom(vs, seed, path) && |path| == n + 1 && path[n] == v
  {
    if v in Round(vs, seed, n) {
      var path := RoundHasClimb(vs, seed, n, v);
    }
    forall path | ClimbFrom(vs, seed, path) && |path| == n + 1 && path[n] == v
      ensures v in Round(vs, seed, n)
    {
      ClimbInRound(vs, seed, path, n);
    }
  }

  // ---------------------------------------------------------------- termination

  lemma {:induction false} DistinctFits(vs: set<Version>, path: seq<Version>)
    requires (forall v :: v in path ==> v in vs) && !Repeats(path)
    ensures |path| <= |vs|
  {
    if path != [] {
      var last, front := path[|path| - 1], path[..|path| - 1];
      forall v | v in front
        ensures v in vs - {last}
      {
        var i :| 0 <= i < |front| && front[i] == v;
        assert path[i] == v;
      }
      assert !Repeats(front) by {
        if i, j :| 0 <= i < j < |front| && front[i] == front[j] { assert path[i] == path[j]; }
      }
      DistinctFits(vs - {last}, front);
      assert last in path;
    }
  }

  lemma RoundsRunOut(vs: set<Version>, seed: set<Version>, n: nat)
    requires seed <= vs && !CycleAbove(vs, seed) && |vs| <= n
    ensures Round(vs, seed, n) == {}
  {
    if v :| v in Round(vs, seed, n) {
      var path := RoundHasClimb(vs, seed, n, v);
      DistinctFits(vs, path);
    }
  }

  /** Walking around a cycle for ever. */
  function Turn(i: nat, j: nat, n: nat): nat
    requires i < j
    ensures Turn(i, j, n) < j
  {
    if n == 0 then 0 else if Turn(i, j, n - 1) + 1 == j then i else Turn(i, j, n - 1) + 1
  }

  lemma {:induction false} CycleNeverEnds(vs: set<Version>, seed: set<Version>, path: seq<Version>, i: nat, j: nat, n: nat)
    requires ClimbFrom(vs, seed, path) && i < j < |path| && path[i] == path[j]
    ensures path[Turn(i, j, n)] in Round(vs, seed, n)
  {
    if n > 0 {
      CycleNeverEnds(vs, seed, path, i, j, n - 1);
      var t := Turn(i, j, n - 1);
      assert Link(path, t) && path[t + 1] in path;
    }
  }

  /** The recursion ends exactly when nothing above the seed contains itself. */
  lemma TerminatesIffAcyclic(vs: set<Version>, seed: set<Version>)
    requires seed <= vs
    ensures Terminates(vs, seed) <==> !CycleAbove(vs, seed)
  {
    if !CycleAbove(vs, seed) {
      RoundsRunOut(vs, seed, |vs|);
    } else {
      var path :| ClimbFrom(vs, seed, path) && Repeats(path);
      var i, j :| 0 <= i < j < |path| && path[i] == path[j];
      forall n: nat
        ensures Round(vs, seed, n) != {}
      {
        CycleNeverEnds(vs, seed, path, i, j, n);
      }
    }
  }

  /** The query, round by round: everything that transitively contains the seed, and nothing else. */
  method Aggregate(vs: set<Version>, seed: set<Version>) returns (all: set<Version>)
    requires seed <= vs && !CycleAbove(vs, seed)
    ensures forall v :: v in all <==> Reaches(vs, seed, v)
  {
    all := {};
    var work := seed;
    ghost var n := 0;
    while work != {}
      invariant work == Round(vs, seed, n)
      invariant forall v :: v in all <==> exists m: nat :: m < n && v in Round(vs, seed, m)
      invariant n <= |vs|
      decreases |vs| - n
    {
      all := all + work;
      work := Above(vs, work);
      if n == |vs| { RoundsRunOut(vs, seed, n); }
      n := n + 1;
    }
    forall v
      ensures v in all <==> Reaches(vs, seed, v)
    {
      RoundsReach(vs, seed, n, v);
    }
  }

  lemma {:induction false} RoundsStayEmpty(vs: set<Version>, seed: set<Version>, n: nat, m: nat)
    requires Round(vs, seed, n) == {} && n <= m
    ensures Round(vs, seed, m) == {}
  {
    if n < m { RoundsStayEmpty(vs, seed, n, m - 1); }
  }

  lemma RoundsReach(vs: set<Version>, seed: set<Version>, n: nat, v: Version)
    requires seed <= vs && Round(vs, seed, n) == {}
    ensures (exists m: nat :: m < n && v in Round(vs, seed, m)) <==> Reaches(vs, seed, v)
  {
    forall m: nat | m < n && v in Round(vs, seed, m)
      ensures Reaches(vs, seed, v)
    {
      var path := RoundHasClimb(vs, seed, m, v);
    }
    if Reaches(vs, seed, v) {
      var path :| ClimbFrom(vs, seed, path) && path[|path| - 1] == v;
      ClimbInRound(vs, seed, path, |path| - 1);
      if n <= |path| - 1 { RoundsStayEmpty(vs, seed, n, |path| - 1); }
    }
  }

  // ---------------------------------------------------------------- the two checks

  predicate Matches(v: Version, artifact: Artifact, reference: string) {
    v.artifact == artifact && (v.name == reference || v.digest == reference)
  }

  /** Versions of the artifact whose manifest the reference names, by tag or by digest. */
  function ReferenceSeed(vs: set<Version>, artifact: Artifact, reference: string): set<Version> {
    set v | v in vs && v.artifact == artifact && exists x :: x in vs && Matches(x, artifact, reference) && x.digest == v.digest
  }

  function BlobSeed(vs: set<Version>, digest: Digest): set<Version> {
    set v | v in vs && digest in v.parts
  }

  predicate HasAnyEntitlement(t: Tables, organization: Id) {
    exists e :: e in t.entitlements && e.organization == organization
  }

  predicate Covers(e: Entitlement, customer: Id, now: int, v: Version) {
    && e.customer == customer && (e.expiresAt.None? || now < e.expiresAt.value)
    && (Item(v.artifact, None) in e.items || Item(v.artifact, Some(v.id)) in e.items)
  }

  ghost predicate Granted(t: Tables, seed: set<Version>, organization: Id, customer: Id, now: int) {
    HasAnyEntitlement(t, organization) ==>
      exists v, e :: Reaches(t.versions, seed, v) && e in t.entitlements && Covers(e, customer, now, v)
  }

  method CheckSeed(t: Tables, seed: set<Version>, organization: Id, customer: Id, now: int) returns (r: Result<()>)
    requires seed <= t.versions && !CycleAbove(t.versions, seed)
    ensures r.Ok? <==> Granted(t, seed, organization, customer, now)
  {
    if !HasAnyEntitlement(t, organization) {
      return Ok(());
    }
    var all := Aggregate(t.versions, seed);
    if exists v, e :: v in all && e in t.entitlements && Covers(e, customer, now, v) {
      return Ok(());
    }
    return Err("forbidden");
  }

  method CheckEntitlementForArtifact(t: Tables, artifact: Artifact, reference: string, organization: Id, customer: Id, now: int)
    returns (r: Result<()>)
    requires !CycleAbove(t.versions, ReferenceSeed(t.versions, artifact, reference))
    ensures r.Ok? <==> Granted(t, ReferenceSeed(t.versions, artifact, reference), organization, customer, now)
  {
    r := CheckSeed(t, ReferenceSeed(t.versions, artifact, reference), organization, customer, now);
  }

  method CheckEntitlementForArtifactBlob(t: Tables, digest: Digest, organization: Id, customer: Id, now: int)
    returns (r: Result<()>)
    requires !CycleAbove(t.versions, BlobSeed(t.versions, digest))
    ensures r.Ok? <==> Granted(t, BlobSeed(t.versions, digest), organization, customer, now)
  {
    r := CheckSeed(t, BlobSeed(t.versions, digest), organization, customer, now);
  }

  // ---------------------------------------------------------------- what a grant rests on

  /** Versions each listing the digest of the one before among its parts. */
  ghost predicate Nested(vs: set<Version>, path: seq<Version>) {
    && path != [] && (forall v :: v in path ==> v in vs)
    && forall i :: 0 <= i < |path| - 1 ==> path[i].digest in path[i + 1].parts
  }

  /** The customer's own entitlements that have not run out. */
  function Own(es: set<Entitlement>, customer: Id, now: int): set<Entitlement> {
    set e | e in es && e.customer == customer && (e.expiresAt == None || e.expiresAt.value > now)
  }

  /** The entitlement lists the version's artifact as a whole, or this version of it. */
  predicate Lists(e: Entitlement, v: Version) {
    exists i :: i in e.items && i.artifact == v.artifact && (i.version.Some? ==> i.version.value == v.id)
  }

  lemma CoversMeans(es: set<Entitlement>, e: Entitlement, customer: Id, now: int, v: Version)
    ensures e in es && Covers(e, customer, now, v) <==> e in Own(es, customer, now) && Lists(e, v)
  {
    if e in Own(es, customer, now) && Lists(e, v) {
      var i :| i in e.items && i.artifact == v.artifact && (i.version.Some? ==> i.version.value == v.id);
      assert i == Item(v.artifact, None) || i == Item(v.artifact, Some(v.id));
    }
    if Covers(e, customer, now, v) {
      assert Item(v.artifact, None) in e.items || Item(v.artifact, Some(v.id)) in e.items;
    }
  }

  lemma ClimbIsNested(vs: set<Version>, path: seq<Version>)
    ensures path != [] && Climb(vs, path) <==> Nested(vs, path)
  {
    if Nested(vs, path) {
      forall i | 0 <= i < |path| - 1
        ensures Link(path, i)
      {
        assert path[i].digest in path[i + 1].parts;
      }
    }
    if Climb(vs, path) {
      forall i | 0 <= i < |path| - 1
        ensures path[i].digest in path[i + 1].parts
      {
        assert Link(path, i);
      }
    }
  }

  /** A customer of an organization with entitlements is let through exactly by one of its own that lists something
      the seed is nested in. */
  lemma GrantMeans(t: Tables, seed: set<Version>, organization: Id, customer: Id, now: int)
    requires seed <= t.versions
    ensures Granted(t, seed, organization, customer, now) <==>
              (forall e :: e in t.entitlements ==> e.organization != organization)
              || exists path, e :: Nested(t.versions, path) && path[0] in seed
                                   && e in Own(t.entitlements, customer, now) && Lists(e, path[|path| - 1])
  {
    forall path
      ensures path != [] && path[0] in seed && Nested(t.versions, path) <==> ClimbFrom(t.versions, seed, path)
    {
      ClimbIsNested(t.versions, path);
    }
    forall e, v
      ensures e in t.entitlements && Covers(e, customer, now, v) <==> e in Own(t.entitlements, customer, now) && Lists(e, v)
    {
      CoversMeans(t.entitlements, e, customer, now, v);
    }
    hide Nested, ClimbFrom, Covers, Own, Lists;
    if HasAnyEntitlement(t, organization) && Granted(t, seed, organization, customer, now) {
      var v, e :| Reaches(t.versions, seed, v) && e in t.entitlements && Covers(e, customer, now, v);
      var path :| ClimbFrom(t.versions, seed, path) && path[|path| - 1] == v;
      assert Lists(e, path[|path| - 1]);
    }
    if path, e :| Nested(t.versions, path) && path[0] in seed && e in Own(t.entitlements, customer, now)
                  && Lists(e, path[|path| - 1]) {
      assert Reaches(t.versions, seed, path[|path| - 1]);
    }
  }

  lemma SeedsMean(vs: set<Version>, artifact: Artifact, reference: string, digest: Digest, v: Version)
    ensures v in ReferenceSeed(vs, artifact, reference) <==>
              v in vs && v.artifact == artifact
              && (v.digest == reference || v.name == reference
                  || exists x :: x in vs && x.artifact == artifact && x.name == reference && x.digest == v.digest)
    ensures v in BlobSeed(vs, digest) <==> v in vs && digest in v.parts
  {
    if v in vs && v.artifact == artifact && (v.digest == reference || v.name == reference) {
      assert Matches(v, artifact, reference);
    }
    if x :| x in vs && x.artifact == artifact && x.name == reference && x.digest == v.digest {
      assert Matches(x, artifact, reference);
    }
  }

  /** What other customers hold, and what has run out, never changes a customer's answer. */
  lemma OnlyOwnCounts(vs: set<Version>, es: set<Entitlement>, fs: set<Entitlement>, seed: set<Version>, organization: Id,
                      customer: Id, now: int)
    requires seed <= vs && Own(es, customer, now) == Own(fs, customer, now)
    requires exists e, f :: e in es && e.organization == organization && f in fs && f.organization == organization
    ensures Granted(Tables(vs, es), seed, organization, customer, now)
            <==> Granted(Tables(vs, fs), seed, organization, customer, now)
    ensures Own(es, customer, now) == {} ==> !Granted(Tables(vs, es), seed, organization, customer, now)
  {
    GrantMeans(Tables(vs, es), seed, organization, customer, now);
    GrantMeans(Tables(vs, fs), seed, organization, customer, now);
    hide Granted, Nested, Lists, Own;
  }

  // ---------------------------------------------------------------- access is downward closed

  /** A digest determines the manifest it hashes, hence its parts. */
  ghost predicate ContentAddressed(vs: set<Version>) {
    forall v, w :: v in vs && w in vs && v.digest == w.digest ==> v.parts == w.parts
  }

  /** Everything the reference may mean has one digest. */
  ghost predicate Unambiguous(vs: set<Version>, artifact: Artifact, reference: string) {
    forall v, w :: v in vs && w in vs && Matches(v, artifact, reference) && Matches(w, artifact, reference) ==>
      v.digest == w.digest
  }

  /** The unique key on version names. */
  ghost predicate UniqueNames(vs: set<Version>) {
    forall v, w :: v in vs && w in vs && v.artifact == w.artifact && v.name == w.name ==> v == w
  }

  predicate Named(v: Version, artifact: Artifact, reference: string) {
    v.artifact == artifact && v.name == reference
  }

  predicate Hashed(v: Version, artifact: Artifact, reference: string) {
    v.artifact == artifact && v.digest == reference
  }

  /** With unique names a reference is ambiguous only when it is a stored digest and also the name of a
      version with another digest. */
  lemma AmbiguousExactly(vs: set<Version>, artifact: Artifact, reference: string)
    requires UniqueNames(vs)
    ensures Unambiguous(vs, artifact, reference) <==>
            forall v, w :: v in vs && w in vs && Named(v, artifact, reference) && Hashed(w, artifact, reference) ==>
              v.digest == reference
  {
  }

  lemma ClimbsJoin(vs: set<Version>, seed: set<Version>, first: seq<Version>, rest: seq<Version>)
    requires ClimbFrom(vs, seed, first) && rest != [] && Climb(vs, rest) && rest[0] == first[|first| - 1]
    ensures ClimbFrom(vs, seed, first + rest[1..])
  {
    var path := first + rest[1..];
    forall i | 0 <= i < |path| - 1
      ensures Link(path, i)
    {
      if i < |first| - 1 {
        assert Link(first, i);
      } else {
        assert path[i] == rest[i - |first| + 1] && Link(rest, i - |first| + 1);
      }
    }
  }

  lemma ReachesOn(vs: set<Version>, lower: set<Version>, upper: set<Version>, v: Version)
    requires Reaches(vs, upper, v) && forall u :: u in upper ==> Reaches(vs, lower, u)
    ensures Reaches(vs, lower, v)
  {
    var rest :| ClimbFrom(vs, upper, rest) && rest[|rest| - 1] == v;
    var first :| ClimbFrom(vs, lower, first) && first[|first| - 1] == rest[0];
    ClimbsJoin(vs, lower, first, rest);
    var path := first + rest[1..];
    assert path[|path| - 1] == v;
  }

  /** The primary key. */
  ghost predicate UniqueIds(vs: set<Version>) {
    forall v, w :: v in vs && w in vs && v.id == w.id ==> v == w
  }

  /** Whatever the entitlements, a grant on the upper seed brings one on the lower. */
  ghost predicate Follows(vs: set<Version>, upper: set<Version>, lower: set<Version>) {
    forall es, organization, customer, now ::
      Granted(Tables(vs, es), upper, organization, customer, now) ==> Granted(Tables(vs, es), lower, organization, customer, now)
  }

  lemma ReachesItself(vs: set<Version>, seed: set<Version>, v: Version)
    requires v in seed && v in vs
    ensures Reaches(vs, seed, v)
  {
    assert ClimbFrom(vs, seed, [v]);
  }

  /** An entitlement to one version alone. */
  function Only(v: Version): Entitlement {
    Entitlement(0, 0, None, {Item(v.artifact, Some(v.id))})
  }

  lemma OnlyCovers(vs: set<Version>, seed: set<Version>, v: Version)
    requires UniqueIds(vs) && v in vs
    ensures Granted(Tables(vs, {Only(v)}), seed, 0, 0, 0) <==> Reaches(vs, seed, v)
  {
    var t := Tables(vs, {Only(v)});
    assert Only(v) in t.entitlements && Only(v).organization == 0 && Covers(Only(v), 0, 0, v);
    forall w, e | Reaches(vs, seed, w) && e in t.entitlements && Covers(e, 0, 0, w)
      ensures w == v
    {
      var path :| ClimbFrom(vs, seed, path) && path[|path| - 1] == w;
      assert w in path;
    }
  }

  /** A grant on one seed brings a grant on another, for all entitlements, exactly when everything in the first is
      reached from the second. */
  lemma FollowsExactly(vs: set<Version>, upper: set<Version>, lower: set<Version>)
    requires UniqueIds(vs) && upper <= vs
    ensures Follows(vs, upper, lower) <==> forall v :: v in upper ==> Reaches(vs, lower, v)
  {
    if Follows(vs, upper, lower) {
      forall v | v in upper
        ensures Reaches(vs, lower, v)
      {
        OnlyCovers(vs, upper, v);
        OnlyCovers(vs, lower, v);
        ReachesItself(vs, upper, v);
      }
    }
    if forall v :: v in upper ==> Reaches(vs, lower, v) {
      forall es, organization, customer, now | Granted(Tables(vs, es), upper, organization, customer, now)
        ensures Granted(Tables(vs, es), lower, organization, customer, now)
      {
        GrantFollows(Tables(vs, es), upper, lower, organization, customer, now);
      }
    }
  }

  lemma GrantFollows(t: Tables, upper: set<Version>, lower: set<Version>, organization: Id, customer: Id, now: int)
    requires Granted(t, upper, organization, customer, now) && forall v :: v in upper ==> Reaches(t.versions, lower, v)
    ensures Granted(t, lower, organization, customer, now)
  {
    hide Reaches, Covers;
    if HasAnyEntitlement(t, organization) {
      var v, e :| Reaches(t.versions, upper, v) && e in t.entitlements && Covers(e, customer, now, v);
      ReachesOn(t.versions, lower, upper, v);
    }
  }

  /** Whoever may pull by the reference may pull every blob of every manifest the reference may mean. */
  ghost predicate BlobsFollow(vs: set<Version>, artifact: Artifact, reference: string) {
    forall w, part :: w in ReferenceSeed(vs, artifact, reference) && part in w.parts ==>
      Follows(vs, ReferenceSeed(vs, artifact, reference), BlobSeed(vs, part))
  }

  /** `v` holds the blob over some number of levels. */
  ghost predicate Holds(vs: set<Version>, v: Version, part: Digest) {
    Reaches(vs, BlobSeed(vs, part), v)
  }

  /** It does so exactly when any two manifests the reference may mean hold each other's parts. */
  lemma BlobsFollowExactly(vs: set<Version>, artifact: Artifact, reference: string)
    requires UniqueIds(vs)
    ensures BlobsFollow(vs, artifact, reference) <==>
            forall v, w, part :: {v, w} <= ReferenceSeed(vs, artifact, reference) && part in w.parts ==> Holds(vs, v, part)
  {
    var seed := ReferenceSeed(vs, artifact, reference);
    forall w, part | w in seed && part in w.parts
      ensures Follows(vs, seed, BlobSeed(vs, part)) <==> forall v :: v in seed ==> Holds(vs, v, part)
    {
      FollowsExactly(vs, seed, BlobSeed(vs, part));
    }
    hide Follows, Holds, ReferenceSeed, BlobSeed;
  }

  /** A stored child manifest of the artifact, and a reference to it. */
  predicate ChildOf(vs: set<Version>, w: Version, child: Version, childReference: string) {
    child in vs && Contains(w, child) && Matches(child, w.artifact, childReference)
  }

  /** Whoever may pull by the reference may pull every child manifest stored as a version of the same artifact, under
      any reference to it. */
  ghost predicate ChildrenFollow(vs: set<Version>, artifact: Artifact, reference: string) {
    forall w, child, childReference :: w in ReferenceSeed(vs, artifact, reference) && ChildOf(vs, w, child, childReference) ==>
      Follows(vs, ReferenceSeed(vs, artifact, reference), ReferenceSeed(vs, artifact, childReference))
  }

  /** `v` is, or contains over some number of levels, a manifest that the child reference may mean. */
  ghost predicate Leads(vs: set<Version>, v: Version, childReference: string) {
    Reaches(vs, ReferenceSeed(vs, v.artifact, childReference), v)
  }

  /** It does so exactly when any two manifests the reference may mean lead to each other's children. */
  lemma ChildrenFollowExactly(vs: set<Version>, artifact: Artifact, reference: string)
    requires UniqueIds(vs)
    ensures ChildrenFollow(vs, artifact, reference) <==>
            forall v, w, child, childReference ::
              {v, w} <= ReferenceSeed(vs, artifact, reference) && ChildOf(vs, w, child, childReference) ==>
                Leads(vs, v, childReference)
  {
    var seed := ReferenceSeed(vs, artifact, reference);
    assert forall v :: v in seed ==> v.artifact == artifact;
    forall w, child, childReference | w in seed && ChildOf(vs, w, child, childReference)
      ensures Follows(vs, seed, ReferenceSeed(vs, artifact, childReference))
              <==> forall v :: v in seed ==> Leads(vs, v, childReference)
    {
      FollowsExactly(vs, seed, ReferenceSeed(vs, artifact, childReference));
    }
    hide Follows, Leads, ReferenceSeed, ChildOf;
  }

  /** With content-addressed manifests, an unambiguous reference is enough for both. */
  lemma UnambiguousFollows(vs: set<Version>, artifact: Artifact, reference: string)
    requires UniqueIds(vs) && ContentAddressed(vs) && Unambiguous(vs, artifact, reference)
    ensures BlobsFollow(vs, artifact, reference) && ChildrenFollow(vs, artifact, reference)
  {
    var seed := ReferenceSeed(vs, artifact, reference);
    BlobsFollowExactly(vs, artifact, reference);
    ChildrenFollowExactly(vs, artifact, reference);
    forall v, w | v in seed && w in seed
      ensures v.parts == w.parts
    {
    }
    forall v, w, part | v in seed && w in seed && part in w.parts
      ensures Holds(vs, v, part)
    {
      ReachesItself(vs, BlobSeed(vs, part), v);
    }
    forall v, w, child, childReference | v in seed && w in seed && ChildOf(vs, w, child, childReference)
      ensures Leads(vs, v, childReference)
    {
      ParentLeads(vs, v, child, childReference);
    }
    hide BlobsFollow, ChildrenFollow, Holds, Leads;
  }

  lemma ParentLeads(vs: set<Version>, v: Version, child: Version, childReference: string)
    requires v in vs && ChildOf(vs, v, child, childReference)
    ensures Leads(vs, v, childReference)
  {
    var path := [child, v];
    assert child in ReferenceSeed(vs, v.artifact, childReference);
    assert Link(path, 0);
    assert ClimbFrom(vs, ReferenceSeed(vs, v.artifact, childReference), path);
  }

  // ---------------------------------------------------------------- a reference that means two manifests

  lemma LastLink(vs: set<Version>, seed: set<Version>, path: seq<Version>)
    requires ClimbFrom(vs, seed, path)
    ensures path[|path| - 1] in vs
    ensures |path| > 1 ==> path[|path| - 2] in vs && Contains(path[|path| - 1], path[|path| - 2])
  {
    if |path| > 1 { assert Link(path, |path| - 2); }
  }

  /** Where no stored manifest contains another, nothing is reached but the seed. */
  lemma FlatReaches(vs: set<Version>, seed: set<Version>, v: Version)
    requires forall a, b :: a in vs && b in vs ==> !Contains(a, b)
    ensures Reaches(vs, seed, v) ==> v in seed
  {
    forall path | ClimbFrom(vs, seed, path) && path[|path| - 1] == v
      ensures v in seed
    {
      LastLink(vs, seed, path);
    }
  }

  /** A version named by another version's digest makes the reference mean both. Entitled to the hashed one alone, a
      customer is granted the reference but not the blob of the named one. */
  lemma AmbiguousGrant(named: Version, hashed: Version, part: Digest)
    requires named.artifact == hashed.artifact && named.id != hashed.id && named.name == hashed.digest
    requires named.parts == {part} && hashed.parts == {} && part != named.digest && part != hashed.digest
    ensures Granted(Tables({named, hashed}, {Only(hashed)}), ReferenceSeed({named, hashed}, named.artifact, named.name), 0, 0, 0)
    ensures !Granted(Tables({named, hashed}, {Only(hashed)}), BlobSeed({named, hashed}, part), 0, 0, 0)
  {
    var vs := {named, hashed};
    FlatReaches(vs, BlobSeed(vs, part), hashed);
    assert Matches(hashed, named.artifact, named.name);
    ReachesItself(vs, ReferenceSeed(vs, named.artifact, named.name), hashed);
    hide Reaches, Granted, Only;
    OnlyCovers(vs, ReferenceSeed(vs, named.artifact, named.name), hashed);
    OnlyCovers(vs, BlobSeed(vs, part), hashed);
  }

  const SHOP := Artifact("acme", "shop")

  /** A manifest pushed under another manifest's digest as its name, and that other manifest. */
  const NAMED := Version(1, SHOP, "x", "y", {"p"})
  const HASHED := Version(2, SHOP, "latest", "x", {})

  lemma AmbiguousReferenceFails()
    ensures UniqueIds({NAMED, HASHED}) && UniqueNames({NAMED, HASHED}) && ContentAddressed({NAMED, HASHED})
    ensures Granted(Tables({NAMED, HASHED}, {Only(HASHED)}), ReferenceSeed({NAMED, HASHED}, SHOP, "x"), 0, 0, 0)
    ensures "p" in NAMED.parts && !Granted(Tables({NAMED, HASHED}, {Only(HASHED)}), BlobSeed({NAMED, HASHED}, "p"), 0, 0, 0)
  {
    hide Granted, ReferenceSeed, BlobSeed, Only;
    assert "latest" != "x" && "x" != "y" && "p" != "x" && "p" != "y";
    AmbiguousGrant(NAMED, HASHED, "p");
  }
}

/** Release channels: every application with a channel has exactly one default channel, over every serial run. */
module Channels {
  import opened Wrappers

  type Id = nat

  const DEFAULT_NAME := "Stable"

  datatype Channel = Channel(organization: Id, application: Id, lifecycle: Id, name: string, details: string,
                             sortOrder: int, isDefault: bool)

  /** Applications and lifecycles by id, with their organization. */
  datatype Tables = Tables(channels: map<Id, Channel>, applications: map<Id, Id>, lifecycles: map<Id, Id>)

  predicate In(c: Channel, organization: Id, application: Id) {
    c.organization == organization && c.application == application
  }

  predicate IsDefault(cs: map<Id, Channel>, id: Id, organization: Id, application: Id) {
    id in cs && In(cs[id], organization, application) && cs[id].isDefault
  }

  predicate HasDefault(cs: map<Id, Channel>, organization: Id, application: Id, except: Option<Id>) {
    exists id :: id in cs && Some(id) != except && IsDefault(cs, id, organization, application)
  }

  function Cleared(cs: map<Id, Channel>, organization: Id, application: Id, except: Option<Id>): map<Id, Channel> {
    map id | id in cs ::
      if In(cs[id], organization, application) && Some(id) != except then cs[id].(isDefault := false) else cs[id]
  }

  // ---------------------------------------------------------------- the table's constraints

  predicate NameTaken(cs: map<Id, Channel>, id: Id, c: Channel) {
    exists j :: j in cs && j != id && In(cs[j], c.organization, c.application) && cs[j].name == c.name
  }

  predicate DefaultTaken(cs: map<Id, Channel>, id: Id, c: Channel) {
    c.isDefault && exists j :: j in cs && j != id && IsDefault(cs, j, c.organization, c.application)
  }

  /** The CHECK and the two unique indexes, for one row about to be written. */
  predicate Writable(cs: map<Id, Channel>, id: Id, c: Channel) {
    c.sortOrder >= 0 && !NameTaken(cs, id, c) && !DefaultTaken(cs, id, c)
  }

  predicate References(t: Tables, c: Channel) {
    && c.application in t.applications && t.applications[c.application] == c.organization
    && c.lifecycle in t.lifecycles && t.lifecycles[c.lifecycle] == c.organization
  }

  // ---------------------------------------------------------------- what each operation does

  /** The requested channel, made the default if it asks to be or if there is no other. */
  function Settled(cs: map<Id, Channel>, c: Channel, except: Option<Id>): Channel {
    c.(isDefault := c.isDefault || !HasDefault(cs, c.organization, c.application, except))
  }

  function Demoted(cs: map<Id, Channel>, c: Channel, except: Option<Id>): map<Id, Channel> {
    if c.isDefault then Cleared(cs, c.organization, c.application, except) else cs
  }

  /** The rows after a write by create or update. */
  function Written(cs: map<Id, Channel>, id: Id, c: Channel, except: Option<Id>): map<Id, Channel> {
    Demoted(cs, c, except)[id := Settled(cs, c, except)]
  }

  predicate MayUpdate(t: Tables, id: Id, c: Channel) {
    && id in t.channels && t.channels[id].organization == c.organization
    && (t.channels[id].isDefault ==> c.isDefault && t.channels[id].application == c.application)
    && References(t, c)
  }

  function Orphans(t: Tables, organization: Id): set<Id> {
    set a | a in t.applications && t.applications[a] == organization
            && !exists id :: id in t.channels && In(t.channels[id], organization, a)
  }

  /** Row ids the database draws for new default channels: one unused id per application that has none. */
  ghost predicate Draws(t: Tables, organization: Id, rows: map<Id, Id>) {
    && rows.Keys !! t.channels.Keys
    && (forall r :: r in rows ==> rows[r] in Orphans(t, organization))
    && (forall a :: a in Orphans(t, organization) ==> exists r :: r in rows && rows[r] == a)
    && (forall r, s :: r in rows && s in rows && rows[r] == rows[s] ==> r == s)
  }

  function DefaultsFor(organization: Id, lifecycle: Id, rows: map<Id, Id>): map<Id, Channel> {
    map r | r in rows :: Channel(organization, rows[r], lifecycle, DEFAULT_NAME, "Default channel", 0, true)
  }

  /** The row's application and lifecycle are among its organization's own. */
  predicate Belongs(t: Tables, c: Channel) {
    c.application in OwnedBy(t.applications, c.organization) && c.lifecycle in OwnedBy(t.lifecycles, c.organization)
  }

  function OwnedBy(owners: map<Id, Id>, organization: Id): set<Id> {
    set x | x in owners && owners[x] == organization
  }

  /** No other channel of the application has the name. */
  predicate NameFree(cs: map<Id, Channel>, id: Id, c: Channel) {
    forall j :: j in cs && j != id && cs[j].name == c.name ==>
      cs[j].organization != c.organization || cs[j].application != c.application
  }

  lemma GuardsMean(t: Tables, id: Id, c: Channel)
    ensures References(t, c) <==> Belongs(t, c)
    ensures NameTaken(t.channels, id, c) <==> !NameFree(t.channels, id, c)
  {
  }

  /** The CHECK and the two indexes, in rows. */
  lemma WritableMeans(cs: map<Id, Channel>, id: Id, c: Channel)
    ensures Writable(cs, id, c) <==>
              && c.sortOrder >= 0 && NameFree(cs, id, c)
              && forall j :: j in cs && j != id && cs[j].isDefault && c.isDefault ==>
                   cs[j].organization != c.organization || cs[j].application != c.application
  {
  }

  /** The write as rows: the written channel is as asked, a default if it asks to be or no other is; the other channels of
      its application give way to a default that was asked for, and no other row changes. */
  ghost predicate WrittenOver(before: map<Id, Channel>, id: Id, c: Channel, after: map<Id, Channel>) {
    && after.Keys == before.Keys + {id}
    && (forall j :: j in after ==> after[j].(isDefault := false) == (if j == id then c else before[j]).(isDefault := false))
    && (forall j :: j in after && j != id ==>
          (after[j].isDefault <==>
             before[j].isDefault
             && !(c.isDefault && before[j].organization == c.organization && before[j].application == c.application)))
    && (after[id].isDefault <==>
          c.isDefault
          || forall j :: j in before && j != id && before[j].isDefault ==>
               before[j].organization != c.organization || before[j].application != c.application)
  }

  lemma WrittenMeans(cs: map<Id, Channel>, id: Id, c: Channel, except: Option<Id>)
    requires Excepts(cs, id, except)
    ensures WrittenOver(cs, id, c, Written(cs, id, c, except))
  {
  }

  class ChannelTable {
    var channels: map<Id, Channel>
    var applications: map<Id, Id>
    var lifecycles: map<Id, Id>

    constructor (t: Tables)
      ensures State() == t
    {
      channels, applications, lifecycles := t.channels, t.applications, t.lifecycles;
    }

    function State(): Tables
      reads this
    {
      Tables(channels, applications, lifecycles)
    }

    /** INSERT or UPDATE of one row; a constraint refuses it whole. */
    method Write(id: Id, c: Channel) returns (ok: bool)
      modifies this`channels
      ensures ok <==> Writable(old(channels), id, c)
      ensures channels == if ok then old(channels)[id := c] else old(channels)
    {
      ok := Writable(channels, id, c);
      if ok {
        channels := channels[id := c];
      }
    }

    /** Creates a channel. The default index never refuses it: only a bad reference, a taken name or a negative
        sort order does, and then nothing changes. */
    method Create(c: Channel, id: Id) returns (r: Result<Channel>)
      requires OneDefault(channels) && id !in channels
      modifies this`channels
      ensures r.Ok? <==> Belongs(old(State()), c) && c.sortOrder >= 0 && NameFree(old(channels), id, c)
      ensures r.Ok? ==> channels == Written(old(channels), id, c, None) && r.value == channels[id]
      ensures r.Ok? ==> WrittenOver(old(channels), id, c, channels)
      ensures r.Err? ==> channels == old(channels)
    {
      ghost var before := channels;
      GuardsMean(State(), id, c);
      hide Belongs, NameFree, NameTaken;
      if !References(Tables(channels, applications, lifecycles), c) {
        return Err("not found");
      }
      var rows := channels;
      var channel := c;
      if channel.isDefault {
        channels := Cleared(channels, c.organization, c.application, None);
      } else if !HasDefault(channels, c.organization, c.application, None) {
        channel := channel.(isDefault := true);
      }
      WriteAllowed(before, id, c, None);
      WrittenMeans(before, id, c, None);
      var ok := Write(id, channel);
      if !ok {
        channels := rows;
        return Err("conflict");
      }
      return Ok(channel);
    }

    /** Updates a channel, possibly moving it to another application. */
    method Update(id: Id, c: Channel, managed: bool) returns (r: Result<Channel>)
      requires OneDefault(channels)
      modifies this`channels
      ensures r.Ok? <==> id in old(channels) && old(channels)[id].organization == c.organization && !managed
                         && (old(channels)[id].isDefault ==>
                               c.isDefault && old(channels)[id].application == c.application)
                         && Belongs(old(State()), c) && c.sortOrder >= 0 && NameFree(old(channels), id, c)
      ensures r.Ok? ==> channels == Written(old(channels), id, c, Some(id)) && r.value == channels[id]
      ensures r.Ok? ==> WrittenOver(old(channels), id, c, channels)
      ensures r.Err? ==> channels == old(channels)
    {
      ghost var before := channels;
      GuardsMean(State(), id, c);
      hide Belongs, NameFree, NameTaken;
      if id !in channels || channels[id].organization != c.organization {
        return Err("not found");
      }
      var existing := channels[id];
      if managed || (existing.isDefault && !c.isDefault) || (existing.isDefault && existing.application != c.application) {
        return Err("conflict");
      }
      if !References(Tables(channels, applications, lifecycles), c) {
        return Err("not found");
      }
      var rows := channels;
      var channel := c;
      if channel.isDefault {
        channels := Cleared(channels, c.organization, c.application, Some(id));
      } else if !HasDefault(channels, c.organization, c.application, Some(id)) {
        channel := channel.(isDefault := true);
      }
      WriteAllowed(before, id, c, Some(id));
      WrittenMeans(before, id, c, Some(id));
      var ok := Write(id, channel);
      if !ok {
        channels := rows;
        return Err("conflict");
      }
      return Ok(channel);
    }

    /** Deletes a channel, never a default one; `pinned` says that protected references point to it, which makes the
        DELETE itself fail. */
    method Delete(id: Id, organization: Id, managed: bool, pinned: bool) returns (ok: bool)
      modifies this`channels
      ensures ok <==> id in old(channels) && old(channels)[id].organization == organization
                      && !old(channels)[id].isDefault && !managed && !pinned
      ensures channels == if ok then old(channels) - {id} else old(channels)
    {
      if id !in channels || channels[id].organization != organization || channels[id].isDefault || managed {
        return false;
      }
      if pinned {
        return false;
      }
      channels := channels - {id};
      return true;
    }

    /** Gives every application of the organization without channels a default one, if there is a lifecycle: then each
        of its applications has exactly one default, and no channel that was there changes. */
    method EnsureDefaults(organization: Id, lifecycle: Option<Id>, rows: map<Id, Id>)
      requires Draws(State(), organization, rows)
      modifies this`channels
      ensures channels == if lifecycle.None? then old(channels)
                          else old(channels) + DefaultsFor(organization, lifecycle.value, rows)
      ensures OneDefault(old(channels)) ==> OneDefault(channels)
      ensures OneDefault(old(channels)) && lifecycle.Some? ==>
                forall a :: a in applications && applications[a] == organization ==> ExactlyOne(channels, organization, a)
      ensures forall id :: id in old(channels) ==> id in channels && channels[id] == old(channels)[id]
      ensures forall id :: id in channels && id !in old(channels) ==>
                channels[id].isDefault && channels[id].organization == organization
                && lifecycle == Some(channels[id].lifecycle) && channels[id].name == "Stable" && channels[id].sortOrder == 0
                && channels[id].application in Orphans(old(State()), organization)
    {
      ghost var t := State();
      if lifecycle.Some? {
        if OneDefault(channels) { EnsuredAll(t, organization, lifecycle.value, rows); }
        channels := channels + DefaultsFor(organization, lifecycle.value, rows);
        hide OneDefault, ExactlyOne, Orphans;
      }
    }
  }

  // ---------------------------------------------------------------- exactly one default

  ghost predicate ExactlyOne(cs: map<Id, Channel>, organization: Id, application: Id) {
    && (exists id :: IsDefault(cs, id, organization, application))
    && forall i, j :: IsDefault(cs, i, organization, application) && IsDefault(cs, j, organization, application) ==> i == j
  }

  /** Every application with at least one channel has exactly one default channel. */
  ghost predicate OneDefault(cs: map<Id, Channel>) {
    forall id :: id in cs ==> ExactlyOne(cs, cs[id].organization, cs[id].application)
  }

  /** Whether the row being written is left out of the demotion: an update leaves itself out. */
  predicate Excepts(cs: map<Id, Channel>, id: Id, except: Option<Id>) {
    except == if id in cs then Some(id) else None
  }

  lemma DemotedDefaults(cs: map<Id, Channel>, id: Id, c: Channel, except: Option<Id>, j: Id, organization: Id, application: Id)
    requires Excepts(cs, id, except) && j != id
    ensures IsDefault(Demoted(cs, c, except), j, organization, application) <==>
            IsDefault(cs, j, organization, application) && !(c.isDefault && In(c, organization, application))
  {
  }

  lemma WrittenDefaults(cs: map<Id, Channel>, id: Id, c: Channel, except: Option<Id>, organization: Id, application: Id)
    requires Excepts(cs, id, except)
    ensures forall j :: IsDefault(Written(cs, id, c, except), j, organization, application) <==>
              if j == id then In(c, organization, application) && Settled(cs, c, except).isDefault
              else IsDefault(cs, j, organization, application) && !(c.isDefault && In(c, organization, application))
  {
    forall j | j != id
      ensures IsDefault(Demoted(cs, c, except), j, organization, application) <==>
              IsDefault(cs, j, organization, application) && !(c.isDefault && In(c, organization, application))
    {
      DemotedDefaults(cs, id, c, except, j, organization, application);
    }
    hide Demoted, HasDefault;
  }

  lemma NamesStay(cs: map<Id, Channel>, id: Id, c: Channel, except: Option<Id>)
    ensures NameTaken(Demoted(cs, c, except), id, Settled(cs, c, except)) <==> NameTaken(cs, id, c)
  {
    var rows := Demoted(cs, c, except);
    assert forall j :: j in cs ==> j in rows && rows[j].(isDefault := false) == cs[j].(isDefault := false);
    hide Demoted, HasDefault;
    if NameTaken(cs, id, c) {
      var j :| j in cs && j != id && In(cs[j], c.organization, c.application) && cs[j].name == c.name;
      assert rows[j].name == c.name;
    }
  }

  /** After demoting the others, the default index has no objection. */
  lemma WriteAllowed(cs: map<Id, Channel>, id: Id, c: Channel, except: Option<Id>)
    requires Excepts(cs, id, except)
    ensures Writable(Demoted(cs, c, except), id, Settled(cs, c, except)) <==> c.sortOrder >= 0 && !NameTaken(cs, id, c)
  {
    NamesStay(cs, id, c, except);
    forall j | j != id
      ensures Settled(cs, c, except).isDefault ==> !IsDefault(Demoted(cs, c, except), j, c.organization, c.application)
    {
      DemotedDefaults(cs, id, c, except, j, c.organization, c.application);
    }
    hide Demoted, NameTaken, IsDefault, HasDefault;
  }

  lemma WrittenKeepsOne(cs: map<Id, Channel>, id: Id, c: Channel, except: Option<Id>, organization: Id, application: Id)
    requires Excepts(cs, id, except)
    requires IsDefault(cs, id, organization, application) ==> c.isDefault && In(c, organization, application)
    requires In(c, organization, application) || ExactlyOne(cs, organization, application)
    requires (exists j :: j in cs && In(cs[j], organization, application)) ==> ExactlyOne(cs, organization, application)
    ensures ExactlyOne(Written(cs, id, c, except), organization, application)
  {
    var after := Written(cs, id, c, except);
    WrittenDefaults(cs, id, c, except, organization, application);
    if In(c, organization, application) {
      SettledDefault(cs, id, c, except, organization, application);
      hide Written, Settled, HasDefault;
      if Settled(cs, c, except).isDefault {
        assert IsDefault(after, id, organization, application);
      } else {
        var d :| d != id && IsDefault(cs, d, organization, application);
        assert IsDefault(after, d, organization, application);
      }
    } else {
      hide Written, Settled, HasDefault;
      var d :| IsDefault(cs, d, organization, application);
      assert IsDefault(after, d, organization, application);
    }
  }

  lemma SettledDefault(cs: map<Id, Channel>, id: Id, c: Channel, except: Option<Id>, organization: Id, application: Id)
    requires Excepts(cs, id, except) && In(c, organization, application)
    ensures c.isDefault ==> Settled(cs, c, except).isDefault
    ensures !c.isDefault ==>
              (Settled(cs, c, except).isDefault <==> forall d :: d != id ==> !IsDefault(cs, d, organization, application))
  {
    hide IsDefault;
    assert forall d :: IsDefault(cs, d, organization, application) ==> d in cs by { DefaultIsRow(cs, organization, application); }
  }

  lemma DefaultIsRow(cs: map<Id, Channel>, organization: Id, application: Id)
    ensures forall d :: IsDefault(cs, d, organization, application) ==> d in cs
  {
  }

  lemma WrittenKeeps(cs: map<Id, Channel>, id: Id, c: Channel, except: Option<Id>)
    requires OneDefault(cs) && Excepts(cs, id, except)
    requires id in cs && cs[id].isDefault ==> c.isDefault && In(c, cs[id].organization, cs[id].application)
    ensures OneDefault(Written(cs, id, c, except))
  {
    var after := Written(cs, id, c, except);
    assert forall j :: j in after && j != id ==> j in cs && In(cs[j], after[j].organization, after[j].application);
    assert id in after && In(c, after[id].organization, after[id].application);
    hide Written, ExactlyOne;
    forall j | j in after
      ensures ExactlyOne(after, after[j].organization, after[j].application)
    {
      WrittenKeepsOne(cs, id, c, except, after[j].organization, after[j].application);
    }
  }

  /** A step that neither touches nor adds an application's channels leaves its default alone. */
  lemma OneStays(cs: map<Id, Channel>, after: map<Id, Channel>, organization: Id, application: Id)
    requires ExactlyOne(cs, organization, application)
    requires forall j :: IsDefault(after, j, organization, application) <==> IsDefault(cs, j, organization, application)
    ensures ExactlyOne(after, organization, application)
  {
    hide IsDefault;
    var d :| IsDefault(cs, d, organization, application);
    assert IsDefault(after, d, organization, application);
  }

  lemma DeletedKeeps(cs: map<Id, Channel>, id: Id)
    requires OneDefault(cs) && id in cs && !cs[id].isDefault
    ensures OneDefault(cs - {id})
  {
    hide ExactlyOne;
    forall j | j in cs - {id}
      ensures ExactlyOne(cs - {id}, cs[j].organization, cs[j].application)
    {
      OneStays(cs, cs - {id}, cs[j].organization, cs[j].application);
    }
  }

  lemma RemovedKeeps(t: Tables, a: Id)
    requires OneDefault(t.channels)
    ensures OneDefault(Next(t, RemoveApplication(a)).channels)
  {
    var after := Next(t, RemoveApplication(a)).channels;
    hide ExactlyOne;
    forall j | j in after
      ensures ExactlyOne(after, after[j].organization, after[j].application)
    {
      OneStays(t.channels, after, after[j].organization, after[j].application);
    }
  }

  lemma EnsuredDefaults(t: Tables, organization: Id, lifecycle: Id, rows: map<Id, Id>, o: Id, a: Id)
    requires Draws(t, organization, rows)
    ensures var after := t.channels + DefaultsFor(organization, lifecycle, rows);
            forall j :: IsDefault(after, j, o, a) <==>
              if o == organization && a in Orphans(t, organization) then j in rows && rows[j] == a
              else IsDefault(t.channels, j, o, a)
  {
    forall j | j in rows
      ensures rows[j] in Orphans(t, organization)
    {
    }
  }

  lemma EnsuredOne(t: Tables, organization: Id, lifecycle: Id, rows: map<Id, Id>, o: Id, a: Id)
    requires Draws(t, organization, rows)
    requires (o == organization && a in Orphans(t, organization)) || ExactlyOne(t.channels, o, a)
    ensures ExactlyOne(t.channels + DefaultsFor(organization, lifecycle, rows), o, a)
  {
    var after := t.channels + DefaultsFor(organization, lifecycle, rows);
    EnsuredDefaults(t, organization, lifecycle, rows, o, a);
    hide IsDefault, DefaultsFor, Orphans;
    if o == organization && a in Orphans(t, organization) {
      var r :| r in rows && rows[r] == a;
      assert IsDefault(after, r, o, a);
    } else {
      OneStays(t.channels, after, o, a);
    }
  }

  lemma EnsuredKeeps(t: Tables, organization: Id, lifecycle: Id, rows: map<Id, Id>)
    requires OneDefault(t.channels) && Draws(t, organization, rows)
    ensures OneDefault(t.channels + DefaultsFor(organization, lifecycle, rows))
  {
    var after := t.channels + DefaultsFor(organization, lifecycle, rows);
    hide ExactlyOne, Orphans;
    forall j | j in after
      ensures ExactlyOne(after, after[j].organization, after[j].application)
    {
      EnsuredOne(t, organization, lifecycle, rows, after[j].organization, after[j].application);
    }
  }

  // ---------------------------------------------------------------- runs

  datatype Step =
    | Create(c: Channel, id: Id)
    | Update(id: Id, c: Channel)
    | Delete(id: Id)
    | EnsureDefaults(organization: Id, lifecycle: Id, rows: map<Id, Id>)
    | AddApplication(application: Id, organization: Id)
    | AddLifecycle(lifecycle: Id, organization: Id)
    | RemoveApplication(application: Id)

  ghost predicate Enabled(t: Tables, step: Step) {
    match step
    case Create(c, id) => id !in t.channels && References(t, c) && !NameTaken(t.channels, id, c)
    case Update(id, c) => MayUpdate(t, id, c) && !NameTaken(t.channels, id, c)
    case Delete(id) => id in t.channels && !t.channels[id].isDefault
    case EnsureDefaults(organization, lifecycle, rows) => Draws(t, organization, rows)
    case AddApplication(a, _) => a !in t.applications
    case AddLifecycle(l, _) => l !in t.lifecycles
    case RemoveApplication(a) => a in t.applications
  }

  function Next(t: Tables, step: Step): Tables {
    match step
    case Create(c, id) => t.(channels := Written(t.channels, id, c, None))
    case Update(id, c) => t.(channels := Written(t.channels, id, c, Some(id)))
    case Delete(id) => t.(channels := t.channels - {id})
    case EnsureDefaults(organization, lifecycle, rows) => t.(channels := t.channels + DefaultsFor(organization, lifecycle, rows))
    case AddApplication(a, o) => t.(applications := t.applications[a := o])
    case AddLifecycle(l, o) => t.(lifecycles := t.lifecycles[l := o])
    case RemoveApplication(a) =>
      t.(applications := t.applications - {a},
         channels := map id | id in t.channels && t.channels[id].application != a :: t.channels[id])
  }

  lemma NextKeeps(t: Tables, step: Step)
    requires OneDefault(t.channels) && Enabled(t, step)
    ensures OneDefault(Next(t, step).channels)
  {
    match step
    case Create(c, id) => WrittenKeeps(t.channels, id, c, None);
    case Update(id, c) => WrittenKeeps(t.channels, id, c, Some(id));
    case Delete(id) => DeletedKeeps(t.channels, id);
    case EnsureDefaults(organization, lifecycle, rows) => EnsuredKeeps(t, organization, lifecycle, rows);
    case RemoveApplication(a) => RemovedKeeps(t, a);
    case _ =>
  }

  ghost predicate Legal(t: Tables, steps: seq<Step>)
    decreases |steps|
  {
    steps == [] || (Enabled(t, steps[0]) && Legal(Next(t, steps[0]), steps[1..]))
  }

  function Run(t: Tables, steps: seq<Step>): Tables
    decreases |steps|
  {
    if steps == [] then t else Run(Next(t, steps[0]), steps[1..])
  }

  lemma {:induction false} DefaultsOverRuns(t: Tables, steps: seq<Step>)
    requires OneDefault(t.channels) && Legal(t, steps)
    ensures OneDefault(Run(t, steps).channels)
    decreases |steps|
  {
    if steps != [] {
      NextKeeps(t, steps[0]);
      DefaultsOverRuns(Next(t, steps[0]), steps[1..]);
    }
  }

  /** Right after the defaults are ensured, every application of the organization has a default channel. */
  lemma EnsuredCovers(t: Tables, organization: Id, lifecycle: Id, rows: map<Id, Id>, a: Id)
    requires OneDefault(t.channels) && Draws(t, organization, rows) && a in t.applications && t.applications[a] == organization
    ensures ExactlyOne(Next(t, EnsureDefaults(organization, lifecycle, rows)).channels, organization, a)
  {
    if a !in Orphans(t, organization) {
      var id :| id in t.channels && In(t.channels[id], organization, a);
    }
    hide ExactlyOne, Draws, Orphans, DefaultsFor;
    EnsuredOne(t, organization, lifecycle, rows, organization, a);
  }

  lemma EnsuredAll(t: Tables, organization: Id, lifecycle: Id, rows: map<Id, Id>)
    requires OneDefault(t.channels) && Draws(t, organization, rows)
    ensures OneDefault(t.channels + DefaultsFor(organization, lifecycle, rows))
    ensures forall a :: a in t.applications && t.applications[a] == organization ==>
              ExactlyOne(t.channels + DefaultsFor(organization, lifecycle, rows), organization, a)
  {
    EnsuredKeeps(t, organization, lifecycle, rows);
    hide OneDefault, ExactlyOne, Draws, Orphans, DefaultsFor;
    forall a | a in t.applications && t.applications[a] == organization
      ensures ExactlyOne(t.channels + DefaultsFor(organization, lifecycle, rows), organization, a)
    {
      EnsuredCovers(t, organization, lifecycle, rows, a);
    }
  }

  // ---------------------------------------------------------------- the keys of the tables

  /** The foreign keys, the sort order check, and channel names unique in their application. */
  ghost predicate Keyed(t: Tables) {
    && (forall id :: id in t.channels ==> Belongs(t, t.channels[id]) && t.channels[id].sortOrder >= 0)
    && (forall i, j :: i in t.channels && j in t.channels && i != j && t.channels[i].name == t.channels[j].name ==>
          t.channels[i].organization != t.channels[j].organization || t.channels[i].application != t.channels[j].application)
  }

  /** The lifecycle given to new defaults is one of the organization's, and the CHECK refuses a negative order. */
  predicate Sane(t: Tables, step: Step) {
    match step
    case Create(c, _) => c.sortOrder >= 0
    case Update(_, c) => c.sortOrder >= 0
    case EnsureDefaults(organization, lifecycle, _) => lifecycle in t.lifecycles && t.lifecycles[lifecycle] == organization
    case _ => true
  }

  lemma WrittenKeyed(t: Tables, id: Id, c: Channel, except: Option<Id>)
    requires Keyed(t) && Excepts(t.channels, id, except) && References(t, c) && c.sortOrder >= 0 && !NameTaken(t.channels, id, c)
    ensures Keyed(t.(channels := Written(t.channels, id, c, except)))
  {
    GuardsMean(t, id, c);
    WrittenRows(t.channels, id, c, except);
    hide Written, References, NameTaken, Excepts;
  }

  lemma WrittenRows(cs: map<Id, Channel>, id: Id, c: Channel, except: Option<Id>)
    requires Excepts(cs, id, except)
    ensures var after := Written(cs, id, c, except);
            && after.Keys == cs.Keys + {id}
            && forall j :: j in after ==> after[j] == (if j == id then c else cs[j]).(isDefault := after[j].isDefault)
  {
  }

  lemma EnsuredKeyed(t: Tables, organization: Id, lifecycle: Id, rows: map<Id, Id>)
    requires Keyed(t) && Draws(t, organization, rows) && lifecycle in t.lifecycles && t.lifecycles[lifecycle] == organization
    ensures Keyed(t.(channels := t.channels + DefaultsFor(organization, lifecycle, rows)))
  {
    var after := t.channels + DefaultsFor(organization, lifecycle, rows);
    forall r | r in rows
      ensures rows[r] in Orphans(t, organization)
    {
    }
    forall i, j | i in after && j in after && i != j && after[i].name == after[j].name
      ensures after[i].organization != after[j].organization || after[i].application != after[j].application
    {
      if i in rows && j in rows { assert rows[i] != rows[j]; }
    }
  }

  /** Every step keeps the tables' keys. */
  lemma NextKeyed(t: Tables, step: Step)
    requires Keyed(t) && Enabled(t, step) && Sane(t, step)
    ensures Keyed(Next(t, step))
  {
    match step
    case Create(c, id) => WrittenKeyed(t, id, c, None);
    case Update(id, c) => WrittenKeyed(t, id, c, Some(id));
    case EnsureDefaults(organization, lifecycle, rows) => EnsuredKeyed(t, organization, lifecycle, rows);
    case _ =>
  }

  ghost predicate AllSane(t: Tables, steps: seq<Step>)
    decreases |steps|
  {
    steps == [] || (Sane(t, steps[0]) && AllSane(Next(t, steps[0]), steps[1..]))
  }

  /** Over every serial run channels stay within their organization, under names unique in their application. */
  lemma {:induction false} KeysOverRuns(t: Tables, steps: seq<Step>)
    requires Keyed(t) && Legal(t, steps) && AllSane(t, steps)
    ensures Keyed(Run(t, steps))
    decreases |steps|
  {
    hide Keyed, Enabled, Sane, Next;
    if steps != [] {
      NextKeyed(t, steps[0]);
      KeysOverRuns(Next(t, steps[0]), steps[1..]);
    }
  }
}

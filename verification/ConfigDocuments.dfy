/** Configuration documents written as YAML: converting a node tree, and agreement with the JSON reader on what
    is refused and what value is read. */
module ConfigDocuments {
  import opened JsonScan

  const MAX_DEPTH: nat := 64

  datatype Entry = Entry(key: string, value: Node)

  datatype Node =
    | Scalar(anchored: bool, atom: Atom)
    | Mapping(anchored: bool, entries: seq<Entry>)
    | Sequence(anchored: bool, nodes: seq<Node>)
    | Alias

  datatype Problem = Deep | Anchored | Repeats(name: string)

  datatype Fault = Fault(path: seq<Segment>, problem: Problem)

  predicate Bound(n: Node) {
    n.Alias? || n.anchored
  }

  predicate RepeatsKey(entries: seq<Entry>, i: nat)
    requires i < |entries|
  {
    exists j :: 0 <= j < i && entries[j].key == entries[i].key
  }

  /** What a node tree is refused for, in document order. The value of a repeated key is not looked at. */
  function Faults(n: Node, path: seq<Segment>, depth: nat): seq<Fault>
    decreases n, 0, 0
  {
    if depth > MAX_DEPTH then [Fault(path, Deep)]
    else if Bound(n) then [Fault(path, Anchored)]
    else match n
      case Scalar(_, _) => []
      case Mapping(_, entries) => EntryFaults(entries, |entries|, path, depth)
      case Sequence(_, nodes) => NodeFaults(nodes, |nodes|, path, depth)
      case Alias => []
  }

  function EntryFaults(entries: seq<Entry>, n: nat, path: seq<Segment>, depth: nat): seq<Fault>
    requires n <= |entries|
    decreases entries, 1, n
  {
    if n == 0 then []
    else
      var e := entries[n - 1];
      var below := path + [Under(e.key)];
      EntryFaults(entries, n - 1, path, depth)
      + if RepeatsKey(entries, n - 1) then [Fault(below, Repeats(e.key))] else Faults(e.value, below, depth + 1)
  }

  function NodeFaults(nodes: seq<Node>, n: nat, path: seq<Segment>, depth: nat): seq<Fault>
    requires n <= |nodes|
    decreases nodes, 1, n
  {
    if n == 0 then []
    else NodeFaults(nodes, n - 1, path, depth) + Faults(nodes[n - 1], path + [At(n - 1)], depth + 1)
  }

  /** The value read from a node tree; what is refused reads as null. Of entries with one key, the first stays. */
  function Read(n: Node, depth: nat): Value
    decreases n, 0, 0
  {
    if depth > MAX_DEPTH || Bound(n) then Plain(Null)
    else match n
      case Scalar(_, atom) => Plain(atom)
      case Mapping(_, entries) => Record(ReadEntries(entries, |entries|, depth))
      case Sequence(_, nodes) => List(ReadNodes(nodes, |nodes|, depth))
      case Alias => Plain(Null)
  }

  function ReadEntries(entries: seq<Entry>, n: nat, depth: nat): map<string, Value>
    requires n <= |entries|
    decreases entries, 1, n
  {
    if n == 0 then map[]
    else if RepeatsKey(entries, n - 1) then ReadEntries(entries, n - 1, depth)
    else ReadEntries(entries, n - 1, depth)[entries[n - 1].key := Read(entries[n - 1].value, depth + 1)]
  }

  function ReadNodes(nodes: seq<Node>, n: nat, depth: nat): (r: seq<Value>)
    requires n <= |nodes|
    ensures |r| == n
    decreases nodes, 1, n
  {
    if n == 0 then [] else ReadNodes(nodes, n - 1, depth) + [Read(nodes[n - 1], depth + 1)]
  }

  /** One pass computes both. */
  method NodeToValue(n: Node, path: seq<Segment>, depth: nat) returns (value: Value, faults: seq<Fault>)
    ensures value == Read(n, depth) && faults == Faults(n, path, depth)
    decreases n
  {
    if depth > MAX_DEPTH {
      return Plain(Null), [Fault(path, Deep)];
    }
    if Bound(n) {
      return Plain(Null), [Fault(path, Anchored)];
    }
    match n
    case Scalar(_, atom) => value, faults := Plain(atom), [];
    case Mapping(_, entries) =>
      var fields: map<string, Value> := map[];
      var seen: set<string> := {};
      faults := [];
      for i := 0 to |entries|
        invariant fields == ReadEntries(entries, i, depth) && faults == EntryFaults(entries, i, path, depth)
        invariant forall s :: s in seen <==> exists j :: 0 <= j < i && entries[j].key == s
      {
        var e := entries[i];
        var below := path + [Under(e.key)];
        if e.key in seen {
          faults := faults + [Fault(below, Repeats(e.key))];
          continue;
        }
        seen := seen + {e.key};
        var child, more := NodeToValue(e.value, below, depth + 1);
        faults := faults + more;
        fields := fields[e.key := child];
      }
      value := Record(fields);
    case Sequence(_, nodes) =>
      var items: seq<Value> := [];
      faults := [];
      for i := 0 to |nodes|
        invariant items == ReadNodes(nodes, i, depth) && faults == NodeFaults(nodes, i, path, depth)
      {
        var child, more := NodeToValue(nodes[i], path + [At(i)], depth + 1);
        faults := faults + more;
        items := items + [child];
      }
      value := List(items);
  }

  // ---------------------------------------------------------------- what is accepted, and as what

  /** No anchor, no alias, no key twice in one mapping, and nothing below the 64th level. */
  predicate Acceptable(n: Node, depth: nat)
    decreases n
  {
    depth <= 64 &&
    match n
    case Alias => false
    case Scalar(anchored, _) => !anchored
    case Mapping(anchored, entries) =>
      && !anchored && (forall i, j :: 0 <= i < j < |entries| ==> entries[i].key != entries[j].key)
      && forall i :: 0 <= i < |entries| ==> Acceptable(entries[i].value, depth + 1)
    case Sequence(anchored, nodes) => !anchored && forall i :: 0 <= i < |nodes| ==> Acceptable(nodes[i], depth + 1)
  }

  /** A value of the tree's shape: its scalars, its entries under their keys and its nodes in their places. */
  ghost predicate Mirrors(n: Node, v: Value)
    decreases n
  {
    match n
    case Alias => false
    case Scalar(_, atom) => v == Plain(atom)
    case Mapping(_, entries) =>
      && v.Record? && (forall k :: k in v.fields ==> exists i :: 0 <= i < |entries| && entries[i].key == k)
      && forall i :: 0 <= i < |entries| ==> entries[i].key in v.fields && Mirrors(entries[i].value, v.fields[entries[i].key])
    case Sequence(_, nodes) =>
      v.List? && |v.items| == |nodes| && forall i :: 0 <= i < |nodes| ==> Mirrors(nodes[i], v.items[i])
  }

  predicate EntryFine(entries: seq<Entry>, i: nat, path: seq<Segment>, depth: nat)
    requires i < |entries|
  {
    !RepeatsKey(entries, i) && Faults(entries[i].value, path + [Under(entries[i].key)], depth + 1) == []
  }

  lemma LastEntryFine(entries: seq<Entry>, n: nat, path: seq<Segment>, depth: nat)
    requires 0 < n <= |entries|
    ensures EntryFaults(entries, n, path, depth) == []
            <==> EntryFaults(entries, n - 1, path, depth) == [] && EntryFine(entries, n - 1, path, depth)
  {
    var e := entries[n - 1];
    var below := path + [Under(e.key)];
    var last := if RepeatsKey(entries, n - 1) then [Fault(below, Repeats(e.key))] else Faults(e.value, below, depth + 1);
    assert EntryFaults(entries, n, path, depth) == EntryFaults(entries, n - 1, path, depth) + last;
    assert EntryFine(entries, n - 1, path, depth) <==> last == [];
    hide EntryFaults, EntryFine, Faults, RepeatsKey;
  }

  lemma NoEntries(entries: seq<Entry>, path: seq<Segment>, depth: nat)
    ensures EntryFaults(entries, 0, path, depth) == []
  {
  }

  lemma {:induction false} EntriesFaultless(entries: seq<Entry>, n: nat, path: seq<Segment>, depth: nat)
    requires n <= |entries|
    ensures EntryFaults(entries, n, path, depth) == [] <==> forall i :: 0 <= i < n ==> EntryFine(entries, i, path, depth)
  {
    hide *;
    if n == 0 {
      NoEntries(entries, path, depth);
    } else {
      EntriesFaultless(entries, n - 1, path, depth);
      LastEntryFine(entries, n, path, depth);
    }
  }

  lemma {:induction false} NodesFaultless(nodes: seq<Node>, n: nat, path: seq<Segment>, depth: nat)
    requires n <= |nodes|
    ensures NodeFaults(nodes, n, path, depth) == [] <==>
              forall i :: 0 <= i < n ==> Faults(nodes[i], path + [At(i)], depth + 1) == []
  {
    hide Faults;
    if n > 0 { NodesFaultless(nodes, n - 1, path, depth); }
  }

  lemma MappingMeans(anchored: bool, entries: seq<Entry>, path: seq<Segment>, depth: nat)
    requires forall i :: 0 <= i < |entries| ==>
               (Faults(entries[i].value, path + [Under(entries[i].key)], depth + 1) == [] <==> Acceptable(entries[i].value, depth + 1))
    ensures Faults(Mapping(anchored, entries), path, depth) == [] <==> Acceptable(Mapping(anchored, entries), depth)
  {
    hide *;
    EntriesFaultless(entries, |entries|, path, depth);
    MappingFaultless(anchored, entries, path, depth);
    MappingAcceptable(anchored, entries, depth);
    forall i | 0 <= i < |entries|
      ensures EntryFine(entries, i, path, depth) <==> !RepeatsKey(entries, i) && Acceptable(entries[i].value, depth + 1)
    {
      EntryMeans(entries, i, path, depth);
    }
  }

  lemma EntryMeans(entries: seq<Entry>, i: nat, path: seq<Segment>, depth: nat)
    requires i < |entries|
    ensures EntryFine(entries, i, path, depth) <==>
              !RepeatsKey(entries, i) && Faults(entries[i].value, path + [Under(entries[i].key)], depth + 1) == []
  {
    hide RepeatsKey, Faults;
  }

  lemma MappingAcceptable(anchored: bool, entries: seq<Entry>, depth: nat)
    ensures Acceptable(Mapping(anchored, entries), depth) <==>
              && depth <= 64 && !anchored && (forall i :: 0 <= i < |entries| ==> !RepeatsKey(entries, i))
              && forall i :: 0 <= i < |entries| ==> Acceptable(entries[i].value, depth + 1)
  {
    NoneRepeats(entries);
    hide RepeatsKey;
  }

  lemma MappingFaultless(anchored: bool, entries: seq<Entry>, path: seq<Segment>, depth: nat)
    ensures Faults(Mapping(anchored, entries), path, depth) == []
            <==> depth <= 64 && !anchored && EntryFaults(entries, |entries|, path, depth) == []
  {
    hide EntryFaults;
  }

  lemma NoneRepeats(entries: seq<Entry>)
    ensures (forall i :: 0 <= i < |entries| ==> !RepeatsKey(entries, i))
            <==> forall i, j :: 0 <= i < j < |entries| ==> entries[i].key != entries[j].key
  {
    if forall i :: 0 <= i < |entries| ==> !RepeatsKey(entries, i) {
      forall i, j | 0 <= i < j < |entries|
        ensures entries[i].key != entries[j].key
      {
        assert !RepeatsKey(entries, j);
      }
    }
  }

  lemma SequenceMeans(anchored: bool, nodes: seq<Node>, path: seq<Segment>, depth: nat)
    requires forall i :: 0 <= i < |nodes| ==> (Faults(nodes[i], path + [At(i)], depth + 1) == [] <==> Acceptable(nodes[i], depth + 1))
    ensures Faults(Sequence(anchored, nodes), path, depth) == [] <==> Acceptable(Sequence(anchored, nodes), depth)
  {
    NodesFaultless(nodes, |nodes|, path, depth);
    hide NodeFaults;
  }

  /** A tree is read without a fault exactly when it is acceptable. */
  lemma {:induction false} AcceptedMeans(n: Node, path: seq<Segment>, depth: nat)
    ensures Faults(n, path, depth) == [] <==> Acceptable(n, depth)
    decreases n
  {
    match n
    case Alias =>
    case Scalar(_, _) =>
    case Mapping(anchored, entries) =>
      forall i | 0 <= i < |entries|
        ensures Faults(entries[i].value, path + [Under(entries[i].key)], depth + 1) == [] <==> Acceptable(entries[i].value, depth + 1)
      {
        AcceptedMeans(entries[i].value, path + [Under(entries[i].key)], depth + 1);
      }
      hide *;
      MappingMeans(anchored, entries, path, depth);
    case Sequence(anchored, nodes) =>
      forall i | 0 <= i < |nodes|
        ensures Faults(nodes[i], path + [At(i)], depth + 1) == [] <==> Acceptable(nodes[i], depth + 1)
      {
        AcceptedMeans(nodes[i], path + [At(i)], depth + 1);
      }
      hide *;
      SequenceMeans(anchored, nodes, path, depth);
  }

  /** An acceptable tree is read as a value of its shape. */
  lemma {:induction false} AcceptedMirrors(n: Node, depth: nat)
    requires Acceptable(n, depth)
    ensures Mirrors(n, Read(n, depth))
    decreases n
  {
    match n
    case Scalar(_, _) =>
    case Mapping(_, entries) =>
      forall i | 0 <= i < |entries|
        ensures Mirrors(entries[i].value, Read(entries[i].value, depth + 1))
      {
        AcceptedMirrors(entries[i].value, depth + 1);
      }
      ReadEntriesAt(entries, |entries|, depth);
      hide Acceptable, ReadEntries;
    case Sequence(_, nodes) =>
      forall i | 0 <= i < |nodes|
        ensures Mirrors(nodes[i], Read(nodes[i], depth + 1))
      {
        AcceptedMirrors(nodes[i], depth + 1);
      }
      ReadNodesAt(nodes, |nodes|, depth);
      hide Acceptable, ReadNodes;
  }

  lemma {:induction false} ReadEntriesAt(entries: seq<Entry>, n: nat, depth: nat)
    requires n <= |entries|
    ensures forall k :: k in ReadEntries(entries, n, depth) ==> exists i :: 0 <= i < n && entries[i].key == k
    ensures (forall i, j :: 0 <= i < j < n ==> entries[i].key != entries[j].key) ==>
              forall i :: 0 <= i < n ==>
                entries[i].key in ReadEntries(entries, n, depth)
                && ReadEntries(entries, n, depth)[entries[i].key] == Read(entries[i].value, depth + 1)
  {
    hide Read;
    if n > 0 { ReadEntriesAt(entries, n - 1, depth); }
  }

  /** The depth check on a decoded document. */
  predicate TooDeep(v: Value, depth: nat)
    decreases v
  {
    depth > MAX_DEPTH ||
    match v
    case Plain(_) => false
    case List(items) => exists i :: 0 <= i < |items| && TooDeep(items[i], depth + 1)
    case Record(fields) => exists k :: k in fields && TooDeep(fields[k], depth + 1)
  }

  // ---------------------------------------------------------------- the same document in both formats

  /** A JSON document as the YAML reader sees it: YAML includes JSON. */
  function AsNode(t: Json): Node
    decreases t, 0
  {
    match t
    case Leaf(atom) => Scalar(false, atom)
    case Items(items) => Sequence(false, AsNodes(items))
    case Members(members) => Mapping(false, AsEntries(members))
  }

  function AsNodes(items: seq<Json>): (r: seq<Node>)
    ensures |r| == |items| && forall i :: 0 <= i < |items| ==> r[i] == AsNode(items[i])
    decreases items, 1
  {
    if items == [] then [] else [AsNode(items[0])] + AsNodes(items[1..])
  }

  function AsEntries(members: seq<Member>): (r: seq<Entry>)
    ensures |r| == |members| && forall i :: 0 <= i < |members| ==> r[i] == Entry(members[i].name, AsNode(members[i].value))
    decreases members, 1
  {
    if members == [] then [] else [Entry(members[0].name, AsNode(members[0].value))] + AsEntries(members[1..])
  }

  /** What the JSON reader accepts: no repeated member, and not too deep once decoded. */
  ghost predicate Accepted(t: Json, depth: nat) {
    Duplicates(t, []) == [] && !TooDeep(Collapse(t), depth)
  }

  /** Whether anything is reported does not depend on where the document sits. */
  lemma SilentAnywhere(t: Json, path: seq<Segment>)
    ensures Duplicates(t, path) == [] <==> Duplicates(t, []) == []
  {
    SilentIffKept(t, path);
    SilentIffKept(t, []);
  }

  lemma {:induction false} NodesClean(nodes: seq<Node>, n: nat, path: seq<Segment>, depth: nat)
    requires n <= |nodes|
    ensures NodeFaults(nodes, n, path, depth) == [] <==>
            forall i :: 0 <= i < n ==> Faults(nodes[i], path + [At(i)], depth + 1) == []
  {
    hide Faults;
    if n > 0 { NodesClean(nodes, n - 1, path, depth); }
  }

  lemma EntryUnfold(entries: seq<Entry>, n: nat, path: seq<Segment>, depth: nat)
    requires 0 < n <= |entries|
    ensures var below := path + [Under(entries[n - 1].key)];
            EntryFaults(entries, n, path, depth) == [] <==>
              EntryFaults(entries, n - 1, path, depth) == []
              && !RepeatsKey(entries, n - 1) && Faults(entries[n - 1].value, below, depth + 1) == []
  {
    hide Faults, RepeatsKey;
  }

  lemma {:induction false} EntriesClean(entries: seq<Entry>, n: nat, path: seq<Segment>, depth: nat)
    requires n <= |entries|
    ensures EntryFaults(entries, n, path, depth) == [] <==>
            forall i :: 0 <= i < n ==>
              !RepeatsKey(entries, i) && Faults(entries[i].value, path + [Under(entries[i].key)], depth + 1) == []
  {
    hide Faults, RepeatsKey;
    if n > 0 {
      EntriesClean(entries, n - 1, path, depth);
      EntryUnfold(entries, n, path, depth);
      hide EntryFaults;
    }
  }

  lemma {:induction false} ReadNodesAt(nodes: seq<Node>, n: nat, depth: nat)
    requires n <= |nodes|
    ensures forall i :: 0 <= i < n ==> ReadNodes(nodes, n, depth)[i] == Read(nodes[i], depth + 1)
  {
    if n > 0 { ReadNodesAt(nodes, n - 1, depth); }
  }

  lemma {:induction false} ReadEntriesSame(entries: seq<Entry>, members: seq<Member>, n: nat, depth: nat)
    requires |entries| == |members| && n <= |members|
    requires forall i :: 0 <= i < n ==> !RepeatsKey(entries, i) && entries[i].key == members[i].name
                                        && Read(entries[i].value, depth + 1) == Collapse(members[i].value)
    ensures ReadEntries(entries, n, depth) == CollapseMembers(members, n)
  {
    if n > 0 { ReadEntriesSame(entries, members, n - 1, depth); }
  }

  /** Both readers accept the same documents, and read the same value from what they accept. */
  lemma {:induction false} FormatsAgree(t: Json, path: seq<Segment>, depth: nat)
    ensures Faults(AsNode(t), path, depth) == [] <==> Accepted(t, depth)
    ensures Accepted(t, depth) ==> Read(AsNode(t), depth) == Collapse(t)
    decreases t
  {
    if depth <= MAX_DEPTH {
      match t
      case Leaf(_) =>
      case Items(items) => ItemsAgree(items, path, depth);
      case Members(members) => MembersAgree(members, path, depth);
    }
  }

  lemma {:induction false} ItemAgrees(items: seq<Json>, i: nat, path: seq<Segment>, depth: nat)
    requires i < |items|
    ensures var n := AsNodes(items)[i];
            && (Faults(n, path + [At(i)], depth + 1) == [] <==> Accepted(items[i], depth + 1))
            && (Accepted(items[i], depth + 1) ==> Read(n, depth + 1) == Collapse(items[i]))
    decreases items, i, 0
  {
    FormatsAgree(items[i], path + [At(i)], depth + 1);
  }

  lemma ItemsUnfold(items: seq<Json>, path: seq<Segment>, depth: nat)
    requires depth <= MAX_DEPTH
    ensures Faults(AsNode(Items(items)), path, depth) == NodeFaults(AsNodes(items), |items|, path, depth)
    ensures Read(AsNode(Items(items)), depth) == List(ReadNodes(AsNodes(items), |items|, depth))
    ensures Duplicates(Items(items), []) == ItemDuplicates(items, |items|, [])
    ensures Collapse(Items(items)) == List(CollapseItems(items, |items|))
  {
  }

  /** Items are accepted together exactly when each one is. */
  lemma ItemsAccepted(items: seq<Json>, depth: nat)
    requires depth <= MAX_DEPTH
    ensures Accepted(Items(items), depth) <==> forall i :: 0 <= i < |items| ==> Accepted(items[i], depth + 1)
  {
    ItemsClean(items, |items|, []);
    ItemsCollapsed(items, |items|);
    ItemsUnfold(items, [], depth);
    forall i | 0 <= i < |items|
      ensures Duplicates(items[i], [] + [At(i)]) == [] <==> Duplicates(items[i], []) == []
    {
      SilentAnywhere(items[i], [] + [At(i)]);
    }
    hide Duplicates, ItemDuplicates, Collapse, CollapseItems;
  }

  lemma {:induction false} ItemsAgree(items: seq<Json>, path: seq<Segment>, depth: nat)
    requires depth <= MAX_DEPTH
    ensures Faults(AsNode(Items(items)), path, depth) == [] <==> Accepted(Items(items), depth)
    ensures Accepted(Items(items), depth) ==> Read(AsNode(Items(items)), depth) == Collapse(Items(items))
    decreases items, |items|, 1
  {
    var nodes := AsNodes(items);
    NodesClean(nodes, |nodes|, path, depth);
    ItemsCollapsed(items, |items|);
    ReadNodesAt(nodes, |nodes|, depth);
    ItemsUnfold(items, path, depth);
    ItemsAccepted(items, depth);
    hide Faults, Read, NodeFaults, ReadNodes, Duplicates, ItemDuplicates, TooDeep, Collapse, CollapseItems, Accepted;
    forall i | 0 <= i < |items|
      ensures Faults(nodes[i], path + [At(i)], depth + 1) == [] <==> Accepted(items[i], depth + 1)
      ensures Accepted(items[i], depth + 1) ==> Read(nodes[i], depth + 1) == Collapse(items[i])
    {
      ItemAgrees(items, i, path, depth);
    }
    if Accepted(Items(items), depth) {
      assert ReadNodes(nodes, |nodes|, depth) == CollapseItems(items, |items|);
    }
  }

  lemma {:induction false} MemberAgrees(members: seq<Member>, i: nat, path: seq<Segment>, depth: nat)
    requires i < |members|
    ensures var e := AsEntries(members)[i];
            && (Faults(e.value, path + [Under(e.key)], depth + 1) == [] <==> Accepted(members[i].value, depth + 1))
            && (Accepted(members[i].value, depth + 1) ==> Read(e.value, depth + 1) == Collapse(members[i].value))
    ensures Duplicates(members[i].value, [] + [Under(members[i].name)]) == [] <==> Duplicates(members[i].value, []) == []
    decreases members, i, 0
  {
    FormatsAgree(members[i].value, path + [Under(members[i].name)], depth + 1);
    SilentAnywhere(members[i].value, [] + [Under(members[i].name)]);
  }

  lemma MembersUnfold(members: seq<Member>, path: seq<Segment>, depth: nat)
    requires depth <= MAX_DEPTH
    ensures Faults(AsNode(Members(members)), path, depth) == EntryFaults(AsEntries(members), |members|, path, depth)
    ensures Read(AsNode(Members(members)), depth) == Record(ReadEntries(AsEntries(members), |members|, depth))
    ensures Duplicates(Members(members), []) == MemberDuplicates(members, |members|, [])
    ensures Collapse(Members(members)) == Record(CollapseMembers(members, |members|))
  {
  }

  /** Members without repeated names are accepted exactly when each value is. */
  lemma MembersAccepted(members: seq<Member>, depth: nat)
    requires depth <= MAX_DEPTH
    ensures Accepted(Members(members), depth) <==>
            forall i :: 0 <= i < |members| ==> !Repeated(members, i) && Accepted(members[i].value, depth + 1)
  {
    hide Duplicates, MemberDuplicates, Repeated, TooDeep, Collapse, CollapseMembers;
    MembersClean(members, |members|, []);
    MembersUnfold(members, [], depth);
    forall i | 0 <= i < |members|
      ensures Duplicates(members[i].value, [] + [Under(members[i].name)]) == [] <==> Duplicates(members[i].value, []) == []
    {
      SilentAnywhere(members[i].value, [] + [Under(members[i].name)]);
    }
    if forall i :: 0 <= i < |members| ==> !Repeated(members, i) {
      FieldsExact(members, |members|);
      FieldNames(members, |members|);
      FieldsDeep(members, depth);
    }
  }

  lemma {:induction false} MembersAgree(members: seq<Member>, path: seq<Segment>, depth: nat)
    requires depth <= MAX_DEPTH
    ensures Faults(AsNode(Members(members)), path, depth) == [] <==> Accepted(Members(members), depth)
    ensures Accepted(Members(members), depth) ==> Read(AsNode(Members(members)), depth) == Collapse(Members(members))
    decreases members, |members|, 1
  {
    var entries, n := AsEntries(members), |members|;
    EntriesClean(entries, n, path, depth);
    MembersUnfold(members, path, depth);
    MembersAccepted(members, depth);
    forall i | 0 <= i < n
      ensures RepeatsKey(entries, i) <==> Repeated(members, i)
    {
    }
    hide Faults, Read, EntryFaults, ReadEntries, Duplicates, MemberDuplicates, TooDeep, Collapse, CollapseMembers, Accepted;
    forall i | 0 <= i < n
      ensures Faults(entries[i].value, path + [Under(entries[i].key)], depth + 1) == [] <==> Accepted(members[i].value, depth + 1)
      ensures Accepted(members[i].value, depth + 1) ==> Read(entries[i].value, depth + 1) == Collapse(members[i].value)
    {
      MemberAgrees(members, i, path, depth);
    }
    if Accepted(Members(members), depth) {
      ReadEntriesSame(entries, members, n, depth);
    }
  }

  lemma FieldsDeep(members: seq<Member>, depth: nat)
    requires forall i :: 0 <= i < |members| ==>
               members[i].name in CollapseMembers(members, |members|)
               && CollapseMembers(members, |members|)[members[i].name] == Collapse(members[i].value)
    requires forall s :: s in CollapseMembers(members, |members|) <==> exists i :: 0 <= i < |members| && members[i].name == s
    requires depth <= MAX_DEPTH
    ensures TooDeep(Collapse(Members(members)), depth) <==>
            exists i :: 0 <= i < |members| && TooDeep(Collapse(members[i].value), depth + 1)
  {
    var fields := CollapseMembers(members, |members|);
    if i :| 0 <= i < |members| && TooDeep(Collapse(members[i].value), depth + 1) {
      assert TooDeep(fields[members[i].name], depth + 1);
    }
  }

  // ---------------------------------------------------------------- whole texts

  /** The JSON reader makes one document of each element of a top-level array. */
  function Documents(v: Value): seq<Value> {
    if v.List? then v.items else [v]
  }

  /** What every document must be before its fields are looked at. */
  predicate WellFormed(v: Value) {
    !TooDeep(v, 0) && v.Record?
  }

  ghost predicate JsonAccepts(t: Json) {
    Duplicates(t, []) == [] && forall v :: v in Documents(Collapse(t)) ==> WellFormed(v)
  }

  /** The YAML reader makes one document of the whole tree. */
  ghost predicate YamlAccepts(n: Node) {
    Faults(n, [At(0)], 0) == [] && WellFormed(Read(n, 0))
  }

  lemma YamlExactly(t: Json)
    ensures YamlAccepts(AsNode(t)) <==> t.Members? && Accepted(t, 0)
    ensures YamlAccepts(AsNode(t)) ==> Read(AsNode(t), 0) == Collapse(t)
  {
    FormatsAgree(t, [At(0)], 0);
    hide Faults, Duplicates, TooDeep, Read;
  }

  /** Unless the root is an array, one text is one document, accepted in both formats or in neither, with one value. */
  lemma TextsAgree(t: Json)
    requires !t.Items?
    ensures JsonAccepts(t) <==> YamlAccepts(AsNode(t))
    ensures JsonAccepts(t) ==> Documents(Collapse(t)) == [Read(AsNode(t), 0)]
  {
    YamlExactly(t);
    hide YamlAccepts, Duplicates, TooDeep, Read, AsNode;
    assert !Collapse(t).List? && (Collapse(t).Record? <==> t.Members?);
    assert Documents(Collapse(t)) == [Collapse(t)] && Collapse(t) in Documents(Collapse(t));
  }

  lemma ArrayDocuments(items: seq<Json>)
    ensures |Documents(Collapse(Items(items)))| == |items|
    ensures forall i :: 0 <= i < |items| ==> Documents(Collapse(Items(items)))[i] == Collapse(items[i])
  {
    ItemsCollapsed(items, |items|);
    hide CollapseItems;
  }

  lemma ArrayAccepted(items: seq<Json>)
    ensures JsonAccepts(Items(items)) <==>
            forall i :: 0 <= i < |items| ==> Duplicates(items[i], [] + [At(i)]) == [] && WellFormed(Collapse(items[i]))
  {
    ItemsClean(items, |items|, []);
    assert Duplicates(Items(items), []) == ItemDuplicates(items, |items|, []);
    hide Duplicates, ItemDuplicates, WellFormed, Collapse, Documents;
    ArrayDocuments(items);
    assert forall i :: 0 <= i < |items| ==> Documents(Collapse(Items(items)))[i] in Documents(Collapse(Items(items)));
  }

  /** A root array is as many JSON documents as it has elements, accepted exactly when each element would be accepted
      as a YAML text of its own; as YAML the array itself is refused. */
  lemma ArraysDiffer(items: seq<Json>)
    ensures !YamlAccepts(AsNode(Items(items)))
    ensures |Documents(Collapse(Items(items)))| == |items|
    ensures JsonAccepts(Items(items)) <==> forall i :: 0 <= i < |items| ==> YamlAccepts(AsNode(items[i]))
    ensures JsonAccepts(Items(items)) ==>
              forall i :: 0 <= i < |items| ==> Documents(Collapse(Items(items)))[i] == Read(AsNode(items[i]), 0)
  {
    hide *;
    YamlExactly(Items(items));
    ArrayDocuments(items);
    ArrayAccepted(items);
    forall i | 0 <= i < |items|
      ensures YamlAccepts(AsNode(items[i])) <==> Duplicates(items[i], [] + [At(i)]) == [] && WellFormed(Collapse(items[i]))
      ensures YamlAccepts(AsNode(items[i])) ==> Read(AsNode(items[i]), 0) == Collapse(items[i])
    {
      ElementAgrees(items[i], [] + [At(i)]);
    }
  }

  lemma ElementAgrees(t: Json, path: seq<Segment>)
    ensures YamlAccepts(AsNode(t)) <==> Duplicates(t, path) == [] && WellFormed(Collapse(t))
    ensures YamlAccepts(AsNode(t)) ==> Read(AsNode(t), 0) == Collapse(t)
  {
    YamlExactly(t);
    SilentAnywhere(t, path);
    hide YamlAccepts, Duplicates, TooDeep, Read, AsNode;
    assert Collapse(t).Record? <==> t.Members?;
  }
}

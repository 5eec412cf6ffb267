/** Duplicate members in a JSON document (RFC 8259): the token scanner, what it reports, and what is lost when
    objects are collapsed to maps. */
module JsonScan {
  import opened Wrappers

  datatype Atom = Text(text: string) | Digits(digits: string) | Truth(truth: bool) | Null

  datatype Token = OpenBrace | CloseBrace | OpenBracket | CloseBracket | AtomToken(atom: Atom)

  datatype Member = Member(name: string, value: Json)

  /** A document as written: members in order, repeated names included. */
  datatype Json = Leaf(atom: Atom) | Items(items: seq<Json>) | Members(members: seq<Member>)

  /** A document as decoded: objects are maps. */
  datatype Value = Plain(atom: Atom) | List(items: seq<Value>) | Record(fields: map<string, Value>)

  datatype Segment = At(index: nat) | Under(name: string)

  datatype Issue = Issue(path: seq<Segment>, name: string)

  // ---------------------------------------------------------------- the tokens of a document

  function Tokens(t: Json): seq<Token> {
    match t
    case Leaf(atom) => [AtomToken(atom)]
    case Items(items) => [OpenBracket] + ItemTokens(items) + [CloseBracket]
    case Members(members) => [OpenBrace] + MemberTokens(members) + [CloseBrace]
  }

  function ItemTokens(items: seq<Json>): seq<Token> {
    if items == [] then [] else Tokens(items[0]) + ItemTokens(items[1..])
  }

  function MemberTokens(members: seq<Member>): seq<Token> {
    if members == [] then []
    else [AtomToken(Text(members[0].name))] + Tokens(members[0].value) + MemberTokens(members[1..])
  }

  predicate Closes(t: Token) {
    t == CloseBrace || t == CloseBracket
  }

  /** Reading one value off the front of a token stream. */
  function ReadValue(ts: seq<Token>): (r: Result<(Json, seq<Token>)>)
    ensures r.Ok? ==> |r.value.1| < |ts|
    decreases |ts|, 0
  {
    if ts == [] then Err("end of input")
    else match ts[0]
      case AtomToken(atom) => Ok((Leaf(atom), ts[1..]))
      case OpenBrace =>
        (match ReadMembers(ts[1..])
         case Ok((members, rest)) => Ok((Members(members), rest))
         case Err(message) => Err(message))
      case OpenBracket =>
        (match ReadItems(ts[1..])
         case Ok((items, rest)) => Ok((Items(items), rest))
         case Err(message) => Err(message))
      case _ => Err("unexpected JSON delimiter")
  }

  function ReadItems(ts: seq<Token>): (r: Result<(seq<Json>, seq<Token>)>)
    ensures r.Ok? ==> |r.value.1| < |ts|
    decreases |ts|, 1
  {
    if ts == [] then Err("end of input")
    else if Closes(ts[0]) then
      if ts[0] == CloseBracket then Ok(([], ts[1..])) else Err("array is not closed")
    else
      match ReadValue(ts)
      case Err(message) => Err(message)
      case Ok((item, rest)) =>
        match ReadItems(rest)
        case Err(message) => Err(message)
        case Ok((items, end)) => Ok(([item] + items, end))
  }

  function ReadMembers(ts: seq<Token>): (r: Result<(seq<Member>, seq<Token>)>)
    ensures r.Ok? ==> |r.value.1| < |ts|
    decreases |ts|, 1
  {
    if ts == [] then Err("end of input")
    else if Closes(ts[0]) then
      if ts[0] == CloseBrace then Ok(([], ts[1..])) else Err("object is not closed")
    else if !ts[0].AtomToken? || !ts[0].atom.Text? then Err("object key must be a string")
    else
      match ReadValue(ts[1..])
      case Err(message) => Err(message)
      case Ok((value, rest)) =>
        match ReadMembers(rest)
        case Err(message) => Err(message)
        case Ok((members, end)) => Ok(([Member(ts[0].atom.text, value)] + members, end))
  }

  /** Whatever is read was written there. */
  lemma {:induction false} ReadIsWritten(ts: seq<Token>)
    ensures ReadValue(ts).Ok? ==> ts == Tokens(ReadValue(ts).value.0) + ReadValue(ts).value.1
    decreases |ts|, 0
  {
    if ts != [] && ReadValue(ts).Ok? {
      assert ts == [ts[0]] + ts[1..];
      hide ReadMembers, ReadItems, MemberTokens, ItemTokens;
      if ts[0] == OpenBrace { ReadMembersWritten(ts[1..]); }
      if ts[0] == OpenBracket { ReadItemsWritten(ts[1..]); }
    }
  }

  lemma {:induction false} ReadItemsWritten(ts: seq<Token>)
    ensures ReadItems(ts).Ok? ==> ts == ItemTokens(ReadItems(ts).value.0) + [CloseBracket] + ReadItems(ts).value.1
    decreases |ts|, 1
  {
    if ReadItems(ts).Ok? {
      if Closes(ts[0]) {
        assert ts == [ts[0]] + ts[1..];
      } else {
        ReadIsWritten(ts);
        ReadItemsWritten(ReadValue(ts).value.1);
        var items := ReadItems(ReadValue(ts).value.1).value.0;
        assert ([ReadValue(ts).value.0] + items)[1..] == items;
      }
    }
  }

  lemma MemberTokensFirst(member: Member, members: seq<Member>)
    ensures MemberTokens([member] + members) == [AtomToken(Text(member.name))] + Tokens(member.value) + MemberTokens(members)
  {
    assert ([member] + members)[1..] == members;
  }

  lemma ReadMembersFirst(ts: seq<Token>)
    requires ReadMembers(ts).Ok? && !Closes(ts[0])
    ensures ts[0].AtomToken? && ts[0].atom.Text? && ReadValue(ts[1..]).Ok? && ReadMembers(ReadValue(ts[1..]).value.1).Ok?
    ensures var (value, rest) := ReadValue(ts[1..]).value;
            ReadMembers(ts).value == ([Member(ts[0].atom.text, value)] + ReadMembers(rest).value.0, ReadMembers(rest).value.1)
  {
  }

  lemma Regroup(name: seq<Token>, value: seq<Token>, more: seq<Token>, close: seq<Token>, rest: seq<Token>)
    ensures name + (value + (more + close + rest)) == (name + value + more) + close + rest
  {
  }

  lemma {:induction false} ReadMembersWritten(ts: seq<Token>)
    ensures ReadMembers(ts).Ok? ==> ts == MemberTokens(ReadMembers(ts).value.0) + [CloseBrace] + ReadMembers(ts).value.1
    decreases |ts|, 1
  {
    if ReadMembers(ts).Ok? {
      assert ts == [ts[0]] + ts[1..];
      if !Closes(ts[0]) {
        ReadMembersFirst(ts);
        var (value, rest) := ReadValue(ts[1..]).value;
        hide ReadMembers, ReadValue, MemberTokens, Tokens;
        ReadIsWritten(ts[1..]);
        ReadMembersWritten(rest);
        MemberTokensFirst(Member(ts[0].atom.text, value), ReadMembers(rest).value.0);
        Regroup([ts[0]], Tokens(value), MemberTokens(ReadMembers(rest).value.0), [CloseBrace], ReadMembers(rest).value.1);
      }
    }
  }

  /** Whatever is written is read back, and nothing after it is touched. */
  lemma {:induction false} WrittenIsRead(t: Json, rest: seq<Token>)
    ensures ReadValue(Tokens(t) + rest) == Ok((t, rest))
    decreases t, 0
  {
    var ts := Tokens(t) + rest;
    hide ReadMembers, ReadItems, MemberTokens, ItemTokens;
    match t
    case Leaf(atom) => assert ts[1..] == rest;
    case Items(items) =>
      ItemsRead(items, rest);
      assert ts[1..] == ItemTokens(items) + [CloseBracket] + rest;
    case Members(members) =>
      MembersRead(members, rest);
      assert ts[1..] == MemberTokens(members) + [CloseBrace] + rest;
  }

  lemma FirstToken(t: Json)
    ensures Tokens(t) != [] && !Closes(Tokens(t)[0])
  {
  }

  lemma {:induction false} ItemsRead(items: seq<Json>, rest: seq<Token>)
    ensures ReadItems(ItemTokens(items) + [CloseBracket] + rest) == Ok((items, rest))
    decreases items, 1
  {
    var ts := ItemTokens(items) + [CloseBracket] + rest;
    if items == [] {
      assert ts[1..] == rest;
    } else {
      var later := ItemTokens(items[1..]) + [CloseBracket] + rest;
      assert ts == Tokens(items[0]) + later;
      FirstToken(items[0]);
      WrittenIsRead(items[0], later);
      ItemsRead(items[1..], rest);
      assert [items[0]] + items[1..] == items;
    }
  }

  lemma {:induction false} MembersRead(members: seq<Member>, rest: seq<Token>)
    ensures ReadMembers(MemberTokens(members) + [CloseBrace] + rest) == Ok((members, rest))
    decreases members, 1
  {
    var ts := MemberTokens(members) + [CloseBrace] + rest;
    if members == [] {
      assert ts[1..] == rest;
    } else {
      var later := MemberTokens(members[1..]) + [CloseBrace] + rest;
      assert ts[1..] == Tokens(members[0].value) + later;
      WrittenIsRead(members[0].value, later);
      MembersRead(members[1..], rest);
      assert [members[0]] + members[1..] == members;
    }
  }

  /** Reading succeeds on exactly the streams that start with a document, and the document is unique. */
  lemma ReadExactly(ts: seq<Token>, t: Json, rest: seq<Token>)
    ensures ReadValue(ts) == Ok((t, rest)) <==> ts == Tokens(t) + rest
  {
    ReadIsWritten(ts);
    WrittenIsRead(t, rest);
  }

  // ---------------------------------------------------------------- repeated names

  predicate Repeated(members: seq<Member>, i: nat)
    requires i < |members|
  {
    exists j :: 0 <= j < i && members[j].name == members[i].name
  }

  /** Every member whose name an earlier member of its object has, in document order. */
  function Duplicates(t: Json, path: seq<Segment>): seq<Issue>
    decreases t, 0, 0
  {
    match t
    case Leaf(_) => []
    case Items(items) => ItemDuplicates(items, |items|, path)
    case Members(members) => MemberDuplicates(members, |members|, path)
  }

  function ItemDuplicates(items: seq<Json>, n: nat, path: seq<Segment>): seq<Issue>
    requires n <= |items|
    decreases items, 1, n
  {
    if n == 0 then [] else ItemDuplicates(items, n - 1, path) + Duplicates(items[n - 1], path + [At(n - 1)])
  }

  function MemberDuplicates(members: seq<Member>, n: nat, path: seq<Segment>): seq<Issue>
    requires n <= |members|
    decreases members, 1, n
  {
    if n == 0 then []
    else
      var below := path + [Under(members[n - 1].name)];
      MemberDuplicates(members, n - 1, path)
      + (if Repeated(members, n - 1) then [Issue(below, members[n - 1].name)] else [])
      + Duplicates(members[n - 1].value, below)
  }

  lemma {:induction false} ItemDuplicatesPrefix(items: seq<Json>, more: seq<Json>, n: nat, path: seq<Segment>)
    requires n <= |items|
    ensures ItemDuplicates(items + more, n, path) == ItemDuplicates(items, n, path)
  {
    if n > 0 { ItemDuplicatesPrefix(items, more, n - 1, path); }
  }

  lemma {:induction false} MemberDuplicatesPrefix(members: seq<Member>, more: seq<Member>, n: nat, path: seq<Segment>)
    requires n <= |members|
    ensures MemberDuplicates(members + more, n, path) == MemberDuplicates(members, n, path)
  {
    if n > 0 {
      MemberDuplicatesPrefix(members, more, n - 1, path);
      assert (members + more)[n - 1] == members[n - 1];
      RepeatedPrefix(members, more, n - 1);
    }
  }

  lemma RepeatedPrefix(members: seq<Member>, more: seq<Member>, i: nat)
    requires i < |members|
    ensures Repeated(members + more, i) <==> Repeated(members, i)
  {
    assert forall j :: 0 <= j <= i ==> (members + more)[j] == members[j];
  }

  ghost function NamesOf(members: seq<Member>): set<string> {
    set m | m in members :: m.name
  }

  lemma NoNames()
    ensures NamesOf([]) == {} && forall path :: MemberDuplicates([], 0, path) == []
  {
  }

  lemma NamesGrow(members: seq<Member>, member: Member)
    ensures NamesOf(members + [member]) == NamesOf(members) + {member.name}
    ensures Repeated(members + [member], |members|) <==> member.name in NamesOf(members)
  {
    var longer := members + [member];
    assert longer[|members|] == member && forall j :: 0 <= j < |members| ==> longer[j] == members[j];
    if member.name in NamesOf(members) {
      var m :| m in members && m.name == member.name;
      var j :| 0 <= j < |members| && members[j] == m;
      assert longer[j].name == member.name;
    }
  }

  lemma MembersGrow(done: seq<Member>, member: Member, path: seq<Segment>)
    ensures var below := path + [Under(member.name)];
            MemberDuplicates(done + [member], |done| + 1, path) ==
            MemberDuplicates(done, |done|, path)
            + (if member.name in NamesOf(done) then [Issue(below, member.name)] else [])
            + Duplicates(member.value, below)
  {
    MemberDuplicatesPrefix(done, [member], |done|, path);
    NamesGrow(done, member);
    assert (done + [member])[|done|] == member;
  }

  lemma MembersWhole(members: seq<Member>, path: seq<Segment>)
    ensures Duplicates(Members(members), path) == MemberDuplicates(members, |members|, path)
  {
  }

  lemma ItemsGrow(done: seq<Json>, item: Json, path: seq<Segment>)
    ensures ItemDuplicates(done + [item], |done| + 1, path) ==
            ItemDuplicates(done, |done|, path) + Duplicates(item, path + [At(|done|)])
  {
    ItemDuplicatesPrefix(done, [item], |done|, path);
    assert (done + [item])[|done|] == item;
  }

  /** What is left to read, given what a loop has read already. */
  function After<T>(done: seq<T>, r: Result<(seq<T>, seq<Token>)>): Result<(seq<T>, seq<Token>)> {
    match r
    case Ok((more, end)) => Ok((done + more, end))
    case Err(message) => Err(message)
  }

  lemma MembersStep(start: seq<Token>, done: seq<Member>, here: seq<Token>, name: string)
    requires ReadMembers(start) == After(done, ReadMembers(here))
    requires here != [] && here[0] == AtomToken(Text(name))
    ensures ReadValue(here[1..]).Err? ==> ReadMembers(start).Err?
    ensures ReadValue(here[1..]).Ok? ==>
              var (value, rest) := ReadValue(here[1..]).value;
              ReadMembers(start) == After(done + [Member(name, value)], ReadMembers(rest))
  {
    if ReadValue(here[1..]).Ok? {
      var (value, rest) := ReadValue(here[1..]).value;
      if ReadMembers(rest).Ok? {
        var later := ReadMembers(rest).value.0;
        assert done + ([Member(name, value)] + later) == (done + [Member(name, value)]) + later;
      }
    }
  }

  lemma MembersEnd(start: seq<Token>, done: seq<Member>, here: seq<Token>)
    requires ReadMembers(start) == After(done, ReadMembers(here))
    requires here == [] || Closes(here[0]) || !here[0].AtomToken? || !here[0].atom.Text?
    ensures here != [] && here[0] == CloseBrace ==> ReadMembers(start) == Ok((done, here[1..]))
    ensures here == [] || here[0] != CloseBrace ==> ReadMembers(start).Err?
    {
    assert done + [] == done;
  }

  lemma ItemsStep(start: seq<Token>, done: seq<Json>, here: seq<Token>)
    requires ReadItems(start) == After(done, ReadItems(here)) && here != [] && !Closes(here[0])
    ensures ReadValue(here).Err? ==> ReadItems(start).Err?
    ensures ReadValue(here).Ok? ==>
              var (item, rest) := ReadValue(here).value; ReadItems(start) == After(done + [item], ReadItems(rest))
  {
    if ReadValue(here).Ok? {
      var (item, rest) := ReadValue(here).value;
      if ReadItems(rest).Ok? {
        assert done + ([item] + ReadItems(rest).value.0) == (done + [item]) + ReadItems(rest).value.0;
      }
    }
  }

  lemma ItemsEnd(start: seq<Token>, done: seq<Json>, here: seq<Token>)
    requires ReadItems(start) == After(done, ReadItems(here)) && (here == [] || Closes(here[0]))
    ensures here != [] && here[0] == CloseBracket ==> ReadItems(start) == Ok((done, here[1..]))
    ensures here == [] || here[0] != CloseBracket ==> ReadItems(start).Err?
    {
    assert done + [] == done;
  }

  lemma NothingRead<T>(r: Result<(seq<T>, seq<Token>)>)
    ensures After([], r) == r
  {
    if r.Ok? { assert [] + r.value.0 == r.value.0; }
  }

  // ---------------------------------------------------------------- the scanner

  class Decoder {
    const tokens: seq<Token>
    var position: nat

    constructor (ts: seq<Token>)
      ensures tokens == ts && position == 0
    {
      tokens, position := ts, 0;
    }

    function Rest(): seq<Token>
      reads this
    {
      if position <= |tokens| then tokens[position..] else []
    }

    method Next() returns (r: Result<Token>)
      modifies this
      ensures old(Rest()) == [] ==> r.Err? && Rest() == []
      ensures old(Rest()) != [] ==> r == Ok(old(Rest())[0]) && Rest() == old(Rest())[1..]
    {
      if position >= |tokens| {
        return Err("end of input");
      }
      position := position + 1;
      return Ok(tokens[position - 1]);
    }

    /** Whether the object or array being read goes on. */
    predicate More()
      reads this
    {
      Rest() != [] && !Closes(Rest()[0])
    }

    /** Consumes one value and reports its repeated member names. */
    method Scan(path: seq<Segment>) returns (r: Result<seq<Issue>>)
      modifies this
      ensures r.Ok? <==> ReadValue(old(Rest())).Ok?
      ensures r.Ok? ==> Rest() == ReadValue(old(Rest())).value.1
      ensures r.Ok? ==> r.value == Duplicates(ReadValue(old(Rest())).value.0, path)
      decreases |Rest()|, 0
    {
      var token := Next();
      if token.Err? {
        return Err(token.message);
      }
      match token.value {
        case AtomToken(_) => r := Ok([]);
        case OpenBrace => r := ScanMembers(path);
        case OpenBracket => r := ScanItems(path);
        case _ => r := Err("unexpected JSON delimiter");
      }
    }

    method ScanMembers(path: seq<Segment>) returns (r: Result<seq<Issue>>)
      modifies this
      ensures r.Ok? <==> ReadMembers(old(Rest())).Ok?
      ensures r.Ok? ==> Rest() == ReadMembers(old(Rest())).value.1
      ensures r.Ok? ==> r.value == Duplicates(Members(ReadMembers(old(Rest())).value.0), path)
      decreases |Rest()|, 1
    {
      ghost var start := Rest();
      ghost var done: seq<Member> := [];
      NothingRead(ReadMembers(start));
      NoNames();
      hide ReadMembers, ReadValue, NamesOf, After, Duplicates, MemberDuplicates;
      var seen: set<string> := {};
      var issues: seq<Issue> := [];
      while More()
        invariant |Rest()| <= |start|
        invariant seen == NamesOf(done)
        invariant issues == MemberDuplicates(done, |done|, path)
        invariant ReadMembers(start) == After(done, ReadMembers(Rest()))
        decreases |Rest()|
      {
        ghost var here := Rest();
        var token := Next();
        if !token.value.AtomToken? || !token.value.atom.Text? {
          MembersEnd(start, done, here);
          return Err("object key must be a string");
        }
        var name := token.value.atom.text;
        var below := path + [Under(name)];
        if name in seen {
          issues := issues + [Issue(below, name)];
        }
        seen := seen + {name};
        MembersStep(start, done, here, name);
        var child := Scan(below);
        if child.Err? {
          return Err(child.message);
        }
        ghost var member := Member(name, ReadValue(here[1..]).value.0);
        MembersGrow(done, member, path);
        NamesGrow(done, member);
        issues := issues + child.value;
        done := done + [member];
      }
      MembersEnd(start, done, Rest());
      var end := Next();
      if end != Ok(CloseBrace) {
        return Err("object is not closed");
      }
      MembersWhole(done, path);
      return Ok(issues);
    }

    method ScanItems(path: seq<Segment>) returns (r: Result<seq<Issue>>)
      modifies this
      ensures r.Ok? <==> ReadItems(old(Rest())).Ok?
      ensures r.Ok? ==> Rest() == ReadItems(old(Rest())).value.1
      ensures r.Ok? ==> r.value == Duplicates(Items(ReadItems(old(Rest())).value.0), path)
      decreases |Rest()|, 1
    {
      ghost var start := Rest();
      ghost var done: seq<Json> := [];
      NothingRead(ReadItems(start));
      hide ReadItems, ReadValue, After;
      var issues: seq<Issue> := [];
      var i := 0;
      while More()
        invariant |Rest()| <= |start| && i == |done|
        invariant issues == ItemDuplicates(done, |done|, path)
        invariant ReadItems(start) == After(done, ReadItems(Rest()))
        decreases |Rest()|
      {
        ghost var here := Rest();
        ItemsStep(start, done, here);
        var child := Scan(path + [At(i)]);
        if child.Err? {
          return Err(child.message);
        }
        ItemsGrow(done, ReadValue(here).value.0, path);
        issues := issues + child.value;
        done := done + [ReadValue(here).value.0];
        i := i + 1;
      }
      ItemsEnd(start, done, Rest());
      var end := Next();
      if end != Ok(CloseBracket) {
        return Err("array is not closed");
      }
      return Ok(issues);
    }
  }

  /** The whole check: one document, nothing after it. */
  method DetectDuplicates(tokens: seq<Token>) returns (r: Result<seq<Issue>>)
    ensures r.Ok? <==> exists t :: Tokens(t) == tokens
    ensures forall t :: Tokens(t) == tokens ==> r == Ok(Duplicates(t, []))
  {
    var decoder := new Decoder(tokens);
    assert decoder.Rest() == tokens;
    hide ReadValue, Tokens, Duplicates;
    r := decoder.Scan([]);
    forall t
      ensures Tokens(t) == tokens <==> ReadValue(tokens) == Ok((t, []))
    {
      ReadExactly(tokens, t, []);
      assert Tokens(t) + [] == Tokens(t);
    }
    if r.Ok? {
      if decoder.Rest() != [] {
        return Err("trailing content");
      }
      assert Tokens(ReadValue(tokens).value.0) == tokens;
    }
  }

  // ---------------------------------------------------------------- collapsing objects to maps

  /** Decoding to maps: of members with one name, the last stays. */
  function Collapse(t: Json): Value
    decreases t, 0, 0
  {
    match t
    case Leaf(atom) => Plain(atom)
    case Items(items) => List(CollapseItems(items, |items|))
    case Members(members) => Record(CollapseMembers(members, |members|))
  }

  function CollapseItems(items: seq<Json>, n: nat): (r: seq<Value>)
    requires n <= |items|
    ensures |r| == n
    decreases items, 1, n
  {
    if n == 0 then [] else CollapseItems(items, n - 1) + [Collapse(items[n - 1])]
  }

  function CollapseMembers(members: seq<Member>, n: nat): (r: map<string, Value>)
    requires n <= |members|
    decreases members, 1, n
  {
    if n == 0 then map[] else CollapseMembers(members, n - 1)[members[n - 1].name := Collapse(members[n - 1].value)]
  }

  /** Nothing was lost: as many fields as members, each holding its own member's value, all the way down. */
  ghost predicate Keeps(t: Json, v: Value)
    decreases t
  {
    match t
    case Leaf(atom) => v == Plain(atom)
    case Items(items) =>
      v.List? && |v.items| == |items| && forall i :: 0 <= i < |items| ==> Keeps(items[i], v.items[i])
    case Members(members) =>
      && v.Record? && |v.fields| == |members|
      && forall i :: 0 <= i < |members| ==> members[i].name in v.fields && Keeps(members[i].value, v.fields[members[i].name])
  }

  lemma {:induction false} ItemsClean(items: seq<Json>, n: nat, path: seq<Segment>)
    requires n <= |items|
    ensures ItemDuplicates(items, n, path) == [] <==> forall i :: 0 <= i < n ==> Duplicates(items[i], path + [At(i)]) == []
  {
    if n > 0 { ItemsClean(items, n - 1, path); }
  }

  lemma {:induction false} MembersClean(members: seq<Member>, n: nat, path: seq<Segment>)
    requires n <= |members|
    ensures MemberDuplicates(members, n, path) == [] <==>
            forall i :: 0 <= i < n ==>
              !Repeated(members, i) && Duplicates(members[i].value, path + [Under(members[i].name)]) == []
  {
    if n > 0 { MembersClean(members, n - 1, path); }
  }

  lemma {:induction false} ItemsCollapsed(items: seq<Json>, n: nat)
    requires n <= |items|
    ensures forall i :: 0 <= i < n ==> CollapseItems(items, n)[i] == Collapse(items[i])
  {
    if n > 0 { ItemsCollapsed(items, n - 1); }
  }

  lemma {:induction false} FieldNames(members: seq<Member>, n: nat)
    requires n <= |members|
    ensures forall s :: s in CollapseMembers(members, n) <==> exists i :: 0 <= i < n && members[i].name == s
  {
    if n > 0 { FieldNames(members, n - 1); }
  }

  /** A map is as large as its object exactly when no name is repeated. */
  lemma {:induction false} FieldCount(members: seq<Member>, n: nat)
    requires n <= |members|
    ensures |CollapseMembers(members, n)| <= n
    ensures |CollapseMembers(members, n)| == n <==> forall i :: 0 <= i < n ==> !Repeated(members, i)
  {
    if n > 0 {
      FieldCount(members, n - 1);
      FieldNames(members, n - 1);
      var front, name := CollapseMembers(members, n - 1), members[n - 1].name;
      assert Repeated(members, n - 1) <==> name in front;
      hide Repeated;
      assert CollapseMembers(members, n).Keys == front.Keys + {name};
    }
  }

  lemma {:induction false} FieldsExact(members: seq<Member>, n: nat)
    requires n <= |members| && forall i :: 0 <= i < n ==> !Repeated(members, i)
    ensures forall i :: 0 <= i < n ==> members[i].name in CollapseMembers(members, n)
                                       && CollapseMembers(members, n)[members[i].name] == Collapse(members[i].value)
  {
    if n > 0 {
      FieldsExact(members, n - 1);
      assert !Repeated(members, n - 1);
      assert forall i :: 0 <= i < n - 1 ==> members[i].name != members[n - 1].name;
    }
  }

  /** The scanner is silent exactly on the documents that decoding to maps keeps whole. */
  lemma {:induction false} SilentIffKept(t: Json, path: seq<Segment>)
    ensures Duplicates(t, path) == [] <==> Keeps(t, Collapse(t))
    decreases t
  {
    match t
    case Leaf(_) =>
    case Items(items) =>
      ItemsClean(items, |items|, path);
      ItemsCollapsed(items, |items|);
      forall i | 0 <= i < |items|
        ensures Duplicates(items[i], path + [At(i)]) == [] <==> Keeps(items[i], Collapse(items[i]))
      {
        SilentIffKept(items[i], path + [At(i)]);
      }
    case Members(members) =>
      MembersSilent(members, path);
      FieldCount(members, |members|);
      if forall i :: 0 <= i < |members| ==> !Repeated(members, i) { FieldsExact(members, |members|); }
  }

  lemma {:induction false} MembersSilent(members: seq<Member>, path: seq<Segment>)
    ensures MemberDuplicates(members, |members|, path) == [] <==>
            forall i :: 0 <= i < |members| ==> !Repeated(members, i) && Keeps(members[i].value, Collapse(members[i].value))
    decreases members
  {
    MembersClean(members, |members|, path);
    forall i | 0 <= i < |members|
      ensures Duplicates(members[i].value, path + [Under(members[i].name)]) == [] <==>
              Keeps(members[i].value, Collapse(members[i].value))
    {
      SilentIffKept(members[i].value, path + [Under(members[i].name)]);
    }
  }
}

/** The two validators of a deployment process revision, trimming their steps in place and then checking the
    step graph: the API with condition references as edges, the database with declared dependencies only. */
module StepValidation {
  import opened Wrappers
  import opened Conditions
  import opened StepGraph

  // ---------------------------------------------------------------- trimming

  predicate IsSpace(c: char) {
    || c in {'\t', '\n', '\U{0B}', '\U{0C}', '\r', ' ', '\U{85}', '\U{A0}'}
    || c in {'\U{1680}', '\U{2028}', '\U{2029}', '\U{202F}', '\U{205F}', '\U{3000}'}
    || '\U{2000}' <= c <= '\U{200A}'
  }

  function TrimLeft(s: string): string {
    if s != "" && IsSpace(s[0]) then TrimLeft(s[1..]) else s
  }

  function TrimRight(s: string): string {
    if s != "" && IsSpace(s[|s| - 1]) then TrimRight(s[..|s| - 1]) else s
  }

  function TrimSpace(s: string): string {
    TrimRight(TrimLeft(s))
  }

  predicate Bare(s: string) {
    s != "" ==> !IsSpace(s[0]) && !IsSpace(s[|s| - 1])
  }

  lemma {:induction false} TrimLeftBares(s: string)
    ensures TrimLeft(s) != "" ==> !IsSpace(TrimLeft(s)[0])
  {
    if s != "" && IsSpace(s[0]) { TrimLeftBares(s[1..]); }
  }

  lemma {:induction false} TrimRightBares(s: string)
    requires s != "" ==> !IsSpace(s[0])
    ensures Bare(TrimRight(s))
  {
    if s != "" && IsSpace(s[|s| - 1]) { TrimRightBares(s[..|s| - 1]); }
  }

  /** Trimming leaves nothing to trim, so the second validator sees the strings the first one saw. */
  lemma TrimTwice(s: string)
    ensures Bare(TrimSpace(s)) && TrimSpace(TrimSpace(s)) == TrimSpace(s)
  {
    TrimLeftBares(s);
    TrimRightBares(TrimLeft(s));
    assert forall t :: Bare(t) ==> TrimSpace(t) == t;
  }

  /** The code points that Unicode counts as white space. */
  predicate WhiteSpace(c: char) {
    var code := c as int;
    9 <= code <= 13 || code in {0x20, 0x85, 0xA0, 0x1680, 0x2028, 0x2029, 0x202F, 0x205F, 0x3000} || 0x2000 <= code <= 0x200A
  }

  lemma SpaceMeans(c: char)
    ensures IsSpace(c) <==> WhiteSpace(c)
  {
  }

  predicate AllWhite(s: string) {
    forall i :: 0 <= i < |s| ==> WhiteSpace(s[i])
  }

  lemma {:induction false} TrimLeftKeeps(s: string) returns (i: nat)
    ensures i <= |s| && TrimLeft(s) == s[i..] && AllWhite(s[..i])
  {
    i := 0;
    if s != "" && IsSpace(s[0]) {
      SpaceMeans(s[0]);
      i := TrimLeftKeeps(s[1..]);
      i := i + 1;
      assert s[1..][..i - 1] == s[1..i] && s[..i] == [s[0]] + s[1..i];
    }
  }

  lemma {:induction false} TrimRightKeeps(s: string) returns (j: nat)
    ensures j <= |s| && TrimRight(s) == s[..j] && AllWhite(s[j..])
  {
    j := |s|;
    if s != "" && IsSpace(s[|s| - 1]) {
      SpaceMeans(s[|s| - 1]);
      j := TrimRightKeeps(s[..|s| - 1]);
      assert s[j..] == s[..|s| - 1][j..] + [s[|s| - 1]];
    }
  }

  /** Trimming takes white space off both ends and nothing else. */
  lemma TrimKeeps(s: string) returns (i: nat, j: nat)
    ensures i <= j <= |s| && TrimSpace(s) == s[i..j] && AllWhite(s[..i]) && AllWhite(s[j..])
    ensures i < j ==> !WhiteSpace(s[i]) && !WhiteSpace(s[j - 1])
  {
    i := TrimLeftKeeps(s);
    j := TrimRightKeeps(s[i..]);
    j := i + j;
    assert s[j..] == s[i..][j - i..];
    TrimTwice(s);
    hide AllWhite, TrimLeft, TrimRight, IsSpace, WhiteSpace;
    if i < j {
      SpaceMeans(s[i]);
      SpaceMeans(s[j - 1]);
    }
  }

  function TrimAll(keys: seq<Key>): (r: seq<Key>) {
    seq(|keys|, i requires 0 <= i < |keys| => TrimSpace(keys[i]))
  }

  function Trimmed(s: Step): Step {
    s.(key := TrimSpace(s.key), dependencies := TrimAll(s.dependencies))
  }

  function TrimSteps(steps: seq<Step>): (r: seq<Step>) {
    seq(|steps|, i requires 0 <= i < |steps| => Trimmed(steps[i]))
  }

  lemma TrimStepsTwice(steps: seq<Step>)
    ensures TrimSteps(TrimSteps(steps)) == TrimSteps(steps)
  {
    forall i | 0 <= i < |steps|
      ensures Trimmed(Trimmed(steps[i])) == Trimmed(steps[i])
    {
      TrimTwice(steps[i].key);
      forall j | 0 <= j < |steps[i].dependencies|
        ensures TrimSpace(TrimSpace(steps[i].dependencies[j])) == TrimSpace(steps[i].dependencies[j])
      {
        TrimTwice(steps[i].dependencies[j]);
      }
    }
  }

  // ---------------------------------------------------------------- what the validators demand of single steps

  function KeysOf(steps: seq<Step>): set<Key> {
    set s | s in steps :: s.key
  }

  predicate DistinctKeys(steps: seq<Step>) {
    forall i, j :: 0 <= i < j < |steps| ==> steps[i].key != steps[j].key
  }

  predicate WellKeyed(steps: seq<Step>) {
    DistinctKeys(steps) && forall s :: s in steps ==> s.key != ""
  }

  predicate Declares(s: Step, keys: set<Key>) {
    && Distinct(s.dependencies)
    && forall d :: d in s.dependencies ==> d != "" && d != s.key && d in keys
  }

  predicate Refers(s: Step, keys: set<Key>) {
    var refs := OutputReferences(s.condition);
    refs.Ok? && forall r :: r in refs.value ==> r.step in keys
  }

  // ---------------------------------------------------------------- the two graphs

  function WithReferences(dependencies: seq<Key>, refs: seq<OutputKey>): seq<Key> {
    if refs == [] then dependencies
    else
      var front := WithReferences(dependencies, refs[..|refs| - 1]);
      if refs[|refs| - 1].step in front then front else front + [refs[|refs| - 1].step]
  }

  function References(s: Step): seq<OutputKey> {
    if OutputReferences(s.condition).Ok? then OutputReferences(s.condition).value else []
  }

  function Needs(s: Step): seq<Key> {
    WithReferences(s.dependencies, References(s))
  }

  function GraphOf(steps: seq<Step>, needs: Step -> seq<Key>): Graph {
    if steps == [] then map[]
    else GraphOf(steps[..|steps| - 1], needs)[steps[|steps| - 1].key := needs(steps[|steps| - 1])]
  }

  /** Declared dependencies and condition references. */
  function FullGraph(steps: seq<Step>): Graph {
    GraphOf(steps, Needs)
  }

  /** Declared dependencies alone. */
  function DeclaredGraph(steps: seq<Step>): Graph {
    GraphOf(steps, (s: Step) => s.dependencies)
  }

  lemma {:induction false} NeedsExactly(dependencies: seq<Key>, refs: seq<OutputKey>, k: Key)
    ensures k in WithReferences(dependencies, refs) <==> k in dependencies || exists r :: r in refs && r.step == k
  {
    if refs != [] {
      var front, last := refs[..|refs| - 1], refs[|refs| - 1];
      assert refs == front + [last];
      NeedsExactly(dependencies, front, k);
    }
  }

  lemma {:induction false} GraphKeys(steps: seq<Step>, needs: Step -> seq<Key>)
    ensures GraphOf(steps, needs).Keys == KeysOf(steps)
    ensures forall k :: k in GraphOf(steps, needs) ==>
              exists s :: s in steps && s.key == k && GraphOf(steps, needs)[k] == needs(s)
  {
    if steps != [] {
      var front, last := steps[..|steps| - 1], steps[|steps| - 1];
      assert steps == front + [last];
      GraphKeys(front, needs);
    }
  }

  lemma GraphAt(steps: seq<Step>, needs: Step -> seq<Key>, s: Step)
    requires DistinctKeys(steps) && s in steps
    ensures s.key in GraphOf(steps, needs) && GraphOf(steps, needs)[s.key] == needs(s)
  {
    GraphKeys(steps, needs);
    assert s.key in KeysOf(steps);
  }

  lemma GraphClosed(steps: seq<Step>, needs: Step -> seq<Key>)
    requires forall s, k :: s in steps && k in needs(s) ==> k in KeysOf(steps)
    ensures Closed(GraphOf(steps, needs))
  {
    GraphKeys(steps, needs);
  }

  lemma FullGraphClosed(steps: seq<Step>)
    requires forall s :: s in steps ==> Declares(s, KeysOf(steps)) && Refers(s, KeysOf(steps))
    ensures Closed(FullGraph(steps))
  {
    forall s, k | s in steps && k in Needs(s)
      ensures k in KeysOf(steps)
    {
      NeedsExactly(s.dependencies, References(s), k);
      assert Declares(s, KeysOf(steps)) && Refers(s, KeysOf(steps));
    }
    GraphClosed(steps, Needs);
  }

  lemma DeclaredGraphClosed(steps: seq<Step>)
    requires forall s :: s in steps ==> Declares(s, KeysOf(steps))
    ensures Closed(DeclaredGraph(steps))
  {
    GraphClosed(steps, (s: Step) => s.dependencies);
  }

  lemma {:induction false} DeclaredInside(steps: seq<Step>, from: Key, to: Key)
    requires Edge(DeclaredGraph(steps), from, to)
    ensures Edge(FullGraph(steps), from, to)
  {
    if steps != [] {
      var last := steps[|steps| - 1];
      if last.key == from {
        NeedsExactly(last.dependencies, References(last), to);
      } else {
        DeclaredInside(steps[..|steps| - 1], from, to);
      }
    }
  }

  lemma FullAcyclicDeclaredAcyclic(steps: seq<Step>)
    requires Acyclic(FullGraph(steps))
    ensures Acyclic(DeclaredGraph(steps))
  {
    forall path | IsCycle(DeclaredGraph(steps), path)
      ensures false
    {
      forall i | 0 <= i < |path| - 1
        ensures Edge(FullGraph(steps), path[i], path[i + 1])
      {
        DeclaredInside(steps, path[i], path[i + 1]);
      }
      assert IsCycle(FullGraph(steps), path);
    }
  }

  // ---------------------------------------------------------------- the validators

  /** Dependencies of one step: non-empty, not the step itself, none twice, all known. */
  method CheckDeclared(s: Step, keys: set<Key>) returns (ok: bool)
    ensures ok <==> Declares(s, keys)
  {
    var seen: set<Key> := {};
    for i := 0 to |s.dependencies|
      invariant forall k :: k in seen <==> k in s.dependencies[..i]
      invariant Distinct(s.dependencies[..i])
      invariant forall j :: 0 <= j < i ==> s.dependencies[j] != "" && s.dependencies[j] != s.key && s.dependencies[j] in keys
    {
      var d := s.dependencies[i];
      if d in seen {
        var j :| 0 <= j < i && s.dependencies[..i][j] == d;
        assert s.dependencies[j] == s.dependencies[i];
        return false;
      }
      if d == "" || d == s.key || d !in keys {
        assert d in s.dependencies;
        return false;
      }
      assert s.dependencies[..i + 1] == s.dependencies[..i] + [d];
      seen := seen + {d};
    }
    assert s.dependencies[..|s.dependencies|] == s.dependencies;
    return true;
  }

  /** The dependencies of one step with the steps its condition refers to. */
  method CollectNeeds(s: Step, keys: set<Key>) returns (r: Result<seq<Key>>)
    ensures r.Ok? <==> Declares(s, keys) && Refers(s, keys)
    ensures r.Ok? ==> r.value == Needs(s)
  {
    var declared := CheckDeclared(s, keys);
    var refs := OutputReferences(s.condition);
    if !declared || refs.Err? {
      return Err("step dependency or condition is invalid");
    }
    var needs := s.dependencies;
    for i := 0 to |refs.value|
      invariant needs == WithReferences(s.dependencies, refs.value[..i])
      invariant forall j :: 0 <= j < i ==> refs.value[j].step in keys
    {
      var ref := refs.value[i];
      if ref.step !in keys {
        assert ref in refs.value;
        return Err("step condition output reference does not exist");
      }
      assert refs.value[..i + 1][..i] == refs.value[..i] && refs.value[..i + 1][i] == ref;
      if ref.step !in needs {
        needs := needs + [ref.step];
      }
    }
    assert refs.value[..|refs.value|] == refs.value;
    return Ok(needs);
  }

  ghost predicate ApiAccepts(steps: seq<Step>) {
    && (forall s :: s in steps ==> Declares(s, KeysOf(steps)) && Refers(s, KeysOf(steps)))
    && Acyclic(FullGraph(steps))
  }

  ghost predicate DatabaseAccepts(steps: seq<Step>) {
    && (forall s :: s in steps ==> Declares(s, KeysOf(steps)))
    && Acyclic(DeclaredGraph(steps))
  }

  /** The API's check accepts exactly the locally valid, acyclic graphs, whatever order the search takes. */
  method ValidateDependencies(steps: seq<Step>, keys: set<Key>) returns (r: Result<()>)
    requires keys == KeysOf(steps)
    ensures r.Ok? <==> ApiAccepts(steps)
    ensures r.Ok? ==> exists order :: Topological(FullGraph(steps), order)
  {
    var graph: Graph := map[];
    for i := 0 to |steps|
      invariant graph == FullGraph(steps[..i])
      invariant forall j :: 0 <= j < i ==> Declares(steps[j], keys) && Refers(steps[j], keys)
    {
      var needs := CollectNeeds(steps[i], keys);
      if needs.Err? {
        assert steps[i] in steps;
        return Err(needs.message);
      }
      assert steps[..i + 1][..i] == steps[..i];
      graph := graph[steps[i].key := needs.value];
    }
    assert steps[..|steps|] == steps;
    FullGraphClosed(steps);
    var walk := new Walk(graph);
    var cyclic := walk.Search();
    return if cyclic then Err("step dependencies must not contain cycles") else Ok(());
  }

  /** The database's check: the same search over declared dependencies. */
  method ValidateGraph(steps: seq<Step>, keys: set<Key>) returns (r: Result<()>)
    requires keys == KeysOf(steps)
    ensures r.Ok? <==> DatabaseAccepts(steps)
  {
    var graph: Graph := map[];
    for i := 0 to |steps|
      invariant graph == DeclaredGraph(steps[..i])
      invariant forall j :: 0 <= j < i ==> Declares(steps[j], keys)
    {
      var declared := CheckDeclared(steps[i], keys);
      if !declared {
        assert steps[i] in steps;
        return Err("step dependency is invalid");
      }
      assert steps[..i + 1][..i] == steps[..i];
      graph := graph[steps[i].key := steps[i].dependencies];
    }
    assert steps[..|steps|] == steps;
    DeclaredGraphClosed(steps);
    var walk := new Walk(graph);
    var cyclic := walk.Search();
    return if cyclic then Err("step dependencies must not contain cycles") else Ok(());
  }

  /** Trims every step in place and collects the keys, refusing an empty or repeated one. */
  method TrimInPlace(steps: array<Step>) returns (r: Result<set<Key>>)
    modifies steps
    ensures r.Ok? <==> WellKeyed(TrimSteps(old(steps[..])))
    ensures r.Ok? ==> steps[..] == TrimSteps(old(steps[..])) && r.value == KeysOf(steps[..])
  {
    ghost var trimmed := TrimSteps(steps[..]);
    var keys: set<Key> := {};
    assert SoundPrefix(trimmed, 0, keys);
    for i := 0 to steps.Length
      invariant steps[..i] == trimmed[..i]
      invariant forall j :: i <= j < steps.Length ==> steps[j] == old(steps[j])
      invariant SoundPrefix(trimmed, i, keys)
    {
      steps[i] := Trimmed(steps[i]);
      assert steps[i] == trimmed[i];
      SoundNext(trimmed, i, keys);
      if steps[i].key == "" || steps[i].key in keys {
        return Err("step key is required and must be unique");
      }
      assert trimmed[..i + 1] == trimmed[..i] + [trimmed[i]];
      keys := keys + {steps[i].key};
    }
    assert steps[..] == steps[..steps.Length] && trimmed[..steps.Length] == trimmed;
    return Ok(keys);
  }

  /** The first `n` keys are present and distinct, and these are they. */
  ghost predicate SoundPrefix(steps: seq<Step>, n: nat, keys: set<Key>)
    requires n <= |steps|
  {
    && DistinctKeys(steps[..n]) && (forall s :: s in steps[..n] ==> s.key != "")
    && (forall k :: k in keys <==> exists j :: 0 <= j < n && steps[j].key == k)
  }

  lemma SoundNext(steps: seq<Step>, n: nat, keys: set<Key>)
    requires n < |steps| && SoundPrefix(steps, n, keys)
    ensures steps[n].key != "" && steps[n].key !in keys ==> SoundPrefix(steps, n + 1, keys + {steps[n].key})
    ensures steps[n].key == "" || steps[n].key in keys ==> !WellKeyed(steps)
  {
    assert steps[..n + 1] == steps[..n] + [steps[n]] && steps[n] in steps;
  }

  /** The API request, as far as keys, conditions and dependencies go. */
  method ValidateRequest(steps: array<Step>) returns (r: Result<()>)
    modifies steps
    ensures r.Ok? <==> steps.Length > 0 && WellKeyed(TrimSteps(old(steps[..]))) && ApiAccepts(TrimSteps(old(steps[..])))
    ensures r.Ok? ==> steps[..] == TrimSteps(old(steps[..]))
  {
    if steps.Length == 0 {
      return Err("at least one step is required");
    }
    var keys := TrimInPlace(steps);
    if keys.Err? {
      return Err(keys.message);
    }
    r := ValidateDependencies(steps[..], keys.value);
  }

  /** The database's normalization of the same revision. */
  method NormalizeRevision(steps: array<Step>) returns (r: Result<()>)
    modifies steps
    ensures r.Ok? <==> steps.Length > 0 && WellKeyed(TrimSteps(old(steps[..]))) && DatabaseAccepts(TrimSteps(old(steps[..])))
    ensures r.Ok? ==> steps[..] == TrimSteps(old(steps[..]))
  {
    if steps.Length == 0 {
      return Err("at least one step is required");
    }
    var keys := TrimInPlace(steps);
    if keys.Err? {
      return Err(keys.message);
    }
    r := ValidateGraph(steps[..], keys.value);
  }

  /** Whatever the API let through, the database lets through unchanged. */
  lemma ApiImpliesDatabase(steps: seq<Step>)
    requires WellKeyed(TrimSteps(steps)) && ApiAccepts(TrimSteps(steps))
    ensures TrimSteps(TrimSteps(steps)) == TrimSteps(steps)
    ensures WellKeyed(TrimSteps(TrimSteps(steps))) && DatabaseAccepts(TrimSteps(TrimSteps(steps)))
  {
    TrimStepsTwice(steps);
    FullAcyclicDeclaredAcyclic(TrimSteps(steps));
  }

  function OnOutputOf(key: Key): Parsed {
    Ok(Compare(LeftOutput(OutputKey(key, "out")), Equal, Truth(true)))
  }

  /** Steps that declare nothing pass the database's check whatever their conditions wait for. */
  lemma UndeclaredAccepted(steps: seq<Step>)
    requires forall s :: s in steps ==> s.dependencies == []
    ensures DatabaseAccepts(steps)
  {
    var declared := DeclaredGraph(steps);
    GraphKeys(steps, (s: Step) => s.dependencies);
    forall path | |path| > 1
      ensures !IsPath(declared, path)
    {
      assert !Edge(declared, path[0], path[1]);
    }
  }

  lemma ReferenceIsEdge(steps: seq<Step>, s: Step, o: OutputKey)
    requires DistinctKeys(steps) && s in steps && o in References(s)
    ensures Edge(FullGraph(steps), s.key, o.step)
  {
    GraphAt(steps, Needs, s);
    NeedsExactly(s.dependencies, References(s), o.step);
  }

  /** Not the other way round: two steps waiting for each other's outputs pass the database's check. */
  lemma DatabaseMissesConditionCycles(a: Step, b: Step)
    requires a == Step("a", [], OnOutputOf("b")) && b == Step("b", [], OnOutputOf("a"))
    ensures WellKeyed([a, b]) && DatabaseAccepts([a, b]) && !ApiAccepts([a, b])
  {
    UndeclaredAccepted([a, b]);
    assert OutputKey("b", "out") in References(a) && OutputKey("a", "out") in References(b);
    ReferenceIsEdge([a, b], a, OutputKey("b", "out"));
    ReferenceIsEdge([a, b], b, OutputKey("a", "out"));
    assert IsCycle(FullGraph([a, b]), ["a", "b", "a"]);
  }

  // ---------------------------------------------------------------- evaluating in order

  /** In any topological order of an accepted revision, a step's condition depends only on the setting of the
      run and the outputs of strictly earlier steps. */
  lemma ConditionSeesEarlierSteps(steps: seq<Step>, order: seq<Key>, n: nat, s: Step, a: Context, b: Context,
                                  show: Value -> string)
    requires DistinctKeys(steps) && ApiAccepts(steps) && Topological(FullGraph(steps), order)
    requires s in steps && n < |order| && order[n] == s.key
    requires SameSetting(a, b) && forall o: OutputKey :: o.step in order[..n] ==> SameOutput(a, b, o)
    ensures Evaluate(s.condition, a, show) == Evaluate(s.condition, b, show)
  {
    assert Refers(s, KeysOf(steps));
    forall o | o in References(s)
      ensures SameOutput(a, b, o)
    {
      ReferenceIsEdge(steps, s, o);
    }
    EvaluateSees(s.condition, a, b, show);
  }
}

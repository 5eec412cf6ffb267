/** A created plan, stored and read back, has its stored canonical form exactly when its target rows happen to
    ascend and its JSON columns lose nothing. */
module PlanRoundTrip {
  import opened Wrappers
  import opened Ordering
  import opened DeploymentPlans
  import opened PlanMeaning

  // ---------------------------------------------------------------- creation

  datatype Request = Request(
    header: string, targets: seq<Target>, contract: Option<Contract>, states: States,
    process: seq<ProcessStep>, scope: Scope, registry: Registry, values: seq<Variable>,
    eligibility: seq<Finding>, later: seq<Finding>)

  const DRY_RUN := Finding(Warning, "dry_run_not_performed", "dryRun", "read-only agent dry-run checks are not available")

  function AllFindings(q: Request): seq<Finding> {
    q.eligibility + ProcessFindings(q.process, q.scope, q.registry) + VariableNotes(q.values) + q.later + [DRY_RUN]
  }

  function VariableNotes(values: seq<Variable>): seq<Finding> {
    VariableFindings(StableSort(values, VariableLess), |StableSort(values, VariableLess)|)
  }

  /** The plan a request resolves to. */
  function Resolved(q: Request): Plan {
    Plan(q.header, q.targets, ComponentsOf(q.targets, q.contract, q.states),
         PlannedSteps(StableSort(q.process, ProcessLess), q.scope, q.registry), StableSort(q.values, VariableLess),
         Numbered(0, AllFindings(q)))
  }

  method AddFindings(draft: Draft, findings: seq<Finding>)
    modifies draft`issues
    ensures draft.issues == old(draft.issues) + Numbered(|old(draft.issues)|, findings)
  {
    ghost var before := draft.issues;
    hide Numbered;
    NumberedNone(|before|);
    for i := 0 to |findings|
      invariant draft.issues == before + Numbered(|before|, findings[..i])
    {
      assert findings[..i + 1] == findings[..i] + [findings[i]];
      NumberedJoins(|before|, findings[..i], [findings[i]]);
      NumberedLength(|before|, findings[..i]);
      draft.AddIssue(findings[i]);
    }
    assert findings[..|findings|] == findings;
  }

  /** Findings numbered on make one list numbered throughout. */
  lemma Grows(found: seq<Finding>, next: seq<Finding>, before: seq<Issue>, after: seq<Issue>)
    requires before == Numbered(0, found) && after == before + Numbered(|before|, next)
    ensures after == Numbered(0, found + next)
  {
    NumberedJoins(0, found, next);
    NumberedLength(0, found);
    hide Numbered;
  }

  /** Nothing stands in the way of the request: no finding from elsewhere blocks it, nothing is wrong with any step, one
      step at least serves its channel and environment if there are any, and every required variable is resolved. */
  ghost predicate Runnable(q: Request) {
    && (forall f :: f in q.eligibility || f in q.later ==> f.severity == Warning)
    && (forall p :: p in q.process ==> Plannable(p, q.process, q.registry))
    && (q.process != [] ==> exists p :: p in q.process && Serves(p, q.scope))
    && (forall v :: v in q.values && v.required ==> v.resolved)
  }

  lemma RunnableMeans(q: Request)
    ensures (forall f :: f in AllFindings(q) ==> f.severity != Blocker) <==> Runnable(q)
  {
    ProcessRunnable(q.process, q.scope, q.registry);
    VariablesRunnable(q.values);
    hide ProcessFindings, VariableFindings, StableSort, Plannable, Serves;
    var a, b, c := q.eligibility, ProcessFindings(q.process, q.scope, q.registry), VariableNotes(q.values);
    assert forall f :: f in AllFindings(q) <==> f in a || f in b || f in c || f in q.later || f == DRY_RUN;
  }

  /** Resolves a request. The plan is ready exactly when nothing stands in the way. */
  method Resolve(q: Request) returns (plan: Plan, ready: bool)
    ensures plan == Resolved(q)
    ensures ready <==> Runnable(q)
  {
    hide ProcessFindings, VariableFindings, Numbered, StableSort, PlannedSteps, ComponentsOf, NumberedByTens, Runnable;
    var draft := new Draft(q.header, q.targets);
    draft.ResolveComponents(q.contract, q.states);
    AddFindings(draft, q.eligibility);
    ghost var found, before := q.eligibility, draft.issues;
    draft.AddSteps(q.process, q.scope, q.registry);
    Grows(found, ProcessFindings(q.process, q.scope, q.registry), before, draft.issues);
    found, before := found + ProcessFindings(q.process, q.scope, q.registry), draft.issues;
    draft.AddVariables(q.values);
    Grows(found, VariableNotes(q.values), before, draft.issues);
    found, before := found + VariableNotes(q.values), draft.issues;
    AddFindings(draft, q.later);
    Grows(found, q.later, before, draft.issues);
    found, before := found + q.later, draft.issues;
    draft.AddIssue(DRY_RUN);
    Grows(found, [DRY_RUN], before, draft.issues);
    plan := draft.Content();
    ready := forall i :: 0 <= i < |plan.issues| ==> plan.issues[i].severity != Blocker;
    BlockersShow(AllFindings(q));
    RunnableMeans(q);
  }

  lemma BlockersShow(findings: seq<Finding>)
    ensures |Numbered(0, findings)| == |findings|
    ensures (forall i :: 0 <= i < |findings| ==> Numbered(0, findings)[i].severity != Blocker)
            <==> forall f :: f in findings ==> f.severity != Blocker
  {
    assert forall i :: 0 <= i < |findings| ==> Numbered(0, findings)[i].severity == findings[i].severity;
    if forall i :: 0 <= i < |findings| ==> Numbered(0, findings)[i].severity != Blocker {
      forall f | f in findings
        ensures f.severity != Blocker
      {
        var i :| 0 <= i < |findings| && findings[i] == f;
        assert Numbered(0, findings)[i].severity != Blocker;
      }
    }
  }

  /** What the tables' keys guarantee of a plan that could be stored, and how its target rows are numbered. */
  ghost predicate Storable(q: Request) {
    && (forall i :: 0 <= i < |q.targets| ==> q.targets[i].sortOrder == (i + 1) * 10)
    && (forall i, j :: 0 <= i < j < |q.targets| ==> q.targets[i].id != q.targets[j].id)
    && (forall i, j :: 0 <= i < j < |q.process| ==> q.process[i].key != q.process[j].key)
    && (forall i, j :: 0 <= i < j < |q.values| ==> q.values[i].id != q.values[j].id)
  }

  // ---------------------------------------------------------------- the ORDER BY clauses

  predicate TargetLess(a: Target, b: Target) {
    a.sortOrder < b.sortOrder || (a.sortOrder == b.sortOrder && TextLess(a.deploymentTarget, b.deploymentTarget))
  }

  predicate ComponentLess(a: Component, b: Component) {
    TextLess(a.planTarget, b.planTarget)
    || (a.planTarget == b.planTarget
        && (a.sortOrder < b.sortOrder || (a.sortOrder == b.sortOrder && TextLess(a.name, b.name))))
  }

  predicate StepLess(a: Step, b: Step) {
    a.sortOrder < b.sortOrder || (a.sortOrder == b.sortOrder && TextLess(a.key, b.key))
  }

  function SeverityText(s: Severity): string {
    if s == Blocker then "blocker" else "warning"
  }

  predicate IssueLess(a: Issue, b: Issue) {
    a.sortOrder < b.sortOrder
    || (a.sortOrder == b.sortOrder
        && (TextLess(SeverityText(a.severity), SeverityText(b.severity))
            || (a.severity == b.severity && TextLess(a.code, b.code))))
  }

  lemma RowOrders()
    ensures StrictOrder(TargetLess) && StrictOrder(ComponentLess) && StrictOrder(StepLess) && StrictOrder(IssueLess)
  {
    TextOrder();
    hide TextLess;
  }

  lemma SortOrders()
    ensures WeakOrder(ProcessLess) && WeakOrder(VariableLess)
  {
    TextOrder();
    hide TextLess;
  }

  // ---------------------------------------------------------------- storing and reading back

  /** What a JSON column gives back for a value, once compacted. */
  type Column = JsonText -> JsonText

  function ReadStep(s: Step, column: Column): Step {
    s.(bindings := column(s.bindings))
  }

  /** A redacted or empty value is stored as NULL, and a JSON null is read as no value. */
  function ReadVariable(v: Variable, column: Column): Variable {
    v.(value := if v.redacted || v.value.None? || column(v.value.value) == "null" then None else Some(column(v.value.value)),
       trace := column(v.trace))
  }

  function ReadSteps(steps: seq<Step>, column: Column): seq<Step> {
    seq(|steps|, i requires 0 <= i < |steps| => ReadStep(steps[i], column))
  }

  function ReadVariables(variables: seq<Variable>, column: Column): seq<Variable> {
    seq(|variables|, i requires 0 <= i < |variables| => ReadVariable(variables[i], column))
  }

  /** Any hydration of a stored plan: the rows, in an order the queries allow. */
  ghost predicate Hydrates(plan: Plan, column: Column, out: Plan) {
    && out.header == plan.header
    && Permutes(plan.targets, out.targets) && Sorted(out.targets, TargetLess)
    && Permutes(plan.components, out.components) && Sorted(out.components, ComponentLess)
    && Permutes(ReadSteps(plan.steps, column), out.steps) && Sorted(out.steps, StepLess)
    && Permutes(ReadVariables(plan.variables, column), out.variables) && Sorted(out.variables, VariableLess)
    && Permutes(plan.issues, out.issues) && Sorted(out.issues, IssueLess)
  }

  /** The canonical form leaves out the target rows' own identifiers. */
  function Canonical(plan: Plan): Plan {
    plan.(targets := seq(|plan.targets|, i requires 0 <= i < |plan.targets| => plan.targets[i].(id := "")))
  }

  predicate TargetsAscend(targets: seq<Target>) {
    forall i, j :: 0 <= i < j < |targets| ==> TextLess(targets[i].id, targets[j].id)
  }

  predicate StepKept(s: Step, column: Column) {
    column(s.bindings) == s.bindings
  }

  predicate VariableKept(v: Variable, column: Column) {
    column(v.trace) == v.trace
    && (v.value.Some? ==> !v.redacted && column(v.value.value) == v.value.value && v.value.value != "null")
  }

  predicate Kept(plan: Plan, column: Column) {
    && (plan.components != [] ==> TargetsAscend(plan.targets))
    && (forall s :: s in plan.steps ==> StepKept(s, column))
    && (forall v :: v in plan.variables ==> VariableKept(v, column))
  }

  // ---------------------------------------------------------------- rows as written

  lemma {:induction false} TargetRowsAscend(t: Target, contract: Contract, states: States, n: nat)
    requires n <= |contract.affected|
    ensures Ascending(TargetRows(t, contract, states, n), ComponentLess)
    ensures forall c :: c in TargetRows(t, contract, states, n) ==> c.planTarget == t.id && c.sortOrder <= n * 10
  {
    if n > 0 { TargetRowsAscend(t, contract, states, n - 1); }
  }

  /** Every target gets rows for the same affected components. */
  lemma {:induction false} TargetRowsAlike(t: Target, u: Target, contract: Contract, states: States, n: nat)
    requires n <= |contract.affected|
    ensures TargetRows(t, contract, states, n) == [] <==> TargetRows(u, contract, states, n) == []
  {
    if n > 0 { TargetRowsAlike(t, u, contract, states, n - 1); }
  }

  lemma {:induction false} AllRowsBelong(targets: seq<Target>, contract: Contract, states: States, n: nat)
    requires n <= |targets|
    ensures forall c :: c in AllRows(targets, contract, states, n) ==> exists i :: 0 <= i < n && c.planTarget == targets[i].id
  {
    if n > 0 {
      AllRowsBelong(targets, contract, states, n - 1);
      TargetRowsAscend(targets[n - 1], contract, states, |contract.affected|);
    }
  }

  lemma {:induction false} AllRowsAscend(targets: seq<Target>, contract: Contract, states: States, n: nat)
    requires n <= |targets| && TargetsAscend(targets)
    ensures Ascending(AllRows(targets, contract, states, n), ComponentLess)
  {
    if n > 0 {
      AllRowsAscend(targets, contract, states, n - 1);
      AllRowsBelong(targets, contract, states, n - 1);
      TargetRowsAscend(targets[n - 1], contract, states, |contract.affected|);
      hide AllRows, TargetRows;
      var front := AllRows(targets, contract, states, n - 1);
      var last := TargetRows(targets[n - 1], contract, states, |contract.affected|);
      assert forall c, d :: c in front && d in last ==> ComponentLess(c, d);
    }
  }

  lemma {:induction false} TargetHasRow(targets: seq<Target>, contract: Contract, states: States, n: nat, i: nat) returns (p: nat)
    requires i < n <= |targets| && TargetRows(targets[i], contract, states, |contract.affected|) != []
    ensures p < |AllRows(targets, contract, states, n)| && AllRows(targets, contract, states, n)[p].planTarget == targets[i].id
  {
    if i == n - 1 {
      p := |AllRows(targets, contract, states, n - 1)|;
      TargetRowsAscend(targets[i], contract, states, |contract.affected|);
      assert TargetRows(targets[i], contract, states, |contract.affected|)[0].planTarget == targets[i].id;
    } else {
      p := TargetHasRow(targets, contract, states, n - 1, i);
    }
  }

  lemma {:induction false} LaterTargetLater(targets: seq<Target>, contract: Contract, states: States, n: nat, i: nat, j: nat)
    returns (p: nat, q: nat)
    requires i < j < n <= |targets|
    requires forall k :: 0 <= k < n ==> TargetRows(targets[k], contract, states, |contract.affected|) != []
    ensures p < q < |AllRows(targets, contract, states, n)|
    ensures AllRows(targets, contract, states, n)[p].planTarget == targets[i].id
    ensures AllRows(targets, contract, states, n)[q].planTarget == targets[j].id
  {
    if j == n - 1 {
      p := TargetHasRow(targets, contract, states, n - 1, i);
      q := |AllRows(targets, contract, states, n - 1)|;
      TargetRowsAscend(targets[j], contract, states, |contract.affected|);
      assert TargetRows(targets[j], contract, states, |contract.affected|)[0].planTarget == targets[j].id;
    } else {
      p, q := LaterTargetLater(targets, contract, states, n - 1, i, j);
    }
  }

  lemma {:induction false} NoRows(targets: seq<Target>, contract: Contract, states: States, n: nat)
    requires n <= |targets| && forall k :: 0 <= k < n ==> TargetRows(targets[k], contract, states, |contract.affected|) == []
    ensures AllRows(targets, contract, states, n) == []
  {
    if n > 0 { NoRows(targets, contract, states, n - 1); }
  }

  /** Component rows sorted by target row mean target rows in target order. */
  lemma SortedRowsAscend(targets: seq<Target>, contract: Contract, states: States)
    requires forall i, j :: 0 <= i < j < |targets| ==> targets[i].id != targets[j].id
    requires AllRows(targets, contract, states, |targets|) != []
    requires Sorted(AllRows(targets, contract, states, |targets|), ComponentLess)
    ensures TargetsAscend(targets)
  {
    var rows := AllRows(targets, contract, states, |targets|);
    assert exists k :: 0 <= k < |targets| && TargetRows(targets[k], contract, states, |contract.affected|) != [] by {
      if forall k :: 0 <= k < |targets| ==> TargetRows(targets[k], contract, states, |contract.affected|) == [] {
        NoRows(targets, contract, states, |targets|);
      }
    }
    var k :| 0 <= k < |targets| && TargetRows(targets[k], contract, states, |contract.affected|) != [];
    forall i | 0 <= i < |targets|
      ensures TargetRows(targets[i], contract, states, |contract.affected|) != []
    {
      TargetRowsAlike(targets[i], targets[k], contract, states, |contract.affected|);
    }
    TextOrder();
    hide AllRows, TargetRows, TextLess;
    forall i, j | 0 <= i < j < |targets|
      ensures TextLess(targets[i].id, targets[j].id)
    {
      var p, q := LaterTargetLater(targets, contract, states, |targets|, i, j);
      assert !ComponentLess(rows[q], rows[p]);
    }
  }

  /** The components come back in order exactly when there are none or the target rows ascend. */
  lemma ComponentsReturn(q: Request, out: seq<Component>)
    requires Storable(q)
    requires Permutes(ComponentsOf(q.targets, q.contract, q.states), out) && Sorted(out, ComponentLess)
    ensures out == ComponentsOf(q.targets, q.contract, q.states) <==>
            (ComponentsOf(q.targets, q.contract, q.states) != [] ==> TargetsAscend(q.targets))
  {
    var rows := ComponentsOf(q.targets, q.contract, q.states);
    RowOrders();
    hide AllRows, TextLess, ComponentLess;
    if rows == [] {
      assert |multiset(out)| == |multiset(rows)|;
    } else if TargetsAscend(q.targets) {
      AllRowsAscend(q.targets, q.contract.value, q.states, |q.targets|);
      SortedReading(rows, out, ComponentLess);
    } else if out == rows {
      SortedRowsAscend(q.targets, q.contract.value, q.states);
    }
  }

  // ---------------------------------------------------------------- the other tables

  lemma TargetsReturn(targets: seq<Target>, out: seq<Target>)
    requires forall i :: 0 <= i < |targets| ==> targets[i].sortOrder == (i + 1) * 10
    requires Permutes(targets, out) && Sorted(out, TargetLess)
    ensures out == targets
  {
    RowOrders();
    hide TextLess;
    SortedReading(targets, out, TargetLess);
  }

  lemma IssuesReturn(findings: seq<Finding>, out: seq<Issue>)
    requires Permutes(Numbered(0, findings), out) && Sorted(out, IssueLess)
    ensures out == Numbered(0, findings)
  {
    RowOrders();
    hide TextLess;
    SortedReading(Numbered(0, findings), out, IssueLess);
  }

  lemma StepsAscend(process: seq<ProcessStep>, scope: Scope, registry: Registry, column: Column)
    requires DistinctBy(process, (s: ProcessStep) => s.key)
    ensures Ascending(ReadSteps(PlannedSteps(StableSort(process, ProcessLess), scope, registry), column), StepLess)
  {
    var sorted := StableSort(process, ProcessLess);
    SortOrders();
    StableSortSorts(process, ProcessLess);
    StableSortPermutes(process, ProcessLess);
    DistinctSurvives(process, sorted, (s: ProcessStep) => s.key);
    TextOrder();
    hide StableSort, TextLess;
    forall i, j | 0 <= i < j < |sorted|
      ensures ProcessLess(sorted[i], sorted[j])
    {
      var key := (s: ProcessStep) => s.key;
      assert key(sorted[i]) != key(sorted[j]);
    }
  }

  lemma VariablesAscend(values: seq<Variable>, column: Column)
    requires DistinctBy(values, (v: Variable) => v.id)
    ensures Ascending(ReadVariables(StableSort(values, VariableLess), column), VariableLess)
  {
    var sorted := StableSort(values, VariableLess);
    SortOrders();
    StableSortSorts(values, VariableLess);
    StableSortPermutes(values, VariableLess);
    DistinctSurvives(values, sorted, (v: Variable) => v.id);
    TextOrder();
    hide StableSort, TextLess;
    forall i, j | 0 <= i < j < |sorted|
      ensures VariableLess(sorted[i], sorted[j])
    {
      var key := (v: Variable) => v.id;
      assert key(sorted[i]) != key(sorted[j]);
    }
  }

  lemma StepsKept(steps: seq<Step>, column: Column)
    ensures ReadSteps(steps, column) == steps <==> forall s :: s in steps ==> StepKept(s, column)
  {
    forall i | 0 <= i < |steps|
      ensures ReadSteps(steps, column)[i] == steps[i] <==> StepKept(steps[i], column)
    {
    }
    hide ReadSteps, StepKept;
    if ReadSteps(steps, column) == steps {
      forall s | s in steps
        ensures StepKept(s, column)
      {
        var i :| 0 <= i < |steps| && steps[i] == s;
      }
    }
  }

  lemma StepsReturn(q: Request, column: Column, out: seq<Step>)
    requires Storable(q)
    requires Permutes(ReadSteps(Resolved(q).steps, column), out) && Sorted(out, StepLess)
    ensures out == Resolved(q).steps <==> forall s :: s in Resolved(q).steps ==> StepKept(s, column)
  {
    var steps := Resolved(q).steps;
    StepsAscend(q.process, q.scope, q.registry, column);
    RowOrders();
    hide StableSort, PlannedSteps, TextLess;
    hide ReadSteps, StepKept, StepLess, Resolved;
    SortedReading(ReadSteps(steps, column), out, StepLess);
    StepsKept(steps, column);
  }

  lemma VariablesKept(variables: seq<Variable>, column: Column)
    ensures ReadVariables(variables, column) == variables <==> forall v :: v in variables ==> VariableKept(v, column)
  {
    forall i | 0 <= i < |variables|
      ensures ReadVariables(variables, column)[i] == variables[i] <==> VariableKept(variables[i], column)
    {
    }
    hide ReadVariables, VariableKept;
    if ReadVariables(variables, column) == variables {
      forall v | v in variables
        ensures VariableKept(v, column)
      {
        var i :| 0 <= i < |variables| && variables[i] == v;
      }
    }
  }

  lemma VariablesReturn(q: Request, column: Column, out: seq<Variable>)
    requires Storable(q)
    requires Permutes(ReadVariables(Resolved(q).variables, column), out) && Sorted(out, VariableLess)
    ensures out == Resolved(q).variables <==> forall v :: v in Resolved(q).variables ==> VariableKept(v, column)
  {
    var variables := Resolved(q).variables;
    VariablesAscend(q.values, column);
    SortOrders();
    hide StableSort, TextLess;
    hide ReadVariables, VariableKept, VariableLess, Resolved;
    SortedReading(ReadVariables(variables, column), out, VariableLess);
    VariablesKept(variables, column);
  }

  /** The round trip: after hydration, in whatever order ties come, a created plan re-canonicalises to its
      stored payload exactly when what it relies on was kept. */
  lemma RoundTrip(q: Request, column: Column, out: Plan)
    requires Storable(q) && Hydrates(Resolved(q), column, out)
    ensures Canonical(out) == Canonical(Resolved(q)) <==> Kept(Resolved(q), column)
  {
    TargetsReturn(q.targets, out.targets);
    IssuesReturn(AllFindings(q), out.issues);
    ComponentsReturn(q, out.components);
    StepsReturn(q, column, out.steps);
    VariablesReturn(q, column, out.variables);
    hide StepKept, VariableKept, TargetsAscend, ReadSteps, ReadVariables, StableSort, PlannedSteps, ComponentsOf, AllFindings;
  }

  /** So a plan for one target always survives, given lossless columns and no value where one is redacted. */
  lemma SingleTargetSurvives(q: Request, column: Column, out: Plan)
    requires Storable(q) && Hydrates(Resolved(q), column, out) && |q.targets| <= 1
    requires forall j :: column(j) == j
    requires forall v :: v in q.values && v.value.Some? ==> !v.redacted && v.value.value != "null"
    ensures Canonical(out) == Canonical(Resolved(q))
  {
    RoundTrip(q, column, out);
    StableSortPermutes(q.values, VariableLess);
    forall v | v in Resolved(q).variables
      ensures VariableKept(v, column)
    {
      assert v in multiset(Resolved(q).variables);
      assert v in q.values;
    }
  }

  /** And a plan for two targets with components does not, when the second target row drew the lower id. */
  lemma DescendingTargetsFail(q: Request, column: Column, out: Plan)
    requires Storable(q) && Hydrates(Resolved(q), column, out)
    requires |q.targets| == 2 && TextLess(q.targets[1].id, q.targets[0].id) && Resolved(q).components != []
    ensures Canonical(out) != Canonical(Resolved(q))
  {
    RoundTrip(q, column, out);
    TextOrder();
  }
}

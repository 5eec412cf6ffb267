/** A deployment plan: how it is assembled, stored as rows, read back sorted, and when its canonical form
    survives the trip. */
module DeploymentPlans {
  import opened Wrappers
  import opened Conditions
  import opened Ordering

  type Id = string
  type JsonText = string

  datatype Severity = Blocker | Warning

  datatype Target = Target(id: Id, deploymentTarget: Id, details: string, sortOrder: nat)

  datatype Expected = Expected(version: nat, checksum: string, releaseBundle: Id)

  datatype Component = Component(planTarget: Id, deploymentTarget: Id, name: string, details: string,
                                 expected: Option<Expected>, sortOrder: nat)

  datatype Step = Step(key: string, details: string, bindings: JsonText, actionName: string, sortOrder: nat,
                       included: bool, excludedReason: string)

  datatype Variable = Variable(set_: Id, id: Id, key: string, details: string, required: bool, resolved: bool,
                               value: Option<JsonText>, redacted: bool, trace: JsonText)

  datatype Issue = Issue(severity: Severity, code: string, field: string, message: string, sortOrder: nat)

  datatype Plan = Plan(header: string, targets: seq<Target>, components: seq<Component>, steps: seq<Step>,
                       variables: seq<Variable>, issues: seq<Issue>)

  // ---------------------------------------------------------------- targets

  datatype Source = Source(deploymentTarget: Id, details: string)

  /** Snapshots the requested targets in the order the query lists them, each under a fresh row id. */
  method ResolveTargets(sources: seq<Source>, requested: nat, rowIds: seq<Id>) returns (r: Result<seq<Target>>)
    requires |rowIds| == |sources|
    ensures r.Ok? <==> |sources| == requested
    ensures r.Ok? ==> |r.value| == requested
                      && forall i :: 0 <= i < requested ==> r.value[i].id == rowIds[i] && r.value[i].sortOrder == (i + 1) * 10
                                                            && r.value[i].deploymentTarget == sources[i].deploymentTarget
                                                            && r.value[i].details == sources[i].details
  {
    if |sources| != requested {
      return Err("not found");
    }
    var targets: seq<Target> := [];
    for i := 0 to |sources|
      invariant |targets| == i
      invariant forall j :: 0 <= j < i ==>
                  targets[j] == Target(rowIds[j], sources[j].deploymentTarget, sources[j].details, (j + 1) * 10)
    {
      targets := targets + [Target(rowIds[i], sources[i].deploymentTarget, sources[i].details, (i + 1) * 10)];
    }
    return Ok(targets);
  }

  // ---------------------------------------------------------------- release contracts and components

  datatype ContractComponent = ContractComponent(name: string, details: string)

  datatype Contract = Contract(components: seq<ContractComponent>, affected: seq<string>)

  type States = map<(Id, string), Expected>

  /** The contract's components by name; of several with one name, the last. */
  function ByName(components: seq<ContractComponent>): map<string, ContractComponent> {
    if components == [] then map[]
    else
      var last := components[|components| - 1];
      ByName(components[..|components| - 1])[last.name := last]
  }

  function Snapshot(t: Target, c: ContractComponent, index: nat, states: States): Component {
    var at := (t.deploymentTarget, c.name);
    Component(t.id, t.deploymentTarget, c.name, c.details, if at in states then Some(states[at]) else None, (index + 1) * 10)
  }

  /** One target's rows for the first `n` affected components; names the contract lacks are skipped. */
  function TargetRows(t: Target, contract: Contract, states: States, n: nat): (r: seq<Component>)
    requires n <= |contract.affected|
  {
    if n == 0 then []
    else
      var name := contract.affected[n - 1];
      var known := ByName(contract.components);
      TargetRows(t, contract, states, n - 1)
      + (if name in known then [Snapshot(t, known[name], n - 1, states)] else [])
  }

  function AllRows(targets: seq<Target>, contract: Contract, states: States, n: nat): seq<Component>
    requires n <= |targets|
  {
    if n == 0 then []
    else AllRows(targets, contract, states, n - 1) + TargetRows(targets[n - 1], contract, states, |contract.affected|)
  }

  function ComponentsOf(targets: seq<Target>, contract: Option<Contract>, states: States): seq<Component> {
    if contract.None? then [] else AllRows(targets, contract.value, states, |targets|)
  }

  // ---------------------------------------------------------------- steps and their findings

  datatype ProcessStep = ProcessStep(key: string, sortOrder: nat, actionType: string, bindings: Option<JsonText>,
                                     condition: Parsed, channels: seq<Id>, environments: seq<Id>, details: string)

  datatype Finding = Finding(severity: Severity, code: string, field: string, message: string)

  /** The action registry: an action's name, and what is wrong with an input. */
  datatype Registry = Registry(actionName: string -> Option<string>, inputError: (string, Option<JsonText>) -> Option<string>)

  datatype Scope = Scope(channel: Id, environment: Id)

  predicate ProcessLess(a: ProcessStep, b: ProcessStep) {
    a.sortOrder < b.sortOrder || (a.sortOrder == b.sortOrder && TextLess(a.key, b.key))
  }

  function ExcludedReason(s: ProcessStep, scope: Scope): string {
    if s.channels != [] && scope.channel !in s.channels then "channel_scope_mismatch"
    else if s.environments != [] && scope.environment !in s.environments then "environment_scope_mismatch"
    else ""
  }

  function Planned(s: ProcessStep, scope: Scope, registry: Registry): Step {
    var name := registry.actionName(s.actionType);
    Step(s.key, s.details, if s.bindings.Some? then s.bindings.value else "{}",
         if name.Some? then name.value else "", s.sortOrder,
         ExcludedReason(s, scope) == "", ExcludedReason(s, scope))
  }

  function PlannedSteps(steps: seq<ProcessStep>, scope: Scope, registry: Registry): seq<Step> {
    seq(|steps|, i requires 0 <= i < |steps| => Planned(steps[i], scope, registry))
  }

  predicate ConditionHolds(s: ProcessStep, keys: set<string>) {
    var refs := OutputReferences(s.condition);
    refs.Ok? && forall r :: r in refs.value ==> r.step in keys
  }

  function StepFindings(s: ProcessStep, keys: set<string>, registry: Registry): seq<Finding> {
    var error := registry.inputError(s.actionType, s.bindings);
    (if registry.actionName(s.actionType).None? then
       [Finding(Blocker, "unknown_action_type", "steps." + s.key + ".actionType", s.actionType)]
     else if error.Some? then [Finding(Blocker, "invalid_action_input", "steps." + s.key + ".inputBindings", error.value)]
     else [])
    + (if ConditionHolds(s, keys) then []
       else [Finding(Blocker, "invalid_step_condition", "steps." + s.key + ".condition", "condition is invalid")])
  }

  function FindingsOf(steps: seq<ProcessStep>, keys: set<string>, registry: Registry, n: nat): seq<Finding>
    requires n <= |steps|
  {
    if n == 0 then [] else FindingsOf(steps, keys, registry, n - 1) + StepFindings(steps[n - 1], keys, registry)
  }

  function KeysOf(steps: seq<ProcessStep>): set<string> {
    set s | s in steps :: s.key
  }

  /** No step applies to the plan's channel and environment. */
  predicate NoneApplies(steps: seq<ProcessStep>, scope: Scope) {
    steps != [] && forall s :: s in steps ==> ExcludedReason(s, scope) != ""
  }

  function ProcessFindings(process: seq<ProcessStep>, scope: Scope, registry: Registry): seq<Finding> {
    var steps := StableSort(process, ProcessLess);
    var found := FindingsOf(steps, KeysOf(process), registry, |steps|);
    if NoneApplies(process, scope) then found + [Finding(Blocker, "no_applicable_steps", "steps", "no step applies")] else found
  }

  function Numbered(start: nat, findings: seq<Finding>): seq<Issue> {
    seq(|findings|, i requires 0 <= i < |findings| =>
      Issue(findings[i].severity, findings[i].code, findings[i].field, findings[i].message, (start + i + 1) * 10))
  }

  // ---------------------------------------------------------------- assembling

  predicate VariableLess(a: Variable, b: Variable) {
    TextLess(a.key, b.key)
    || (a.key == b.key && (TextLess(a.set_, b.set_) || (a.set_ == b.set_ && TextLess(a.id, b.id))))
  }

  function UnresolvedFinding(v: Variable): Finding {
    Finding(Blocker, "required_variable_unresolved", "variables." + v.key, "required variable is unresolved")
  }

  function VariableFindings(variables: seq<Variable>, n: nat): seq<Finding>
    requires n <= |variables|
  {
    if n == 0 then []
    else if variables[n - 1].required && !variables[n - 1].resolved then
      VariableFindings(variables, n - 1) + [UnresolvedFinding(variables[n - 1])]
    else VariableFindings(variables, n - 1)
  }

  predicate NumberedByTens(issues: seq<Issue>) {
    forall i :: 0 <= i < |issues| ==> issues[i].sortOrder == (i + 1) * 10
  }

  class Draft {
    var header: string
    var targets: seq<Target>
    var components: seq<Component>
    var steps: seq<Step>
    var variables: seq<Variable>
    var issues: seq<Issue>

    constructor (h: string, ts: seq<Target>)
      ensures Content() == Plan(h, ts, [], [], [], [])
    {
      header, targets, components, steps, variables, issues := h, ts, [], [], [], [];
    }

    function Content(): Plan
      reads this
    {
      Plan(header, targets, components, steps, variables, issues)
    }

    /** Appends one finding; the list stays numbered by tens and nothing already in it changes. */
    method AddIssue(f: Finding)
      modifies this`issues
      ensures issues == old(issues) + Numbered(|old(issues)|, [f])
      ensures |issues| == |old(issues)| + 1 && issues[..|old(issues)|] == old(issues)
      ensures NumberedByTens(old(issues)) ==> NumberedByTens(issues)
    {
      issues := issues + [Issue(f.severity, f.code, f.field, f.message, (|issues| + 1) * 10)];
    }

    /** Snapshots every affected component of every target, in target order. */
    method ResolveComponents(contract: Option<Contract>, states: States)
      requires components == []
      modifies this`components
      ensures components == ComponentsOf(targets, contract, states)
    {
      if contract.None? {
        return;
      }
      var known: map<string, ContractComponent> := map[];
      var all := contract.value.components;
      for i := 0 to |all|
        invariant known == ByName(all[..i])
      {
        assert all[..i + 1][..i] == all[..i];
        known := known[all[i].name := all[i]];
      }
      assert all[..|all|] == all;
      for i := 0 to |targets|
        invariant components == AllRows(targets, contract.value, states, i)
      {
        ghost var before := components;
        for index := 0 to |contract.value.affected|
          invariant components == before + TargetRows(targets[i], contract.value, states, index)
        {
          var name := contract.value.affected[index];
          if name in known {
            components := components + [Snapshot(targets[i], known[name], index, states)];
          }
        }
      }
    }

    /** Records what is wrong with one step's action, input and condition. */
    method CheckStep(s: ProcessStep, keys: set<string>, registry: Registry)
      modifies this`issues
      ensures issues == old(issues) + Numbered(|old(issues)|, StepFindings(s, keys, registry))
    {
      ghost var before := issues;
      ghost var found: seq<Finding> := [];
      var error := registry.inputError(s.actionType, s.bindings);
      if registry.actionName(s.actionType).None? {
        var f := Finding(Blocker, "unknown_action_type", "steps." + s.key + ".actionType", s.actionType);
        found := [f];
        AddIssue(f);
      } else if error.Some? {
        var f := Finding(Blocker, "invalid_action_input", "steps." + s.key + ".inputBindings", error.value);
        found := [f];
        AddIssue(f);
      }
      assert issues == before + Numbered(|before|, found);
      if !ConditionHolds(s, keys) {
        var f := Finding(Blocker, "invalid_step_condition", "steps." + s.key + ".condition", "condition is invalid");
        NumberedJoins(|before|, found, [f]);
        AddIssue(f);
        found := found + [f];
      }
      assert found == StepFindings(s, keys, registry);
    }

    /** Plans sorted steps one by one and counts those that apply. */
    method AddSorted(sorted: seq<ProcessStep>, keys: set<string>, scope: Scope, registry: Registry) returns (included: nat)
      requires steps == []
      modifies this`steps, this`issues
      ensures steps == PlannedSteps(sorted, scope, registry)
      ensures issues == old(issues) + Numbered(|old(issues)|, FindingsOf(sorted, keys, registry, |sorted|))
      ensures included == 0 <==> forall s :: s in sorted ==> ExcludedReason(s, scope) != ""
    {
      ghost var before := issues;
      hide StepFindings, Numbered, Planned, ExcludedReason;
      NumberedNone(|before|);
      included := 0;
      for i := 0 to |sorted|
        invariant steps == PlannedSteps(sorted[..i], scope, registry)
        invariant issues == before + Numbered(|before|, FindingsOf(sorted, keys, registry, i))
        invariant included == 0 <==> forall j :: 0 <= j < i ==> ExcludedReason(sorted[j], scope) != ""
      {
        var s := sorted[i];
        NumberedJoins(|before|, FindingsOf(sorted, keys, registry, i), StepFindings(s, keys, registry));
        NumberedLength(|before|, FindingsOf(sorted, keys, registry, i));
        CheckStep(s, keys, registry);
        if ExcludedReason(s, scope) == "" {
          included := included + 1;
        }
        assert sorted[..i + 1] == sorted[..i] + [s];
        steps := steps + [Planned(s, scope, registry)];
      }
      assert sorted[..|sorted|] == sorted;
    }

    /** Plans the snapshot's steps in order, with a finding for everything that cannot run. */
    method AddSteps(process: seq<ProcessStep>, scope: Scope, registry: Registry)
      requires steps == []
      modifies this`steps, this`issues
      ensures steps == PlannedSteps(StableSort(process, ProcessLess), scope, registry)
      ensures issues == old(issues) + Numbered(|old(issues)|, ProcessFindings(process, scope, registry))
    {
      var sorted := StableSort(process, ProcessLess);
      NoneAppliesSorted(process, scope);
      ghost var before := issues;
      hide StepFindings, FindingsOf, Numbered, PlannedSteps, StableSort, ExcludedReason, NoneApplies, KeysOf, NumberedByTens;
      var included := AddSorted(sorted, KeysOf(process), scope, registry);
      ghost var found := FindingsOf(sorted, KeysOf(process), registry, |sorted|);
      if |sorted| > 0 && included == 0 {
        var f := Finding(Blocker, "no_applicable_steps", "steps", "no step applies");
        NumberedJoins(|before|, found, [f]);
        NumberedLength(|before|, found);
        AddIssue(f);
      }
    }

    /** Adds the resolved variables in order; a required one without a value blocks the plan. */
    method AddVariables(values: seq<Variable>)
      requires variables == []
      modifies this`variables, this`issues
      ensures variables == StableSort(values, VariableLess)
      ensures issues == old(issues) + Numbered(|old(issues)|, VariableFindings(variables, |variables|))
    {
      var sorted := StableSort(values, VariableLess);
      ghost var before := issues;
      hide Numbered, StableSort;
      NumberedNone(|before|);
      for i := 0 to |sorted|
        invariant variables == sorted[..i]
        invariant issues == before + Numbered(|before|, VariableFindings(sorted, i))
      {
        assert sorted[..i + 1] == sorted[..i] + [sorted[i]];
        variables := variables + [sorted[i]];
        if sorted[i].required && !sorted[i].resolved {
          NumberedJoins(|before|, VariableFindings(sorted, i), [UnresolvedFinding(sorted[i])]);
          NumberedLength(|before|, VariableFindings(sorted, i));
          AddIssue(UnresolvedFinding(sorted[i]));
        }
      }
      assert sorted[..|sorted|] == sorted;
    }
  }

  lemma NumberedNone(start: nat)
    ensures Numbered(start, []) == []
  {
  }

  lemma NumberedLength(start: nat, findings: seq<Finding>)
    ensures |Numbered(start, findings)| == |findings|
  {
  }

  lemma NumberedJoins(start: nat, a: seq<Finding>, b: seq<Finding>)
    ensures Numbered(start, a + b) == Numbered(start, a) + Numbered(start + |a|, b)
  {
  }

  lemma NoneAppliesSorted(process: seq<ProcessStep>, scope: Scope)
    ensures var sorted := StableSort(process, ProcessLess);
            NoneApplies(process, scope) <==> sorted != [] && forall s :: s in sorted ==> ExcludedReason(s, scope) != ""
  {
    StableSortPermutes(process, ProcessLess);
    hide StableSort, ExcludedReason;
    SameMembers(StableSort(process, ProcessLess), process);
  }
}

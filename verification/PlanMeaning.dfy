/** What a resolved plan says of the request: which steps it includes, what it complains of, and when it is ready. */
module PlanMeaning {
  import opened Wrappers
  import opened Conditions
  import opened Ordering
  import opened DeploymentPlans

  // ---------------------------------------------------------------- steps

  /** The step names no channel or the plan's among others, and likewise for environments. */
  predicate Serves(p: ProcessStep, scope: Scope) {
    && (|p.channels| > 0 ==> scope.channel in p.channels)
    && (|p.environments| > 0 ==> scope.environment in p.environments)
  }

  lemma ServesMeans(p: ProcessStep, scope: Scope)
    ensures ExcludedReason(p, scope) == "" <==> Serves(p, scope)
    ensures ExcludedReason(p, scope) == "channel_scope_mismatch" <==> p.channels != [] && scope.channel !in p.channels
    ensures ExcludedReason(p, scope) == "environment_scope_mismatch" <==>
              !Serves(p, scope) && (p.channels == [] || scope.channel in p.channels)
  {
  }

  /** The planned step of a process step: the same key, details and place, its bindings or none, the action's name, and
      included exactly when the step serves the plan's channel and environment. */
  predicate PlannedAs(s: Step, p: ProcessStep, scope: Scope, registry: Registry) {
    && s.key == p.key && s.details == p.details && s.sortOrder == p.sortOrder
    && (p.bindings.Some? ==> s.bindings == p.bindings.value) && (p.bindings.None? ==> s.bindings == "{}")
    && (registry.actionName(p.actionType).Some? ==> Some(s.actionName) == registry.actionName(p.actionType))
    && (s.included <==> Serves(p, scope)) && (s.included <==> s.excludedReason == "")
  }

  /** Every process step is planned, in the order of sort order and key. */
  lemma StepsMean(process: seq<ProcessStep>, scope: Scope, registry: Registry)
    ensures var sorted := StableSort(process, ProcessLess);
            var steps := PlannedSteps(sorted, scope, registry);
            && Permutes(sorted, process) && |steps| == |process| == |sorted|
            && (forall i :: 0 <= i < |steps| ==> PlannedAs(steps[i], sorted[i], scope, registry))
            && forall i, j :: 0 <= i < j < |steps| ==>
                 steps[i].sortOrder < steps[j].sortOrder
                 || (steps[i].sortOrder == steps[j].sortOrder && !TextLess(steps[j].key, steps[i].key))
  {
    var sorted := StableSort(process, ProcessLess);
    ProcessOrder();
    StableSortSorts(process, ProcessLess);
    StableSortPermutes(process, ProcessLess);
    hide StableSort, TextLess;
    forall i | 0 <= i < |sorted|
      ensures PlannedAs(Planned(sorted[i], scope, registry), sorted[i], scope, registry)
    {
      ServesMeans(sorted[i], scope);
      hide Serves, ExcludedReason;
    }
    hide PlannedAs, Serves, ExcludedReason;
    forall i, j | 0 <= i < j < |sorted|
      ensures sorted[i].sortOrder < sorted[j].sortOrder
              || (sorted[i].sortOrder == sorted[j].sortOrder && !TextLess(sorted[j].key, sorted[i].key))
    {
      assert !ProcessLess(sorted[j], sorted[i]);
    }
  }

  lemma ProcessOrder()
    ensures WeakOrder(ProcessLess)
  {
    TextOrder();
    hide TextLess;
  }

  // ---------------------------------------------------------------- findings

  /** The condition parses, and a step of the process has the output it asks for, if it asks for one. */
  ghost predicate Answerable(condition: Parsed, process: seq<ProcessStep>) {
    condition.Ok? && forall key, operator, literal :: condition.value == Compare(LeftOutput(key), operator, literal) ==>
                       exists t :: t in process && t.key == key.step
  }

  lemma AnswerableMeans(p: ProcessStep, process: seq<ProcessStep>)
    ensures ConditionHolds(p, KeysOf(process)) <==> Answerable(p.condition, process)
  {
    if p.condition.Ok? && p.condition.value.Compare? && p.condition.value.left.LeftOutput? {
      var key := p.condition.value.left.output;
      assert OutputReferences(p.condition).value == [key];
      assert key in OutputReferences(p.condition).value;
      assert key.step in KeysOf(process) <==> exists t :: t in process && t.key == key.step;
    }
  }

  /** What is wrong with one step, in the words of the finding. */
  ghost predicate Complains(f: Finding, p: ProcessStep, process: seq<ProcessStep>, registry: Registry) {
    f.severity == Blocker
    && ((registry.actionName(p.actionType) == None
         && f.code == "unknown_action_type" && f.field == "steps." + p.key + ".actionType" && f.message == p.actionType)
        || (registry.actionName(p.actionType) != None && registry.inputError(p.actionType, p.bindings) == Some(f.message)
            && f.code == "invalid_action_input" && f.field == "steps." + p.key + ".inputBindings")
        || (!Answerable(p.condition, process) && f.code == "invalid_step_condition"
            && f.field == "steps." + p.key + ".condition" && f.message == "condition is invalid"))
  }

  lemma ComplaintMeans(f: Finding, p: ProcessStep, process: seq<ProcessStep>, registry: Registry)
    ensures f in StepFindings(p, KeysOf(process), registry) <==> Complains(f, p, process, registry)
  {
    AnswerableMeans(p, process);
    hide Answerable, ConditionHolds;
  }

  lemma {:induction false} FindingsMembers(steps: seq<ProcessStep>, keys: set<string>, registry: Registry, n: nat, f: Finding)
    requires n <= |steps|
    ensures f in FindingsOf(steps, keys, registry, n) <==> exists p :: p in steps[..n] && f in StepFindings(p, keys, registry)
  {
    hide StepFindings;
    if n > 0 {
      FindingsMembers(steps, keys, registry, n - 1, f);
      assert steps[..n] == steps[..n - 1] + [steps[n - 1]];
    }
  }

  const NO_STEP := Finding(Blocker, "no_applicable_steps", "steps", "no step applies")

  /** The findings of a process are what is wrong with its steps, and that none of them serves the plan. */
  lemma FindingsMean(process: seq<ProcessStep>, scope: Scope, registry: Registry, f: Finding)
    ensures f in ProcessFindings(process, scope, registry) <==>
              (exists p :: p in process && Complains(f, p, process, registry))
              || (f == NO_STEP && process != [] && forall p :: p in process ==> !Serves(p, scope))
  {
    var sorted := StableSort(process, ProcessLess);
    StableSortPermutes(process, ProcessLess);
    SameMembers(sorted, process);
    assert sorted[..|sorted|] == sorted;
    FindingsMembers(sorted, KeysOf(process), registry, |sorted|, f);
    hide StableSort, StepFindings, Complains, Serves, ExcludedReason;
    forall p
      ensures f in StepFindings(p, KeysOf(process), registry) <==> Complains(f, p, process, registry)
      ensures ExcludedReason(p, scope) == "" <==> Serves(p, scope)
    {
      ComplaintMeans(f, p, process, registry);
      ServesMeans(p, scope);
    }
  }

  /** Nothing is wrong with the step. */
  ghost predicate Plannable(p: ProcessStep, process: seq<ProcessStep>, registry: Registry) {
    registry.actionName(p.actionType).Some? && registry.inputError(p.actionType, p.bindings).None? && Answerable(p.condition, process)
  }

  lemma PlannableMeans(p: ProcessStep, process: seq<ProcessStep>, registry: Registry)
    ensures (exists f :: Complains(f, p, process, registry)) <==> !Plannable(p, process, registry)
  {
    hide Answerable;
    if registry.actionName(p.actionType).None? {
      assert Complains(Finding(Blocker, "unknown_action_type", "steps." + p.key + ".actionType", p.actionType), p, process, registry);
    } else if registry.inputError(p.actionType, p.bindings).Some? {
      var why := registry.inputError(p.actionType, p.bindings).value;
      assert Complains(Finding(Blocker, "invalid_action_input", "steps." + p.key + ".inputBindings", why), p, process, registry);
    } else if !Answerable(p.condition, process) {
      assert Complains(Finding(Blocker, "invalid_step_condition", "steps." + p.key + ".condition", "condition is invalid"),
                       p, process, registry);
    }
  }

  /** A process raises no blocker exactly when nothing is wrong with any step and, if there are steps, one serves. */
  lemma ProcessRunnable(process: seq<ProcessStep>, scope: Scope, registry: Registry)
    ensures (forall f :: f in ProcessFindings(process, scope, registry) ==> f.severity != Blocker) <==>
              && (forall p :: p in process ==> Plannable(p, process, registry))
              && (process != [] ==> exists p :: p in process && Serves(p, scope))
  {
    forall f
      ensures f in ProcessFindings(process, scope, registry) <==>
                (exists p :: p in process && Complains(f, p, process, registry))
                || (f == NO_STEP && process != [] && forall p :: p in process ==> !Serves(p, scope))
      ensures (exists p :: p in process && Complains(f, p, process, registry)) ==> f.severity == Blocker
    {
      FindingsMean(process, scope, registry, f);
    }
    forall p
      ensures (exists f :: Complains(f, p, process, registry)) <==> !Plannable(p, process, registry)
    {
      PlannableMeans(p, process, registry);
    }
    hide ProcessFindings, Complains, Serves, Plannable;
    if p :| p in process && !Plannable(p, process, registry) {
      var f :| Complains(f, p, process, registry);
      assert f in ProcessFindings(process, scope, registry);
    }
    if process != [] && forall p :: p in process ==> !Serves(p, scope) {
      assert NO_STEP in ProcessFindings(process, scope, registry);
    }
  }

  // ---------------------------------------------------------------- variables

  lemma {:induction false} VariableFindingsMean(variables: seq<Variable>, n: nat, f: Finding)
    requires n <= |variables|
    ensures f in VariableFindings(variables, n) <==>
              exists v :: v in variables[..n] && v.required && !v.resolved
                          && f == Finding(Blocker, "required_variable_unresolved", "variables." + v.key,
                                          "required variable is unresolved")
  {
    if n > 0 {
      VariableFindingsMean(variables, n - 1, f);
      assert variables[..n] == variables[..n - 1] + [variables[n - 1]];
    }
  }

  lemma VariablesRunnable(values: seq<Variable>)
    ensures var sorted := StableSort(values, VariableLess);
            (forall f :: f in VariableFindings(sorted, |sorted|) ==> f.severity != Blocker)
            <==> forall v :: v in values && v.required ==> v.resolved
  {
    var sorted := StableSort(values, VariableLess);
    StableSortPermutes(values, VariableLess);
    SameMembers(sorted, values);
    hide StableSort;
    SortedRunnable(sorted);
    hide VariableFindings;
  }

  lemma SortedRunnable(sorted: seq<Variable>)
    ensures (forall f :: f in VariableFindings(sorted, |sorted|) ==> f.severity != Blocker)
            <==> forall v :: v in sorted && v.required ==> v.resolved
  {
    assert sorted[..|sorted|] == sorted;
    forall f | f in VariableFindings(sorted, |sorted|)
      ensures exists v :: v in sorted && v.required && !v.resolved
    {
      VariableFindingsMean(sorted, |sorted|, f);
    }
    forall v | v in sorted && v.required && !v.resolved
      ensures UnresolvedFinding(v) in VariableFindings(sorted, |sorted|)
    {
      VariableFindingsMean(sorted, |sorted|, UnresolvedFinding(v));
    }
    forall f | f in VariableFindings(sorted, |sorted|)
      ensures f.severity == Blocker
    {
      VariableFindingsMean(sorted, |sorted|, f);
    }
    hide VariableFindings;
  }

  // ---------------------------------------------------------------- components

  /** The last of the contract's components with this name. */
  ghost predicate LastNamed(components: seq<ContractComponent>, j: int, name: string) {
    0 <= j < |components| && components[j].name == name && forall l :: j < l < |components| ==> components[l].name != name
  }

  lemma {:induction false} ByNameMeans(components: seq<ContractComponent>, name: string)
    ensures name in ByName(components) <==> exists j :: LastNamed(components, j, name)
    ensures forall j :: LastNamed(components, j, name) ==>
              0 <= j < |components| && name in ByName(components) && ByName(components)[name] == components[j]
  {
    if components != [] {
      var front, last := components[..|components| - 1], components[|components| - 1];
      ByNameMeans(front, name);
      if last.name == name {
        assert LastNamed(components, |components| - 1, name);
      } else {
        forall j
          ensures LastNamed(components, j, name) <==> LastNamed(front, j, name)
        {
        }
      }
    }
  }

  /** One row: a target, the place of an affected name, the contract's component of that name and the state the target
      is expected in. */
  ghost predicate RowOf(c: Component, t: Target, contract: Contract, states: States, i: int) {
    && 0 <= i < |contract.affected| && c.planTarget == t.id && c.deploymentTarget == t.deploymentTarget
    && c.name == contract.affected[i] && c.sortOrder == (i + 1) * 10
    && (exists j :: LastNamed(contract.components, j, c.name) && contract.components[j].details == c.details)
    && (c.expected.Some? <==> (t.deploymentTarget, c.name) in states)
    && (c.expected.Some? ==> c.expected.value == states[(t.deploymentTarget, c.name)])
  }

  lemma RowMeans(c: Component, t: Target, contract: Contract, states: States, i: nat)
    requires i < |contract.affected|
    ensures RowOf(c, t, contract, states, i) <==>
              contract.affected[i] in ByName(contract.components)
              && c == Snapshot(t, ByName(contract.components)[contract.affected[i]], i, states)
  {
    var name := contract.affected[i];
    ByNameMeans(contract.components, name);
    NamedSo(contract.components, name);
    hide ByName, LastNamed;
    if name in ByName(contract.components) {
      var j :| LastNamed(contract.components, j, name);
      assert ByName(contract.components)[name] == contract.components[j];
    }
  }

  lemma {:induction false} NamedSo(components: seq<ContractComponent>, name: string)
    ensures name in ByName(components) ==> ByName(components)[name].name == name
  {
    if components != [] { NamedSo(components[..|components| - 1], name); }
  }

  lemma {:induction false} TargetRowsMean(t: Target, contract: Contract, states: States, n: nat, c: Component)
    requires n <= |contract.affected|
    ensures c in TargetRows(t, contract, states, n) <==> exists i :: 0 <= i < n && RowOf(c, t, contract, states, i)
  {
    if n > 0 {
      TargetRowsMean(t, contract, states, n - 1, c);
      RowMeans(c, t, contract, states, n - 1);
      hide RowOf, ByName, Snapshot;
    }
  }

  lemma {:induction false} AllRowsMean(targets: seq<Target>, contract: Contract, states: States, n: nat, c: Component)
    requires n <= |targets|
    ensures c in AllRows(targets, contract, states, n) <==>
              exists t, i :: t in targets[..n] && RowOf(c, t, contract, states, i)
  {
    hide RowOf, TargetRows;
    if n > 0 {
      AllRowsMean(targets, contract, states, n - 1, c);
      TargetRowsMean(targets[n - 1], contract, states, |contract.affected|, c);
      RowInRange(targets[n - 1], contract, states, c);
      assert targets[..n] == targets[..n - 1] + [targets[n - 1]];
    }
  }

  lemma RowInRange(t: Target, contract: Contract, states: States, c: Component)
    ensures forall i :: RowOf(c, t, contract, states, i) ==> 0 <= i < |contract.affected|
  {
  }

  /** The component rows are, for each target, the contract's components of the affected names. */
  lemma ComponentsMean(targets: seq<Target>, contract: Option<Contract>, states: States, c: Component)
    ensures c in ComponentsOf(targets, contract, states) <==>
              contract.Some? && exists t, i :: t in targets && RowOf(c, t, contract.value, states, i)
  {
    hide RowOf, AllRows;
    if contract.Some? {
      AllRowsMean(targets, contract.value, states, |targets|, c);
      assert targets[..|targets|] == targets;
    }
  }
}

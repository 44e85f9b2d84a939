/** `decision_agent/agent_workflow/validation.py`: which planner output may be executed. */
module PlanValidation {
  import opened Texts

  const PLAN_VERSION := "m8b-v1"
  const INVENTORY_RISK_SKILL := "inventory-risk-diagnosis"

  datatype Objective = MixedInventoryDiagnosis

  datatype OutputType = MixedDiagnosis

  datatype Route = KnowledgeRoute | DataRoute | MixedRoute | UnsupportedRoute

  datatype PlanStep = PlanStep(
    stepId: string, sequence: int, skillName: string, objective: Objective, dependsOn: seq<string>,
    output: OutputType, optional: bool)

  datatype Plan = Plan(
    planId: string, version: string, objective: Objective, steps: seq<PlanStep>, maxRounds: int, maxSkillCalls: int)

  datatype Skill = Skill(name: string, route: Route, applicable: bool)

  datatype Limits = Limits(planSteps: int, rounds: int, skillCalls: int)

  datatype PlanError =
    | NotAPlan | VersionInvalid | ObjectiveInvalid | Empty | StepIdDuplicate | SequenceInvalid | OutputInvalid
    | DependencyInvalid | DependencyCycle | StepCountInvalid | BudgetInvalid | StepIdInvalid | SkillNotAllowed

  // ---------------------------------------------------------------- the step loop

  predicate DistinctSteps(plan: Plan)
  {
    forall i, j :: 0 <= i < j < |plan.steps| ==> plan.steps[i].stepId != plan.steps[j].stepId
  }

  predicate Sequenced(plan: Plan)
  {
    forall i :: 0 <= i < |plan.steps| ==> plan.steps[i].sequence == i + 1
  }

  predicate Known(plan: Plan, id: string)
  {
    exists i :: 0 <= i < |plan.steps| && plan.steps[i].stepId == id
  }

  /** `_sequence_for_step`: the sequence number of the first step with the identity. */
  function SequenceOf(steps: seq<PlanStep>, id: string): int
    requires exists i :: 0 <= i < |steps| && steps[i].stepId == id
  {
    if steps[0].stepId == id then steps[0].sequence
    else
      assert exists i :: 0 <= i < |steps[1..]| && steps[1..][i].stepId == id by {
        var i :| 0 <= i < |steps| && steps[i].stepId == id;
        assert steps[1..][i - 1] == steps[i];
      }
      SequenceOf(steps[1..], id)
  }

  /** The first check a step fails. */
  function StepError(plan: Plan, step: PlanStep): Option<PlanError>
  {
    if step.objective != plan.objective then Some(ObjectiveInvalid)
    else if step.output != MixedDiagnosis then Some(OutputInvalid)
    else if exists d :: d in step.dependsOn && !Known(plan, d) then Some(DependencyInvalid)
    else if exists d :: d in step.dependsOn && d == step.stepId then Some(DependencyCycle)
    else if exists d :: d in step.dependsOn && SequenceOf(plan.steps, d) >= step.sequence then Some(DependencyInvalid)
    else None
  }

  /** The loop over the first `n` steps stops at the first step that fails. */
  function StepsError(plan: Plan, n: nat): Option<PlanError>
    requires n <= |plan.steps|
  {
    if n == 0 then None
    else if StepsError(plan, n - 1).Some? then StepsError(plan, n - 1)
    else StepError(plan, plan.steps[n - 1])
  }

  /** `None` means the plan may be executed.  `reply` is `None` for output that is not a plan. */
  function Validate(reply: Option<Plan>, registry: map<string, Skill>, limits: Limits): Option<PlanError>
  {
    if reply.None? then Some(NotAPlan)
    else
      var plan := reply.value;
      if plan.version != PLAN_VERSION then Some(VersionInvalid)
      else if plan.objective != MixedInventoryDiagnosis then Some(ObjectiveInvalid)
      else if plan.steps == [] then Some(Empty)
      else if !DistinctSteps(plan) then Some(StepIdDuplicate)
      else if !Sequenced(plan) then Some(SequenceInvalid)
      else if StepsError(plan, |plan.steps|).Some? then StepsError(plan, |plan.steps|)
      else if |plan.steps| > limits.planSteps then Some(StepCountInvalid)
      else if |plan.steps| != 1 then Some(StepCountInvalid)
      else if plan.maxRounds > limits.rounds || plan.maxSkillCalls > limits.skillCalls then Some(BudgetInvalid)
      else
        var step := plan.steps[0];
        if step.stepId != Strip(step.stepId) then Some(StepIdInvalid)
        else if step.skillName != INVENTORY_RISK_SKILL then Some(SkillNotAllowed)
        else if step.optional || step.dependsOn != [] then Some(DependencyInvalid)
        else if step.skillName !in registry then Some(SkillNotAllowed)
        else if registry[step.skillName].route != MixedRoute then Some(SkillNotAllowed)
        else None
  }

  // ---------------------------------------------------------------- what passes the loop

  /** `a` depends on `b`. */
  predicate DependsOn(plan: Plan, a: string, b: string)
  {
    exists i :: 0 <= i < |plan.steps| && plan.steps[i].stepId == a && b in plan.steps[i].dependsOn
  }

  ghost predicate IsPath(plan: Plan, path: seq<string>)
  {
    |path| > 0 && forall k :: 0 < k < |path| ==> DependsOn(plan, path[k - 1], path[k])
  }

  lemma {:induction false} SequenceOfStep(steps: seq<PlanStep>, i: nat)
    requires forall i, j :: 0 <= i < j < |steps| ==> steps[i].stepId != steps[j].stepId
    requires i < |steps|
    ensures SequenceOf(steps, steps[i].stepId) == steps[i].sequence
  {
    if i > 0 {
      assert steps[1..][i - 1] == steps[i];
      SequenceOfStep(steps[1..], i - 1);
    }
  }

  lemma {:induction false} StepsErrorNone(plan: Plan, n: nat)
    requires n <= |plan.steps|
    ensures StepsError(plan, n).None? <==> forall i :: 0 <= i < n ==> StepError(plan, plan.steps[i]).None?
  {
    if n > 0 { StepsErrorNone(plan, n - 1); }
  }

  /** A plan of any length passes the step loop exactly when every dependency names an earlier step. */
  lemma {:induction false} LoopAcceptsEarlierDependencies(plan: Plan)
    requires DistinctSteps(plan) && Sequenced(plan)
    ensures StepsError(plan, |plan.steps|).None? <==>
              forall i :: 0 <= i < |plan.steps| ==> forall d :: d in plan.steps[i].dependsOn ==>
                exists j :: 0 <= j < i && plan.steps[j].stepId == d
  {
    StepsErrorNone(plan, |plan.steps|);
    forall i | 0 <= i < |plan.steps|
      ensures StepError(plan, plan.steps[i]).None? <==>
                forall d :: d in plan.steps[i].dependsOn ==> exists j :: 0 <= j < i && plan.steps[j].stepId == d
    {
      StepAcceptsEarlierDependencies(plan, i);
    }
  }

  lemma {:induction false} StepAcceptsEarlierDependencies(plan: Plan, i: nat)
    requires DistinctSteps(plan) && Sequenced(plan) && i < |plan.steps|
    ensures StepError(plan, plan.steps[i]).None? <==>
              forall d :: d in plan.steps[i].dependsOn ==> exists j :: 0 <= j < i && plan.steps[j].stepId == d
  {
    forall j | 0 <= j < |plan.steps| ensures SequenceOf(plan.steps, plan.steps[j].stepId) == j + 1 {
      SequenceOfStep(plan.steps, j);
    }
    if StepError(plan, plan.steps[i]).None? {
      forall d | d in plan.steps[i].dependsOn ensures exists j :: 0 <= j < i && plan.steps[j].stepId == d {
        assert Known(plan, d);
        var j :| 0 <= j < |plan.steps| && plan.steps[j].stepId == d;
        assert SequenceOf(plan.steps, d) < plan.steps[i].sequence;
      }
    }
  }

  lemma {:induction false} SequenceFalls(plan: Plan, a: string, b: string)
    requires DistinctSteps(plan) && StepsError(plan, |plan.steps|).None?
    requires DependsOn(plan, a, b)
    ensures Known(plan, a) && Known(plan, b)
    ensures SequenceOf(plan.steps, b) < SequenceOf(plan.steps, a)
  {
    StepsErrorNone(plan, |plan.steps|);
    var i :| 0 <= i < |plan.steps| && plan.steps[i].stepId == a && b in plan.steps[i].dependsOn;
    SequenceOfStep(plan.steps, i);
    assert StepError(plan, plan.steps[i]).None?;
  }

  /** A plan of any length that passes the step loop has acyclic dependencies: no path leads back. */
  lemma {:induction false} DependenciesAreAcyclic(plan: Plan, path: seq<string>)
    requires DistinctSteps(plan) && StepsError(plan, |plan.steps|).None?
    requires IsPath(plan, path) && |path| > 1
    ensures Known(plan, path[0]) && Known(plan, path[|path| - 1])
    ensures SequenceOf(plan.steps, path[|path| - 1]) < SequenceOf(plan.steps, path[0])
    ensures path[0] != path[|path| - 1]
  {
    var n := |path| - 1;
    assert DependsOn(plan, path[n - 1], path[n]);
    SequenceFalls(plan, path[n - 1], path[n]);
    if n > 1 {
      DependenciesAreAcyclic(plan, path[..n]);
    }
  }

  /** The validator admits exactly the one-step plans for the inventory skill. */
  lemma {:induction false} OnlyOneStepPlansAreValid(reply: Option<Plan>, registry: map<string, Skill>, limits: Limits)
    ensures Validate(reply, registry, limits).None? <==>
              && reply.Some? && reply.value.version == PLAN_VERSION
              && |reply.value.steps| == 1 <= limits.planSteps
              && reply.value.maxRounds <= limits.rounds && reply.value.maxSkillCalls <= limits.skillCalls
              && var step := reply.value.steps[0];
                 && step.sequence == 1 && step.stepId == Strip(step.stepId)
                 && step.skillName == INVENTORY_RISK_SKILL && !step.optional && step.dependsOn == []
                 && step.skillName in registry && registry[step.skillName].route == MixedRoute
  {
    if reply.Some? && |reply.value.steps| == 1 && reply.value.steps[0].dependsOn == [] {
      assert StepsError(reply.value, 0).None?;
      assert StepError(reply.value, reply.value.steps[0]).None?;
      assert StepsError(reply.value, 1).None?;
    }
  }

  // ---------------------------------------------------------------- why a plan is refused

  /** Every dependency of step `i` names an earlier step. */
  predicate DependsOnEarlier(plan: Plan, i: nat)
    requires i < |plan.steps|
  {
    forall d :: d in plan.steps[i].dependsOn ==> exists j :: 0 <= j < i && plan.steps[j].stepId == d
  }

  /** A step that depends on itself, and otherwise only on steps of the plan, is a cycle; any other is an
      invalid dependency. */
  predicate StepErrorIs(plan: Plan, i: nat, e: PlanError)
    requires i < |plan.steps|
  {
    var known := forall d :: d in plan.steps[i].dependsOn ==>
                   exists j :: 0 <= j < |plan.steps| && plan.steps[j].stepId == d;
    e == if known && plan.steps[i].stepId in plan.steps[i].dependsOn then DependencyCycle else DependencyInvalid
  }

  lemma {:induction false} StepErrorTells(plan: Plan, i: nat)
    requires DistinctSteps(plan) && Sequenced(plan) && i < |plan.steps|
    ensures StepError(plan, plan.steps[i]).None? <==> DependsOnEarlier(plan, i)
    ensures StepError(plan, plan.steps[i]).Some? ==> StepErrorIs(plan, i, StepError(plan, plan.steps[i]).value)
  {
    StepAcceptsEarlierDependencies(plan, i);
  }

  /** The step loop stops at the first step with a dependency that is no earlier step. */
  lemma {:induction false} LoopStopsAtFirstBadStep(plan: Plan, n: nat)
    requires DistinctSteps(plan) && Sequenced(plan) && n <= |plan.steps|
    ensures StepsError(plan, n).None? <==> forall i :: 0 <= i < n ==> DependsOnEarlier(plan, i)
    ensures StepsError(plan, n).Some? ==>
              exists i :: 0 <= i < n && !DependsOnEarlier(plan, i) && StepErrorIs(plan, i, StepsError(plan, n).value)
                          && forall k :: 0 <= k < i ==> DependsOnEarlier(plan, k)
  {
    hide DependsOnEarlier, StepError, StepErrorIs, DistinctSteps, Sequenced;
    if n > 0 {
      LoopStopsAtFirstBadStep(plan, n - 1);
      StepErrorTells(plan, n - 1);
    }
  }

  /** Each refusal of the validator, told by the plan. */
  lemma {:induction false} RefusalsExplained(reply: Option<Plan>, registry: map<string, Skill>, limits: Limits)
    ensures Validate(reply, registry, limits) == Some(NotAPlan) <==> reply.None?
    ensures reply.Some? ==>
              var e, plan := Validate(reply, registry, limits), reply.value;
              var listed := plan.version == "m8b-v1" && plan.steps != [];
              var numbered := listed && DistinctSteps(plan) && Sequenced(plan);
              var looped := numbered && forall i :: 0 <= i < |plan.steps| ==> DependsOnEarlier(plan, i);
              var single := looped && |plan.steps| == 1 <= limits.planSteps;
              var cheap := single && plan.maxRounds <= limits.rounds && plan.maxSkillCalls <= limits.skillCalls;
              && (e == Some(VersionInvalid) <==> plan.version != "m8b-v1")
              && (e == Some(Empty) <==> plan.version == "m8b-v1" && plan.steps == [])
              && (e == Some(StepIdDuplicate) <==> listed && !DistinctSteps(plan))
              && (e == Some(SequenceInvalid) <==> listed && DistinctSteps(plan) && !Sequenced(plan))
              && (e == Some(StepCountInvalid) <==> looped && !single)
              && (e == Some(BudgetInvalid) <==> single && !cheap)
              && (e == Some(StepIdInvalid) <==> cheap && plan.steps[0].stepId != Strip(plan.steps[0].stepId))
              && (numbered && !looped ==> e == StepsError(plan, |plan.steps|))
    ensures reply.Some? && |reply.value.steps| == 1 && Validate(reply, registry, limits) == Some(SkillNotAllowed) ==>
              var id, step := "inventory-risk-diagnosis", reply.value.steps[0];
              step.skillName != id || id !in registry || registry[id].route != MixedRoute
  {
    if reply.Some? && DistinctSteps(reply.value) && Sequenced(reply.value) {
      LoopStopsAtFirstBadStep(reply.value, |reply.value.steps|);
    }
  }
}

/** `decision_agent/agent_workflow/`: `workflow.py`, `executor.py` and the budget of `models.py`.  The
    planner, the skill and the reviewer may answer anything, raise, or be cancelled. */
module AgentWorkflow {
  import opened Texts
  import opened PlanValidation

  // ---------------------------------------------------------------- what the outside may answer

  datatype PlanReply =
    | PlannerRaises | PlannerProviderRaises(code: string) | PlannerCancelled | PlannerAnswers(plan: Option<Plan>)

  datatype SkillResult = SkillResult(completed: bool, skillName: string, route: Route, payload: int, errorCode: string)

  /** `result` is `None` for an answer that is not a skill result. */
  datatype SkillReply = SkillRaises | SkillCancelled | SkillAnswers(result: Option<SkillResult>, memory: bool)

  datatype ReviewOutcome = Accept | Repair | Unanswerable | FailClosed

  datatype FinalStatus = StatusAccepted | StatusRepair | StatusUnanswerable | StatusFailed

  datatype Decision = Decision(
    outcome: ReviewOutcome, acceptedStepId: Option<string>, repairTarget: Option<string>, finalStatus: FinalStatus)

  /** `decision` is `None` for an answer that is not a reviewer decision. */
  datatype ReviewReply =
    | ReviewerRaises | ReviewerProviderRaises(code: string) | ReviewerCancelled
    | ReviewerAnswers(decision: Option<Decision>)

  // ---------------------------------------------------------------- what a run records

  datatype ErrorCode =
    | ProviderCode(code: string) | PlannerFailed | PlanRejected(error: PlanError)
    | RoundBudgetExhausted | SkillBudgetExhausted | ReviewerBudgetExhausted | RepairBudgetExhausted
    | SkillRefused | SkillExecutionFailed | SkillResultInvalid | BusinessCode(code: string)
    | ReviewerFailed | ReviewerInvalid | ReviewerFailClosed | RepairNotPermitted | WorkflowUnanswerable

  predicate IsExhausted(e: ErrorCode)
  {
    e == RoundBudgetExhausted || e == SkillBudgetExhausted || e == ReviewerBudgetExhausted || e == RepairBudgetExhausted
  }

  datatype StepStatus = StepCompleted | BusinessFailed | TechnicalFailed

  datatype StepResult = StepResult(
    stepId: string, skillName: string, status: StepStatus, skillResult: Option<SkillResult>, error: Option<ErrorCode>,
    round: int, memory: bool)

  datatype Status = Accepted | NotAnswerable | Failed

  datatype WorkflowResult = WorkflowResult(
    status: Status, accepted: Option<SkillResult>, error: Option<ErrorCode>, steps: seq<StepResult>, memory: bool)

  predicate AnyMemory(steps: seq<StepResult>) { exists i :: 0 <= i < |steps| && steps[i].memory }

  function FailedWith(e: ErrorCode, steps: seq<StepResult>): WorkflowResult
  {
    WorkflowResult(Failed, None, Some(e), steps, AnyMemory(steps))
  }

  function AcceptedWith(result: SkillResult, steps: seq<StepResult>): WorkflowResult
  {
    WorkflowResult(Accepted, Some(result), None, steps, AnyMemory(steps))
  }

  function UnanswerableWith(steps: seq<StepResult>): WorkflowResult
  {
    WorkflowResult(NotAnswerable, None, Some(WorkflowUnanswerable), steps, AnyMemory(steps))
  }

  // ---------------------------------------------------------------- the budget

  const MAX_PLAN_STEPS: nat := 1
  const MAX_ROUNDS: nat := 2
  const MAX_SKILL_CALLS: nat := 2
  const MAX_REPAIRS: nat := 1
  const MAX_REVIEWS: nat := 2

  datatype Counters = Counters(rounds: nat, skillCalls: nat, repairs: nat, reviews: nat) {
    /** What holds between any two steps of a run. */
    predicate Balanced()
    {
      && reviews <= skillCalls == rounds <= repairs + 1
      && rounds <= MAX_ROUNDS && skillCalls <= MAX_SKILL_CALLS && repairs <= MAX_REPAIRS && reviews <= MAX_REVIEWS
    }
  }

  class ExecutionBudget {
    var executionRounds: nat
    var skillCalls: nat
    var repairAttempts: nat
    var reviewerCalls: nat

    function Count(): Counters
      reads this
    {
      Counters(executionRounds, skillCalls, repairAttempts, reviewerCalls)
    }

    constructor ()
      ensures Count() == Counters(0, 0, 0, 0)
    {
      executionRounds, skillCalls, repairAttempts, reviewerCalls := 0, 0, 0, 0;
    }

    method ReserveExecutionRound() returns (ok: bool)
      modifies this
      ensures ok <==> old(executionRounds) < MAX_ROUNDS
      ensures Count() == if ok then old(Count()).(rounds := old(executionRounds) + 1) else old(Count())
    {
      if executionRounds >= MAX_ROUNDS { return false; }
      executionRounds := executionRounds + 1;
      return true;
    }

    method ReserveSkillCall() returns (ok: bool)
      modifies this
      ensures ok <==> old(skillCalls) < MAX_SKILL_CALLS
      ensures Count() == if ok then old(Count()).(skillCalls := old(skillCalls) + 1) else old(Count())
    {
      if skillCalls >= MAX_SKILL_CALLS { return false; }
      skillCalls := skillCalls + 1;
      return true;
    }

    method ReserveRepairAttempt() returns (ok: bool)
      modifies this
      ensures ok <==> old(repairAttempts) < MAX_REPAIRS
      ensures Count() == if ok then old(Count()).(repairs := old(repairAttempts) + 1) else old(Count())
    {
      if repairAttempts >= MAX_REPAIRS { return false; }
      repairAttempts := repairAttempts + 1;
      return true;
    }

    method ReserveReviewerCall() returns (ok: bool)
      modifies this
      ensures ok <==> old(reviewerCalls) < MAX_REVIEWS
      ensures Count() == if ok then old(Count()).(reviews := old(reviewerCalls) + 1) else old(Count())
    {
      if reviewerCalls >= MAX_REVIEWS { return false; }
      reviewerCalls := reviewerCalls + 1;
      return true;
    }
  }

  /** The skill and the reviewer, answering call by call, and a record of the run: the steps that were
      executed, the reviews that were obtained, and the counters between steps. */
  class Outside {
    const skill: nat -> SkillReply
    const reviewer: nat -> ReviewReply
    var skillCount: nat
    var reviewCount: nat
    ghost var executed: seq<StepResult>
    ghost var reviews: seq<ReviewReply>
    ghost var boundaries: seq<Counters>

    constructor (skill: nat -> SkillReply, reviewer: nat -> ReviewReply)
      ensures this.skill == skill && this.reviewer == reviewer
      ensures skillCount == reviewCount == 0 && executed == [] && reviews == [] && boundaries == []
    {
      this.skill, this.reviewer := skill, reviewer;
      skillCount, reviewCount := 0, 0;
      executed, reviews, boundaries := [], [], [];
    }

    method CallSkill() returns (r: SkillReply)
      modifies this`skillCount
      ensures r == skill(old(skillCount)) && skillCount == old(skillCount) + 1
    {
      r := skill(skillCount);
      skillCount := skillCount + 1;
    }

    method CallReviewer() returns (r: ReviewReply)
      modifies this`reviewCount
      ensures r == reviewer(old(reviewCount)) && reviewCount == old(reviewCount) + 1
    {
      r := reviewer(reviewCount);
      reviewCount := reviewCount + 1;
    }
  }

  // ---------------------------------------------------------------- reading a decision

  predicate WellFormedAccept(d: Decision)
  {
    d.outcome == Accept && d.finalStatus == StatusAccepted && d.acceptedStepId.Some? && d.repairTarget.None?
  }

  predicate WellFormedUnanswerable(d: Decision)
  {
    d.outcome == Unanswerable && d.finalStatus == StatusUnanswerable && d.acceptedStepId.None? && d.repairTarget.None?
  }

  /** Can the decision accept this step? */
  predicate Names(d: Decision, step: StepResult)
  {
    d.acceptedStepId == Some(step.stepId) && step.status == StepCompleted && step.skillResult.Some?
  }

  /** The result that a decision accepts: that of the latest completed step it names. */
  function AcceptResult(d: Decision, steps: seq<StepResult>): Option<SkillResult>
  {
    if !WellFormedAccept(d) then None else LatestNamed(d, steps)
  }

  function LatestNamed(d: Decision, steps: seq<StepResult>): Option<SkillResult>
  {
    if steps == [] then None
    else if Names(d, steps[|steps| - 1]) then steps[|steps| - 1].skillResult
    else LatestNamed(d, steps[..|steps| - 1])
  }

  lemma {:induction false} LatestNamedIsLatest(d: Decision, steps: seq<StepResult>)
    ensures LatestNamed(d, steps).None? <==> forall i :: 0 <= i < |steps| ==> !Names(d, steps[i])
    ensures LatestNamed(d, steps).Some? ==>
              exists i :: 0 <= i < |steps| && Names(d, steps[i]) && steps[i].skillResult == LatestNamed(d, steps)
                          && forall j :: i < j < |steps| ==> !Names(d, steps[j])
  {
    if steps != [] {
      var n := |steps| - 1;
      LatestNamedIsLatest(d, steps[..n]);
      if !Names(d, steps[n]) && LatestNamed(d, steps).Some? {
        var i :| 0 <= i < n && Names(d, steps[..n][i]) && steps[..n][i].skillResult == LatestNamed(d, steps[..n])
                 && forall j :: i < j < n ==> !Names(d, steps[..n][j]);
        forall j | i < j < |steps| ensures !Names(d, steps[j]) {
          if j < n { assert steps[..n][j] == steps[j]; }
        }
        assert steps[i] == steps[..n][i];
      }
    }
  }

  predicate RepairIsAllowed(d: Decision, initial: StepResult, repairable: seq<string>, c: Counters)
  {
    && d.finalStatus == StatusRepair && d.acceptedStepId.None? && d.repairTarget == Some(initial.stepId)
    && initial.skillName in repairable
    && c.repairs < MAX_REPAIRS && c.rounds < MAX_ROUNDS && c.skillCalls < MAX_SKILL_CALLS && c.reviews < MAX_REVIEWS
  }

  /** The part of the repair test that does not read the budget. */
  predicate AsksForRepair(d: Decision, initial: StepResult, repairable: seq<string>)
  {
    && d.outcome == Repair && d.finalStatus == StatusRepair && d.acceptedStepId.None?
    && d.repairTarget == Some(initial.stepId) && initial.skillName in repairable
  }

  // ---------------------------------------------------------------- the executor

  /** Does the step name the one allowed skill, and is that skill registered and applicable? */
  predicate Callable(step: PlanStep, registry: map<string, Skill>)
  {
    && step.skillName == INVENTORY_RISK_SKILL && step.skillName in registry
    && registry[step.skillName].name == INVENTORY_RISK_SKILL && registry[step.skillName].applicable
  }

  /** May the executor call the skill for this step, given the rounds and calls already reserved? */
  predicate MayCall(step: PlanStep, registry: map<string, Skill>, rounds: nat, calls: nat)
  {
    rounds < MAX_ROUNDS && calls < MAX_SKILL_CALLS && Callable(step, registry)
  }

  function Technical(step: PlanStep, e: ErrorCode, round: nat): StepResult
  {
    StepResult(step.stepId, step.skillName, TechnicalFailed, None, Some(e), Max(1, round), false)
  }

  /** The step result that a skill reply leads to, given the rounds and calls already reserved. */
  function StepFor(
    step: PlanStep, registry: map<string, Skill>, route: Route, reply: SkillReply, rounds: nat, calls: nat): StepResult
  {
    if rounds >= MAX_ROUNDS then Technical(step, RoundBudgetExhausted, rounds)
    else if calls >= MAX_SKILL_CALLS then Technical(step, SkillBudgetExhausted, rounds + 1)
    else if !MayCall(step, registry, rounds, calls) then Technical(step, SkillRefused, rounds + 1)
    else
      match reply
      case SkillRaises => Technical(step, SkillExecutionFailed, rounds + 1)
      case SkillCancelled => Technical(step, SkillExecutionFailed, rounds + 1)
      case SkillAnswers(None, _) => Technical(step, SkillResultInvalid, rounds + 1)
      case SkillAnswers(Some(r), memory) =>
        if r.skillName != INVENTORY_RISK_SKILL || r.route != route then Technical(step, SkillResultInvalid, rounds + 1)
        else if !r.completed then
          StepResult(step.stepId, step.skillName, BusinessFailed, Some(r), Some(BusinessCode(r.errorCode)),
                     rounds + 1, memory)
        else StepResult(step.stepId, step.skillName, StepCompleted, Some(r), None, rounds + 1, memory)
  }

  /** What a step says of the reply to its call.  Its skill must be the allowed one, registered under its name
      and applicable; then the step is completed, or a business failure, exactly for a completed, or a failed,
      result of that skill for the route, which it holds; anything else is a technical failure with its own
      error. */
  ghost predicate Tells(s: StepResult, step: PlanStep, registry: map<string, Skill>, route: Route, reply: SkillReply)
  {
    var id := INVENTORY_RISK_SKILL;
    var called := step.skillName == id && id in registry && registry[id].name == id && registry[id].applicable;
    var answered := called && reply.SkillAnswers? && reply.result.Some?;
    var sound := answered && reply.result.value.skillName == id && reply.result.value.route == route;
    && (s.status == StepCompleted <==> sound && reply.result.value.completed)
    && (s.status == BusinessFailed <==> sound && !reply.result.value.completed)
    && (sound ==> s.skillResult == reply.result && s.memory == reply.memory)
    && (s.error.None? <==> s.status == StepCompleted)
    && (s.status == BusinessFailed ==> s.error == Some(BusinessCode(reply.result.value.errorCode)))
    && (s.status == TechnicalFailed ==>
          && s.skillResult == None && !s.memory
          && (s.error == Some(SkillRefused) <==> !called)
          && (s.error == Some(SkillExecutionFailed) <==> called && !reply.SkillAnswers?)
          && (s.error == Some(SkillResultInvalid) <==> called && reply.SkillAnswers?))
  }

  /** Which budget was used up; otherwise the step says what came of its call. */
  lemma {:induction false} StepTellsReply(
    step: PlanStep, registry: map<string, Skill>, route: Route, reply: SkillReply, rounds: nat, calls: nat)
    ensures var s := StepFor(step, registry, route, reply, rounds, calls);
            && s.stepId == step.stepId && s.skillName == step.skillName
            && (s.error == Some(RoundBudgetExhausted) <==> rounds >= MAX_ROUNDS)
            && (s.error == Some(SkillBudgetExhausted) <==> rounds < MAX_ROUNDS && calls >= MAX_SKILL_CALLS)
            && (rounds < MAX_ROUNDS ==> s.round == rounds + 1)
            && (rounds < MAX_ROUNDS && calls < MAX_SKILL_CALLS ==> Tells(s, step, registry, route, reply))
  {
  }

  /** The counters after a step has reserved what it can. */
  function Reserved(c: Counters): Counters
  {
    if c.rounds >= MAX_ROUNDS then c
    else if c.skillCalls >= MAX_SKILL_CALLS then c.(rounds := c.rounds + 1)
    else c.(rounds := c.rounds + 1, skillCalls := c.skillCalls + 1)
  }

  /** Reserve capacity, then call the single allowed skill at most once.  `None` means cancelled. */
  method Execute(plan: Plan, route: Route, registry: map<string, Skill>, budget: ExecutionBudget, outside: Outside)
    returns (r: Option<StepResult>)
    requires plan.steps != []
    modifies budget, outside`skillCount
    ensures budget.Count() == Reserved(old(budget.Count()))
    ensures var called := MayCall(plan.steps[0], registry, old(budget.executionRounds), old(budget.skillCalls));
            var reply := outside.skill(old(outside.skillCount));
            && outside.skillCount == old(outside.skillCount) + (if called then 1 else 0)
            && (r.None? <==> called && reply.SkillCancelled?)
            && (r.Some? ==> r.value == StepFor(plan.steps[0], registry, route, reply,
                                               old(budget.executionRounds), old(budget.skillCalls)))
    ensures r.Some? ==>
              var rounds, calls := old(budget.executionRounds), old(budget.skillCalls);
              && r.value.stepId == plan.steps[0].stepId
              && (r.value.error == Some(RoundBudgetExhausted) <==> rounds >= MAX_ROUNDS)
              && (r.value.error == Some(SkillBudgetExhausted) <==> rounds < MAX_ROUNDS && calls >= MAX_SKILL_CALLS)
              && (rounds < MAX_ROUNDS && calls < MAX_SKILL_CALLS ==>
                    Tells(r.value, plan.steps[0], registry, route, outside.skill(old(outside.skillCount))))
  {
    var step := plan.steps[0];
    StepTellsReply(step, registry, route, outside.skill(outside.skillCount), budget.executionRounds, budget.skillCalls);
    var reserved := budget.ReserveExecutionRound();
    if !reserved {
      return Some(Technical(step, RoundBudgetExhausted, budget.executionRounds));
    }
    reserved := budget.ReserveSkillCall();
    if !reserved {
      return Some(Technical(step, SkillBudgetExhausted, budget.executionRounds));
    }
    if step.skillName != INVENTORY_RISK_SKILL || step.skillName !in registry {
      return Some(Technical(step, SkillRefused, budget.executionRounds));
    }
    var skill := registry[step.skillName];
    if skill.name != INVENTORY_RISK_SKILL || !skill.applicable {
      return Some(Technical(step, SkillRefused, budget.executionRounds));
    }
    var reply := outside.CallSkill();
    match reply {
      case SkillRaises => return Some(Technical(step, SkillExecutionFailed, budget.executionRounds));
      case SkillCancelled => return None;
      case SkillAnswers(None, _) => return Some(Technical(step, SkillResultInvalid, budget.executionRounds));
      case SkillAnswers(Some(result), memory) =>
        if result.skillName != skill.name || result.route != route {
          return Some(Technical(step, SkillResultInvalid, budget.executionRounds));
        }
        if !result.completed {
          return Some(StepResult(step.stepId, step.skillName, BusinessFailed, Some(result),
                                 Some(BusinessCode(result.errorCode)), budget.executionRounds, memory));
        }
        return Some(StepResult(step.stepId, step.skillName, StepCompleted, Some(result), None,
                               budget.executionRounds, memory));
    }
  }

  // ---------------------------------------------------------------- the reviewer

  datatype Reviewed = ReviewCancelled | Ends(result: WorkflowResult) | Decides(decision: Decision)

  /** Obtain one review if the budget allows it. */
  method Review(steps: seq<StepResult>, budget: ExecutionBudget, outside: Outside) returns (r: Reviewed)
    modifies budget, outside`reviewCount, outside`reviews
    ensures old(budget.reviewerCalls) >= MAX_REVIEWS ==>
              && budget.Count() == old(budget.Count())
              && outside.reviewCount == old(outside.reviewCount) && outside.reviews == old(outside.reviews)
              && r == Ends(FailedWith(ReviewerBudgetExhausted, steps))
    ensures old(budget.reviewerCalls) < MAX_REVIEWS ==>
              var reply := outside.reviewer(old(outside.reviewCount));
              && budget.Count() == old(budget.Count()).(reviews := old(budget.reviewerCalls) + 1)
              && outside.reviewCount == old(outside.reviewCount) + 1
              && outside.reviews == old(outside.reviews) + [reply]
              && (r.ReviewCancelled? <==> reply.ReviewerCancelled?)
              && (r.Decides? <==> reply.ReviewerAnswers? && reply.decision.Some?)
              && (r.Decides? ==> r.decision == reply.decision.value)
              && (r.Ends? ==> r.result == ReviewVerdict(reply, steps))
  {
    var reserved := budget.ReserveReviewerCall();
    if !reserved {
      return Ends(FailedWith(ReviewerBudgetExhausted, steps));
    }
    var reply := outside.CallReviewer();
    outside.reviews := outside.reviews + [reply];
    match reply {
      case ReviewerRaises => return Ends(FailedWith(ReviewerFailed, steps));
      case ReviewerProviderRaises(code) => return Ends(FailedWith(ProviderCode(code), steps));
      case ReviewerCancelled => return ReviewCancelled;
      case ReviewerAnswers(None) => return Ends(FailedWith(ReviewerInvalid, steps));
      case ReviewerAnswers(Some(d)) => return Decides(d);
    }
  }

  // ---------------------------------------------------------------- what a run leaves behind

  /** What a review ends the run with, given the steps so far. */
  function ReviewVerdict(reply: ReviewReply, steps: seq<StepResult>): WorkflowResult
  {
    match reply
    case ReviewerRaises => FailedWith(ReviewerFailed, steps)
    case ReviewerProviderRaises(code) => FailedWith(ProviderCode(code), steps)
    case ReviewerCancelled => FailedWith(ReviewerFailed, steps)
    case ReviewerAnswers(None) => FailedWith(ReviewerInvalid, steps)
    case ReviewerAnswers(Some(d)) =>
      if AcceptResult(d, steps).Some? then AcceptedWith(AcceptResult(d, steps).value, steps)
      else if WellFormedUnanswerable(d) then UnanswerableWith(steps)
      else if d.outcome == Repair then FailedWith(RepairNotPermitted, steps)
      else if d.outcome == FailClosed then FailedWith(ReviewerFailClosed, steps)
      else FailedWith(ReviewerInvalid, steps)
  }

  predicate FailedLast(executed: seq<StepResult>)
  {
    executed != [] && executed[|executed| - 1].status == TechnicalFailed
  }

  /** A run that executed something is decided by its last event alone: a technical failure of the last
      step, or else the last review. */
  function Verdict(executed: seq<StepResult>, reviews: seq<ReviewReply>): WorkflowResult
    requires executed != []
  {
    var last := executed[|executed| - 1];
    if FailedLast(executed) || reviews == [] then
      FailedWith(if last.error.Some? then last.error.value else SkillExecutionFailed, executed)
    else ReviewVerdict(reviews[|reviews| - 1], executed)
  }

  /** Does the review ask for a repair that the policy permits? */
  predicate Repairs(reply: ReviewReply, initial: StepResult, repairable: seq<string>)
  {
    reply.ReviewerAnswers? && reply.decision.Some? && AsksForRepair(reply.decision.value, initial, repairable)
  }

  /** Every executed round and every review is the reply of its own call, technical failures are never
      reviewed, and a second round follows only a review that asks for a permitted repair. */
  ghost predicate RunOf(
    step: PlanStep, registry: map<string, Skill>, route: Route, repairable: seq<string>,
    skill: nat -> SkillReply, reviewer: nat -> ReviewReply, executed: seq<StepResult>, reviews: seq<ReviewReply>)
  {
    && |reviews| <= |executed| <= 2 && |executed| <= |reviews| + 1
    && (forall i :: 0 <= i < |executed| ==> executed[i] == StepFor(step, registry, route, skill(i), i, i))
    && (forall i :: 0 <= i < |reviews| ==> reviews[i] == reviewer(i))
    && (forall i :: 0 <= i < |reviews| ==> executed[i].status != TechnicalFailed)
    && (|executed| == 2 ==> Repairs(reviews[0], executed[0], repairable))
  }

  /** The run stopped of its own accord: nothing was left to review and no permitted repair was left out. */
  predicate Finished(repairable: seq<string>, executed: seq<StepResult>, reviews: seq<ReviewReply>)
  {
    && executed != []
    && |reviews| == (if FailedLast(executed) then |executed| - 1 else |executed|)
    && (|executed| == 1 && |reviews| == 1 ==> !Repairs(reviews[0], executed[0], repairable))
  }

  // ---------------------------------------------------------------- the state machine

  /** How many rounds, repairs and reviews were reserved. */
  function Reservations(c: Counters): nat { c.rounds + c.repairs + c.reviews }

  /** The counters after `n` reservations: a round, its review, the repair, the second round and its
      review. */
  function Milestone(n: nat): Counters
  {
    if n == 0 then Counters(0, 0, 0, 0)
    else if n == 1 then Counters(1, 1, 0, 0)
    else if n == 2 then Counters(1, 1, 0, 1)
    else if n == 3 then Counters(1, 1, 1, 1)
    else if n == 4 then Counters(2, 2, 1, 1)
    else Counters(2, 2, 1, 2)
  }

  /** The counters have gone that way as far as `c`, and the record has an entry for the start and for
      each reservation. */
  ghost predicate OnTrack(boundaries: seq<Counters>, c: Counters)
  {
    exists n: nat :: n <= 5 && c == Milestone(n) && Records(boundaries, n)
  }

  predicate Records(boundaries: seq<Counters>, n: nat)
  {
    |boundaries| == n + 1 && forall i :: 0 <= i <= n ==> boundaries[i] == Milestone(i)
  }

  lemma {:induction false} Advance(boundaries: seq<Counters>, n: nat)
    requires Records(boundaries, n) && n < 5
    ensures Records(boundaries + [Milestone(n + 1)], n + 1)
    ensures OnTrack(boundaries + [Milestone(n + 1)], Milestone(n + 1))
  {
    assert Records(boundaries + [Milestone(n + 1)], n + 1);
  }

  lemma {:induction false} MilestoneIsBalanced(n: nat)
    requires n <= 5
    ensures Milestone(n).Balanced() && Reservations(Milestone(n)) == n
  {
  }

  lemma {:induction false} RecordsAreBalanced(boundaries: seq<Counters>, n: nat)
    requires n <= 5 && Records(boundaries, n)
    ensures |boundaries| == n + 1
    ensures forall i :: 0 <= i < |boundaries| ==> boundaries[i].Balanced() && Reservations(boundaries[i]) == i
  {
    hide Milestone, Reservations;
    forall i | 0 <= i < |boundaries| ensures boundaries[i].Balanced() && Reservations(boundaries[i]) == i {
      MilestoneIsBalanced(i);
    }
  }

  lemma {:induction false} MilestonesAreBalanced(boundaries: seq<Counters>, c: Counters)
    requires OnTrack(boundaries, c)
    ensures c.Balanced() && |boundaries| == Reservations(c) + 1
    ensures forall i :: 0 <= i < |boundaries| ==> boundaries[i].Balanced() && Reservations(boundaries[i]) == i
  {
    hide Milestone, Records, Reservations;
    var n: nat :| n <= 5 && c == Milestone(n) && Records(boundaries, n);
    MilestoneIsBalanced(n);
    RecordsAreBalanced(boundaries, n);
  }

  lemma {:induction false} AtStart(boundaries: seq<Counters>)
    requires boundaries == [] + [Milestone(0)]
    ensures Records(boundaries, 0) && OnTrack(boundaries, Milestone(0))
  {
    assert Records(boundaries, 0);
  }

  method Checkpoint(budget: ExecutionBudget, outside: Outside)
    modifies outside`boundaries
    ensures outside.boundaries == old(outside.boundaries) + [budget.Count()]
  {
    outside.boundaries := outside.boundaries + [budget.Count()];
  }

  /** `_execute_step`: run one round, and record it. */
  method RunStep(plan: Plan, route: Route, registry: map<string, Skill>, budget: ExecutionBudget, outside: Outside)
    returns (r: Option<StepResult>)
    requires plan.steps != []
    modifies budget, outside`skillCount, outside`executed, outside`boundaries
    ensures budget.Count() == Reserved(old(budget.Count()))
    ensures outside.boundaries == old(outside.boundaries) + [budget.Count()]
    ensures var called := MayCall(plan.steps[0], registry, old(budget.executionRounds), old(budget.skillCalls));
            var reply := outside.skill(old(outside.skillCount));
            && outside.skillCount == old(outside.skillCount) + (if called then 1 else 0)
            && (r.None? <==> called && reply.SkillCancelled?)
            && (r.None? ==> outside.executed == old(outside.executed))
            && (r.Some? ==> r.value == StepFor(plan.steps[0], registry, route, reply,
                                               old(budget.executionRounds), old(budget.skillCalls))
                            && outside.executed == old(outside.executed) + [r.value])
  {
    r := Execute(plan, route, registry, budget, outside);
    if r.Some? {
      outside.executed := outside.executed + [r.value];
    }
    Checkpoint(budget, outside);
  }

  /** What the first review ends the run with; `None` when it asks for a repair that is allowed. */
  method ConcludeFirst(
    d: Decision, first: StepResult, repairable: seq<string>, c: Counters) returns (r: Option<WorkflowResult>)
    requires c == Counters(1, 1, 0, 1)
    ensures r.None? <==> AsksForRepair(d, first, repairable)
    ensures r.Some? ==> r.value == ReviewVerdict(ReviewerAnswers(Some(d)), [first])
  {
    var accepted := AcceptResult(d, [first]);
    if accepted.Some? { return Some(AcceptedWith(accepted.value, [first])); }
    if WellFormedUnanswerable(d) { return Some(UnanswerableWith([first])); }
    if d.outcome == FailClosed { return Some(FailedWith(ReviewerFailClosed, [first])); }
    if d.outcome != Repair { return Some(FailedWith(ReviewerInvalid, [first])); }
    if !RepairIsAllowed(d, first, repairable, c) { return Some(FailedWith(RepairNotPermitted, [first])); }
    return None;
  }

  /** What the second review ends the run with. */
  method ConcludeSecond(d: Decision, steps: seq<StepResult>) returns (r: WorkflowResult)
    ensures r == ReviewVerdict(ReviewerAnswers(Some(d)), steps)
  {
    var accepted := AcceptResult(d, steps);
    if accepted.Some? { return AcceptedWith(accepted.value, steps); }
    if WellFormedUnanswerable(d) { return UnanswerableWith(steps); }
    if d.outcome == Repair { return FailedWith(RepairNotPermitted, steps); }
    if d.outcome == FailClosed { return FailedWith(ReviewerFailClosed, steps); }
    return FailedWith(ReviewerInvalid, steps);
  }

  /** The part of `_execute_core` from the second review on. */
  method ReviewSecond(
    plan: Plan, route: Route, registry: map<string, Skill>, repairable: seq<string>, steps: seq<StepResult>,
    budget: ExecutionBudget, outside: Outside)
    returns (r: Option<WorkflowResult>)
    requires plan.steps != []
    requires budget.Count() == Counters(2, 2, 1, 1) && Records(outside.boundaries, 4)
    requires Callable(plan.steps[0], registry) && outside.skillCount == 2 && outside.reviewCount == 1
    requires outside.executed == steps && |steps| == 2 && outside.reviews == [outside.reviewer(0)]
    requires RunOf(plan.steps[0], registry, route, repairable, outside.skill, outside.reviewer, steps, outside.reviews)
    requires steps[1].status != TechnicalFailed && !CancelledRun(outside.skill, outside.skillCount, outside.reviews)
    modifies budget, outside
    ensures OnTrack(outside.boundaries, budget.Count())
    ensures r.Some? ==> |outside.executed| == budget.executionRounds
    ensures outside.skillCount == (if Callable(plan.steps[0], registry) then budget.skillCalls else 0)
    ensures outside.reviewCount == budget.reviewerCalls == |outside.reviews|
    ensures RunOf(plan.steps[0], registry, route, repairable, outside.skill, outside.reviewer,
                  outside.executed, outside.reviews)
    ensures r.Some? ==> Finished(repairable, outside.executed, outside.reviews)
                        && r.value == Verdict(outside.executed, outside.reviews)
    ensures r.None? <==> CancelledRun(outside.skill, outside.skillCount, outside.reviews)
  {
    Advance(outside.boundaries, 4);
    var review := Review(steps, budget, outside);
    Checkpoint(budget, outside);
    SecondReview(plan.steps[0], registry, route, repairable, outside.skill, outside.reviewer, steps, outside.reviews);
    match review {
      case ReviewCancelled => return None;
      case Ends(result) => return Some(result);
      case Decides(d) =>
        var result := ConcludeSecond(d, steps);
        return Some(result);
    }
  }

  lemma {:induction false} SecondReview(
    step: PlanStep, registry: map<string, Skill>, route: Route, repairable: seq<string>,
    skill: nat -> SkillReply, reviewer: nat -> ReviewReply, executed: seq<StepResult>, reviews: seq<ReviewReply>)
    requires |executed| == 2 && reviews == [reviewer(0)] + [reviewer(1)]
    requires RunOf(step, registry, route, repairable, skill, reviewer, executed, [reviewer(0)])
    requires executed[1].status != TechnicalFailed
    ensures RunOf(step, registry, route, repairable, skill, reviewer, executed, reviews)
    ensures Finished(repairable, executed, reviews)
    ensures Verdict(executed, reviews) == ReviewVerdict(reviewer(1), executed)
  {
  }

  /** The part of `_execute_core` that follows the first review when a repair was reserved. */
  method ExecuteRepair(
    plan: Plan, route: Route, registry: map<string, Skill>, repairable: seq<string>, first: StepResult,
    budget: ExecutionBudget, outside: Outside)
    returns (r: Option<WorkflowResult>)
    requires plan.steps != []
    requires budget.Count() == Counters(1, 1, 1, 1) && Records(outside.boundaries, 3)
    requires outside.skillCount == outside.reviewCount == 1
    requires outside.executed == [first] && outside.reviews == [outside.reviewer(0)]
    requires first == StepFor(plan.steps[0], registry, route, outside.skill(0), 0, 0) && first.status != TechnicalFailed
    requires Repairs(outside.reviewer(0), first, repairable)
    modifies budget, outside
    ensures OnTrack(outside.boundaries, budget.Count())
    ensures r.Some? ==> |outside.executed| == budget.executionRounds
    ensures outside.skillCount == (if Callable(plan.steps[0], registry) then budget.skillCalls else 0)
    ensures outside.reviewCount == budget.reviewerCalls == |outside.reviews|
    ensures RunOf(plan.steps[0], registry, route, repairable, outside.skill, outside.reviewer,
                  outside.executed, outside.reviews)
    ensures r.Some? ==> Finished(repairable, outside.executed, outside.reviews)
                        && r.value == Verdict(outside.executed, outside.reviews)
    ensures r.None? <==> CancelledRun(outside.skill, outside.skillCount, outside.reviews)
  {
    Advance(outside.boundaries, 3);
    var repaired := RunStep(plan, route, registry, budget, outside);
    if repaired.None? { return None; }
    var steps := [first, repaired.value];
    assert outside.executed == steps;
    if repaired.value.status == TechnicalFailed {
      var error := if repaired.value.error.Some? then repaired.value.error.value else SkillExecutionFailed;
      return Some(FailedWith(error, steps));
    }
    r := ReviewSecond(plan, route, registry, repairable, steps, budget, outside);
  }

  /** The part of `_execute_core` from the first review on. */
  method ReviewFirst(
    plan: Plan, route: Route, registry: map<string, Skill>, repairable: seq<string>, first: StepResult,
    budget: ExecutionBudget, outside: Outside)
    returns (r: Option<WorkflowResult>)
    requires plan.steps != []
    requires budget.Count() == Counters(1, 1, 0, 0) && Records(outside.boundaries, 1)
    requires outside.skillCount == 1 && outside.reviewCount == 0
    requires outside.executed == [first] && outside.reviews == []
    requires first == StepFor(plan.steps[0], registry, route, outside.skill(0), 0, 0) && first.status != TechnicalFailed
    requires !outside.skill(0).SkillCancelled?
    modifies budget, outside
    ensures OnTrack(outside.boundaries, budget.Count())
    ensures r.Some? ==> |outside.executed| == budget.executionRounds
    ensures outside.skillCount == (if Callable(plan.steps[0], registry) then budget.skillCalls else 0)
    ensures outside.reviewCount == budget.reviewerCalls == |outside.reviews|
    ensures RunOf(plan.steps[0], registry, route, repairable, outside.skill, outside.reviewer,
                  outside.executed, outside.reviews)
    ensures r.Some? ==> Finished(repairable, outside.executed, outside.reviews)
                        && r.value == Verdict(outside.executed, outside.reviews)
    ensures r.None? <==> CancelledRun(outside.skill, outside.skillCount, outside.reviews)
  {
    hide RunOf, Finished, Verdict, OnTrack, Records, ReviewVerdict;
    var steps := [first];
    Advance(outside.boundaries, 1);
    var review := Review(steps, budget, outside);
    Checkpoint(budget, outside);
    FirstReview(plan.steps[0], registry, route, repairable, outside.skill, outside.reviewer, first, outside.reviews);
    match review {
      case ReviewCancelled => return None;
      case Ends(result) => return Some(result);
      case Decides(d) =>
        var result := ConcludeFirst(d, first, repairable, budget.Count());
        if result.Some? { return result; }
        Advance(outside.boundaries, 2);
        var reserved := budget.ReserveRepairAttempt();
        if !reserved { return Some(FailedWith(RepairBudgetExhausted, steps)); }
        Checkpoint(budget, outside);
        r := ExecuteRepair(plan, route, registry, repairable, first, budget, outside);
    }
  }

  lemma {:induction false} FirstReview(
    step: PlanStep, registry: map<string, Skill>, route: Route, repairable: seq<string>,
    skill: nat -> SkillReply, reviewer: nat -> ReviewReply, first: StepResult, reviews: seq<ReviewReply>)
    requires reviews == [] + [reviewer(0)]
    requires first == StepFor(step, registry, route, skill(0), 0, 0) && first.status != TechnicalFailed
    ensures reviews == [reviewer(0)]
    ensures RunOf(step, registry, route, repairable, skill, reviewer, [first], reviews)
    ensures !Repairs(reviewer(0), first, repairable) ==> Finished(repairable, [first], reviews)
    ensures Verdict([first], reviews) == ReviewVerdict(reviewer(0), [first])
  {
  }

  /** The part of `_execute_core` that follows a valid plan. */
  method ExecutePlan(
    plan: Plan, route: Route, registry: map<string, Skill>, repairable: seq<string>,
    budget: ExecutionBudget, outside: Outside)
    returns (r: Option<WorkflowResult>)
    requires plan.steps != []
    requires budget.Count() == Counters(0, 0, 0, 0)
    requires outside.skillCount == outside.reviewCount == 0
    requires outside.executed == [] && outside.reviews == [] && Records(outside.boundaries, 0)
    modifies budget, outside
    ensures OnTrack(outside.boundaries, budget.Count())
    ensures r.Some? ==> |outside.executed| == budget.executionRounds
    ensures outside.skillCount == (if Callable(plan.steps[0], registry) then budget.skillCalls else 0)
    ensures outside.reviewCount == budget.reviewerCalls == |outside.reviews|
    ensures RunOf(plan.steps[0], registry, route, repairable, outside.skill, outside.reviewer,
                  outside.executed, outside.reviews)
    ensures r.Some? ==> Finished(repairable, outside.executed, outside.reviews)
                        && r.value == Verdict(outside.executed, outside.reviews)
    ensures r.None? <==> CancelledRun(outside.skill, outside.skillCount, outside.reviews)
  {
    Advance(outside.boundaries, 0);
    var step := RunStep(plan, route, registry, budget, outside);
    if step.None? { return None; }
    var first := step.value;
    var steps := [first];
    assert outside.executed == steps;
    if first.status == TechnicalFailed {
      return Some(FailedWith(if first.error.Some? then first.error.value else SkillExecutionFailed, steps));
    }
    r := ReviewFirst(plan, route, registry, repairable, first, budget, outside);
  }

  /** Was the last call that the run made cancelled? */
  ghost predicate CancelledRun(skill: nat -> SkillReply, skillCount: nat, reviews: seq<ReviewReply>)
  {
    || (skillCount > 0 && skill(skillCount - 1).SkillCancelled?)
    || (reviews != [] && reviews[|reviews| - 1].ReviewerCancelled?)
  }

  /** Run planner, validator, executor and reviewer with at most one repair.  `None` means cancelled. */
  method ExecuteCore(
    planned: PlanReply, route: Route, registry: map<string, Skill>, repairable: seq<string>,
    budget: ExecutionBudget, outside: Outside)
    returns (r: Option<WorkflowResult>)
    requires budget.Count() == Counters(0, 0, 0, 0)
    requires outside.skillCount == outside.reviewCount == 0
    requires outside.executed == [] && outside.reviews == [] && outside.boundaries == []
    modifies budget, outside
    ensures OnTrack(outside.boundaries, budget.Count())
    ensures r.Some? ==> |outside.executed| == budget.executionRounds
    ensures budget.Count().Balanced() && |outside.boundaries| == Reservations(budget.Count()) + 1
    ensures forall i :: 0 <= i < |outside.boundaries| ==>
              outside.boundaries[i].Balanced() && Reservations(outside.boundaries[i]) == i
    ensures outside.skillCount <= budget.skillCalls && outside.reviewCount == budget.reviewerCalls == |outside.reviews|
    ensures r.Some? ==> r.value.steps == outside.executed
    ensures r.Some? && r.value.error.Some? ==> !IsExhausted(r.value.error.value)
    ensures r.Some? ==> (r.value.status == Accepted
              <==> AcceptedBy(outside.executed, outside.reviews, r.value.accepted))
    ensures PlanOf(planned, registry).None? ==>
              && outside.executed == [] && outside.skillCount == outside.reviewCount == 0
              && (r.None? <==> planned.PlannerCancelled?)
              && (r.Some? ==> r.value == FailedWith(Refusal(planned, registry), []))
    ensures planned.PlannerRaises? ==> r == Some(FailedWith(PlannerFailed, []))
    ensures planned.PlannerProviderRaises? ==> r == Some(FailedWith(ProviderCode(planned.code), []))
    ensures PlanOf(planned, registry).Some? ==>
              && RunOf(PlanOf(planned, registry).value, registry, route, repairable,
                       outside.skill, outside.reviewer, outside.executed, outside.reviews)
              && (r.None? <==> CancelledRun(outside.skill, outside.skillCount, outside.reviews))
              && (r.Some? ==> Finished(repairable, outside.executed, outside.reviews)
                              && r.value == Verdict(outside.executed, outside.reviews))
    ensures PlanOf(planned, registry).Some? ==>
              var step := PlanOf(planned, registry).value;
              && outside.skillCount == (if Callable(step, registry) then budget.skillCalls else 0)
              && forall i :: 0 <= i < |outside.executed| ==>
                   && outside.executed[i].stepId == step.stepId && outside.executed[i].round == i + 1
                   && Tells(outside.executed[i], step, registry, route, outside.skill(i))
    ensures r.Some? && r.value.accepted.Some? ==>
              exists i :: 0 <= i < outside.skillCount
                          && outside.skill(i).SkillAnswers? && outside.skill(i).result == r.value.accepted
                          && r.value.accepted.value.completed
                          && r.value.accepted.value.skillName == INVENTORY_RISK_SKILL
                          && r.value.accepted.value.route == route
  {
    hide OnTrack, Records, RunOf, CancelledRun, AcceptedBy, Validate, Tells, Callable, Finished, Verdict, StepFor;
    Checkpoint(budget, outside);
    AtStart(outside.boundaries);
    var plan, failure := ObtainPlan(planned, registry);
    if plan.None? {
      RefusalIsNotExhausted(planned, registry);
      MilestonesAreBalanced(outside.boundaries, budget.Count());
      return failure;
    }
    r := ExecutePlan(plan.value, route, registry, repairable, budget, outside);
    MilestonesAreBalanced(outside.boundaries, budget.Count());
    if r.Some? {
      NoBudgetIsExhausted(plan.value.steps[0], registry, route, repairable, outside.skill, outside.reviewer,
                          outside.executed, outside.reviews);
      AcceptedExactlyWhenNamed(repairable, outside.executed, outside.reviews);
      AcceptedWasAnswered(plan.value.steps[0], registry, route, repairable, outside.skill, outside.reviewer,
                          outside.executed, outside.reviews);
    }
    StepsTellReplies(plan.value.steps[0], registry, route, repairable, outside.skill, outside.reviewer,
                     outside.executed, outside.reviews);
  }

  /** Planning and validation: a plan to execute, or what the run ends with. */
  method ObtainPlan(
    planned: PlanReply, registry: map<string, Skill>)
    returns (plan: Option<Plan>, failure: Option<WorkflowResult>)
    ensures plan.None? <==> PlanOf(planned, registry).None?
    ensures plan.Some? ==> plan.value.steps != [] && PlanOf(planned, registry) == Some(plan.value.steps[0])
    ensures plan.None? ==>
              failure == if planned.PlannerCancelled? then None else Some(FailedWith(Refusal(planned, registry), []))
  {
    match planned {
      case PlannerCancelled => return None, None;
      case PlannerProviderRaises(code) => return None, Some(FailedWith(ProviderCode(code), []));
      case PlannerRaises => return None, Some(FailedWith(PlannerFailed, []));
      case PlannerAnswers(answer) =>
        var validation := Validate(answer, registry, LIMITS);
        if validation.Some? {
          return None, Some(FailedWith(PlanRejected(validation.value), []));
        }
        return Some(answer.value), None;
    }
  }

  const LIMITS := Limits(MAX_PLAN_STEPS, MAX_ROUNDS, MAX_SKILL_CALLS)

  /** The one step of the plan, if the planner's reply is a valid plan. */
  function PlanOf(planned: PlanReply, registry: map<string, Skill>): Option<PlanStep>
  {
    if planned.PlannerAnswers? && Validate(planned.plan, registry, LIMITS).None? then Some(planned.plan.value.steps[0])
    else None
  }

  /** Why the planner's reply is not executed. */
  function Refusal(planned: PlanReply, registry: map<string, Skill>): ErrorCode
    requires PlanOf(planned, registry).None?
  {
    match planned
    case PlannerProviderRaises(code) => ProviderCode(code)
    case PlannerAnswers(plan) => PlanRejected(Validate(plan, registry, LIMITS).value)
    case PlannerRaises => PlannerFailed
    case PlannerCancelled => PlannerFailed
  }

  // ---------------------------------------------------------------- what every run keeps

  lemma {:induction false} RefusalIsNotExhausted(planned: PlanReply, registry: map<string, Skill>)
    requires PlanOf(planned, registry).None?
    ensures !IsExhausted(Refusal(planned, registry))
    ensures !AcceptedBy([], [], None)
  {
  }

  /** No finished run reports an exhausted budget. */
  lemma {:induction false} NoBudgetIsExhausted(
    step: PlanStep, registry: map<string, Skill>, route: Route, repairable: seq<string>,
    skill: nat -> SkillReply, reviewer: nat -> ReviewReply, executed: seq<StepResult>, reviews: seq<ReviewReply>)
    requires RunOf(step, registry, route, repairable, skill, reviewer, executed, reviews)
    requires Finished(repairable, executed, reviews)
    ensures Verdict(executed, reviews).error.Some? ==> !IsExhausted(Verdict(executed, reviews).error.value)
  {
    var n := |executed| - 1;
    assert executed[n] == StepFor(step, registry, route, skill(n), n, n);
  }

  /** The last review is a well-formed accept that names a completed executed step, and the accepted
      result is that of the latest such step. */
  ghost predicate AcceptedBy(executed: seq<StepResult>, reviews: seq<ReviewReply>, accepted: Option<SkillResult>)
  {
    && executed != [] && |reviews| == |executed|
    && var last := reviews[|reviews| - 1];
       && last.ReviewerAnswers? && last.decision.Some? && WellFormedAccept(last.decision.value)
       && exists i :: 0 <= i < |executed| && Names(last.decision.value, executed[i])
                      && accepted == executed[i].skillResult
                      && forall j :: i < j < |executed| ==> !Names(last.decision.value, executed[j])
  }

  lemma {:induction false} AcceptedExactlyWhenNamed(
    repairable: seq<string>, executed: seq<StepResult>, reviews: seq<ReviewReply>)
    requires Finished(repairable, executed, reviews)
    ensures var r := Verdict(executed, reviews);
            r.status == Accepted <==> AcceptedBy(executed, reviews, r.accepted)
  {
    if reviews != [] {
      var last := reviews[|reviews| - 1];
      if last.ReviewerAnswers? && last.decision.Some? {
        LatestNamedIsLatest(last.decision.value, executed);
      }
    }
  }

  // ---------------------------------------------------------------- a run told by the replies

  /** Each executed step tells the reply to the call of its own round. */
  lemma {:induction false} StepsTellReplies(
    step: PlanStep, registry: map<string, Skill>, route: Route, repairable: seq<string>,
    skill: nat -> SkillReply, reviewer: nat -> ReviewReply, executed: seq<StepResult>, reviews: seq<ReviewReply>)
    requires RunOf(step, registry, route, repairable, skill, reviewer, executed, reviews)
    ensures forall i :: 0 <= i < |executed| ==>
              && executed[i].stepId == step.stepId && executed[i].round == i + 1
              && Tells(executed[i], step, registry, route, skill(i))
  {
    forall i | 0 <= i < |executed|
      ensures executed[i].stepId == step.stepId && executed[i].round == i + 1
      ensures Tells(executed[i], step, registry, route, skill(i))
    {
      StepTellsReply(step, registry, route, skill(i), i, i);
    }
  }

  /** An accepted result was answered by the skill, completed, and of the asked route. */
  lemma {:induction false} AcceptedWasAnswered(
    step: PlanStep, registry: map<string, Skill>, route: Route, repairable: seq<string>,
    skill: nat -> SkillReply, reviewer: nat -> ReviewReply, executed: seq<StepResult>, reviews: seq<ReviewReply>)
    requires RunOf(step, registry, route, repairable, skill, reviewer, executed, reviews)
    requires Finished(repairable, executed, reviews)
    ensures Verdict(executed, reviews).steps == executed
    ensures var x := Verdict(executed, reviews).accepted;
            x.Some? ==>
              && Callable(step, registry)
              && exists i :: 0 <= i < |executed| && skill(i).SkillAnswers? && skill(i).result == x
                             && x.value.completed && x.value.skillName == INVENTORY_RISK_SKILL && x.value.route == route
  {
    hide RunOf;
    StepsTellReplies(step, registry, route, repairable, skill, reviewer, executed, reviews);
    AcceptedExactlyWhenNamed(repairable, executed, reviews);
    var r := Verdict(executed, reviews);
    if r.accepted.Some? {
      var i :| 0 <= i < |executed| && Names(reviews[|reviews| - 1].decision.value, executed[i])
               && r.accepted == executed[i].skillResult;
      assert Tells(executed[i], step, registry, route, skill(i));
    }
  }

  /** A run that ends of its own accord is accepted when the last review is an accept of the one step and
      nothing else, and some round was completed; the result is that of the latest such round. */
  lemma {:induction false} AcceptanceIsToldByReplies(
    step: PlanStep, registry: map<string, Skill>, route: Route, repairable: seq<string>,
    skill: nat -> SkillReply, reviewer: nat -> ReviewReply, executed: seq<StepResult>, reviews: seq<ReviewReply>)
    requires RunOf(step, registry, route, repairable, skill, reviewer, executed, reviews)
    requires Finished(repairable, executed, reviews)
    ensures Verdict(executed, reviews).status == Accepted
       <==> && executed[|executed| - 1].status != TechnicalFailed
            && (exists i :: 0 <= i < |executed| && executed[i].status == StepCompleted)
            && reviewer(|executed| - 1)
               == ReviewerAnswers(Some(Decision(Accept, Some(step.stepId), None, StatusAccepted)))
    ensures Verdict(executed, reviews).status == Accepted ==>
              exists i :: 0 <= i < |executed| && executed[i].status == StepCompleted && skill(i).SkillAnswers?
                          && Verdict(executed, reviews).accepted == skill(i).result
                          && forall j :: i < j < |executed| ==> executed[j].status != StepCompleted
  {
    hide StepFor, Verdict;
    StepsTellReplies(step, registry, route, repairable, skill, reviewer, executed, reviews);
    AcceptedExactlyWhenNamed(repairable, executed, reviews);
    var r, n := Verdict(executed, reviews), |executed|;
    var last := reviewer(n - 1);
    var wanted := ReviewerAnswers(Some(Decision(Accept, Some(step.stepId), None, StatusAccepted)));
    if last == wanted {
      NamedMeansCompleted(step, registry, route, skill, executed, last.decision.value);
      if i :| 0 <= i < n && executed[i].status == StepCompleted {
        if executed[n - 1].status != TechnicalFailed { LatestIsAccepted(executed, reviews, last.decision.value, i); }
      }
    }
    if r.status == Accepted {
      var d := last.decision.value;
      var i :| 0 <= i < n && Names(d, executed[i]) && r.accepted == executed[i].skillResult
               && forall j :: i < j < n ==> !Names(d, executed[j]);
      assert last == wanted;
    }
  }

  lemma {:induction false} NamedMeansCompleted(
    step: PlanStep, registry: map<string, Skill>, route: Route, skill: nat -> SkillReply,
    executed: seq<StepResult>, d: Decision)
    requires d.acceptedStepId == Some(step.stepId)
    requires forall i :: 0 <= i < |executed| ==>
               executed[i].stepId == step.stepId && Tells(executed[i], step, registry, route, skill(i))
    ensures forall i :: 0 <= i < |executed| ==> (Names(d, executed[i]) <==> executed[i].status == StepCompleted)
  {
  }

  lemma {:induction false} LatestIsAccepted(
    executed: seq<StepResult>, reviews: seq<ReviewReply>, d: Decision, i: nat)
    requires |reviews| == |executed| > 0 && reviews[|reviews| - 1] == ReviewerAnswers(Some(d))
    requires executed[|executed| - 1].status != TechnicalFailed
    requires WellFormedAccept(d) && i < |executed| && Names(d, executed[i])
    ensures Verdict(executed, reviews).status == Accepted
  {
    LatestNamedIsLatest(d, executed);
  }

  /** It is unanswerable when the last review says just that, and has a second round exactly when the first
      review asks to repair the one step, whose skill is repairable. */
  lemma {:induction false} RoundsAreToldByReplies(
    step: PlanStep, registry: map<string, Skill>, route: Route, repairable: seq<string>,
    skill: nat -> SkillReply, reviewer: nat -> ReviewReply, executed: seq<StepResult>, reviews: seq<ReviewReply>)
    requires RunOf(step, registry, route, repairable, skill, reviewer, executed, reviews)
    requires Finished(repairable, executed, reviews)
    ensures Verdict(executed, reviews).status == NotAnswerable
       <==> && executed[|executed| - 1].status != TechnicalFailed
            && reviewer(|executed| - 1)
               == ReviewerAnswers(Some(Decision(Unanswerable, None, None, StatusUnanswerable)))
    ensures |executed| == 2
       <==> && executed[0].status != TechnicalFailed && step.skillName in repairable
            && reviewer(0) == ReviewerAnswers(Some(Decision(Repair, None, Some(step.stepId), StatusRepair)))
    ensures Verdict(executed, reviews).memory <==> exists i :: 0 <= i < |executed| && executed[i].memory
  {
    hide Tells, LatestNamed;
    StepsTellReplies(step, registry, route, repairable, skill, reviewer, executed, reviews);
    StepTellsReply(step, registry, route, skill(0), 0, 0);
  }

  /** The error of such a run: that of its last step if that failed technically, and otherwise what the
      last review was. */
  lemma {:induction false} ErrorIsToldByLastReply(
    step: PlanStep, registry: map<string, Skill>, route: Route, repairable: seq<string>,
    skill: nat -> SkillReply, reviewer: nat -> ReviewReply, executed: seq<StepResult>, reviews: seq<ReviewReply>)
    requires RunOf(step, registry, route, repairable, skill, reviewer, executed, reviews)
    requires Finished(repairable, executed, reviews)
    requires reviews != [] ==> !reviews[|reviews| - 1].ReviewerCancelled?
    ensures var r, n := Verdict(executed, reviews), |executed|;
            var reply := reviewer(n - 1);
            var decided := reply.ReviewerAnswers? && reply.decision.Some?;
            && (r.error.None? <==> r.status == Accepted)
            && (executed[n - 1].status == TechnicalFailed ==>
                  r.status == Failed && r.error.Some? && r.error == executed[n - 1].error)
            && (executed[n - 1].status != TechnicalFailed && r.error.Some? ==>
                  && (r.error == Some(WorkflowUnanswerable) <==> r.status == NotAnswerable)
                  && (r.error == Some(ReviewerFailed) <==> reply.ReviewerRaises?)
                  && (r.error.value.ProviderCode? <==> reply.ReviewerProviderRaises?)
                  && (reply.ReviewerProviderRaises? ==> r.error == Some(ProviderCode(reply.code)))
                  && (r.error == Some(RepairNotPermitted) <==> decided && reply.decision.value.outcome == Repair)
                  && (r.error == Some(ReviewerFailClosed) <==> decided && reply.decision.value.outcome == FailClosed)
                  && (r.error == Some(ReviewerInvalid)
                      <==> || (reply.ReviewerAnswers? && !decided)
                           || (decided && r.status != NotAnswerable
                               && (reply.decision.value.outcome == Accept
                                   || reply.decision.value.outcome == Unanswerable))))
  {
    StepsTellReplies(step, registry, route, repairable, skill, reviewer, executed, reviews);
  }
}

/** The declarative coordinator: replays a directive over a plan without calling adapters. */
module Coordination {
  import opened Wrappers
  import opened Orders
  import opened Text
  import opened Vocabulary
  import opened Plans
  import opened CanonicalPlans
  import opened PlanValidation
  import opened Status
  import opened Routing
  import opened Delivery
  import opened WholeRoute

  datatype CoordinationDirective =
    | NoExecution
    | CompleteDeclaredPlan
    | FailAtDeclaredStep(stepId: string, failureSummary: string)
    | CancelInFlight(stepId: string)
    | UnsupportedRuntimeSituation(summary: string)

  datatype CoordinationInput = CoordinationInput(
    decision: RouteDecision,
    validatedPlan: Option<ValidatedExecutionPlan>,
    directive: CoordinationDirective,
    context: RunContext)

  predicate PlanBelongsToDecision(decision: RouteDecision, validated: ValidatedExecutionPlan) {
    && validated.plan.correlationId == decision.correlationId
    && validated.plan.originatingRequestId == decision.requestId
  }

  function NewCoordinationInput(decision: RouteDecision, validatedPlan: Option<ValidatedExecutionPlan>,
                                directive: CoordinationDirective, context: RunContext): Result<CoordinationInput, Fault>
  {
    var input := CoordinationInput(decision, validatedPlan, directive, context);
    if !ConsistentSurface(decision) then Failure(RouteSurface)
    else match decision.resolvedPosture
      case Denied | ReviewRequired =>
        if validatedPlan.Some? then Failure(UnexpectedPlan)
        else if !directive.NoExecution? then Failure(ProgressionNotAdmitted)
        else Success(input)
      case ExplicitOperatorApproval =>
        if validatedPlan.None? then Failure(MissingPlan)
        else if !PlanBelongsToDecision(decision, validatedPlan.value) then Failure(PlanMismatch)
        else if !directive.NoExecution? then Failure(ProgressionNotAdmitted)
        else Success(input)
      case PolicyPreapproved | ExecuteAllowed =>
        if validatedPlan.None? then Failure(MissingPlan)
        else if !PlanBelongsToDecision(decision, validatedPlan.value) then Failure(PlanMismatch)
        else Success(input)
  }

  /** A status without plan, times or step: what a decision that admits nothing reports. */
  function BareStatus(decision: RouteDecision, state: ExecutionState, summary: string, at: Timestamp): ExecutionStatus {
    ExecutionStatus(decision.requestId, decision.correlationId, None, None, decision.resolvedPosture, state, None, None,
                    at, None, None, None, None, summary)
  }

  function PlanStatus(decision: RouteDecision, validated: ValidatedExecutionPlan, state: ExecutionState,
                      startedAt: Option<Timestamp>, updatedAt: Timestamp, completedAt: Option<Timestamp>,
                      step: Option<string>, completion: Option<string>, failure: Option<string>, summary: string)
    : ExecutionStatus
  {
    ExecutionStatus(decision.requestId, decision.correlationId, Some(validated.plan.executionPlanId),
                    Some(validated.stablePlanHash), decision.resolvedPosture, state, None, startedAt, updatedAt,
                    completedAt, step, completion, failure, summary)
  }

  function ReadyStatus(decision: RouteDecision, validated: ValidatedExecutionPlan, context: RunContext): ExecutionStatus
  {
    PlanStatus(decision, validated, AdmittedNotStarted, None, context.coordinatedAtUtc, None, None, None, None,
               "execution admitted and bounded plan is ready to start")
  }

  function ExecutingStatus(decision: RouteDecision, validated: ValidatedExecutionPlan, stepId: string,
                           context: RunContext)
    : ExecutionStatus
  {
    PlanStatus(decision, validated, InProgress, Some(context.startedAtUtc), context.startedAtUtc, None, Some(stepId),
               None, None, "executing declared step " + stepId)
  }

  /** How a directive closes the plan, if it does. */
  function ClosingOf(decision: RouteDecision, validated: ValidatedExecutionPlan, directive: CoordinationDirective,
                     context: RunContext): Option<ExecutionStatus>
  {
    var started, completed := Some(context.startedAtUtc), Some(context.completedAtUtc);
    match directive
    case CompleteDeclaredPlan =>
      var summary := "execution completed for all declared plan steps";
      Some(PlanStatus(decision, validated, Completed, started, context.completedAtUtc, completed, None, Some(summary),
                      None, summary))
    case FailAtDeclaredStep(_, summary) =>
      Some(PlanStatus(decision, validated, Failed, started, context.completedAtUtc, completed, None, None,
                      Some(summary), summary))
    case CancelInFlight(stepId) =>
      Some(PlanStatus(decision, validated, Canceled, started, context.completedAtUtc, completed, None, None, None,
                      "execution canceled during declared step " + stepId))
    case _ => None
  }

  /** The declared steps a directive runs through, or the fault of a directive that cannot run. */
  function StepsOf(validated: ValidatedExecutionPlan, directive: CoordinationDirective): Result<seq<string>, Fault> {
    var declared := StepIds(validated.plan.steps);
    match directive
    case NoExecution => Success([])
    case CompleteDeclaredPlan => Success(declared)
    case FailAtDeclaredStep(stepId, summary) =>
      if !IsBoundedSummary(summary) then Failure(UnboundedDetail)
      else if StepsThrough(declared, stepId).None? then Failure(UndeclaredStep)
      else Success(StepsThrough(declared, stepId).value)
    case CancelInFlight(stepId) =>
      if StepsThrough(declared, stepId).None? then Failure(UndeclaredStep)
      else Success(StepsThrough(declared, stepId).value)
    case UnsupportedRuntimeSituation(summary) =>
      if !IsBoundedSummary(summary) then Failure(UnboundedDetail) else Failure(UnsupportedRuntimeCondition)
  }

  /** The one status of a decision that admits no execution. */
  function StandstillStatus(decision: RouteDecision, context: RunContext): ExecutionStatus {
    match decision.resolvedPosture
    case Denied => BareStatus(decision, StateDenied, decision.operatorSummary, context.coordinatedAtUtc)
    case ReviewRequired => BareStatus(decision, StateReviewRequired, decision.operatorSummary, context.coordinatedAtUtc)
    case _ => BareStatus(decision, WaitingExplicitApproval, "waiting for explicit operator approval",
                         context.coordinatedAtUtc)
  }

  function ExecutingStatuses(decision: RouteDecision, validated: ValidatedExecutionPlan, stepIds: seq<string>,
                             context: RunContext)
    : (statuses: seq<ExecutionStatus>)
    ensures |statuses| == |stepIds|
    ensures forall k :: 0 <= k < |stepIds| ==> statuses[k] == ExecutingStatus(decision, validated, stepIds[k], context)
  {
    seq(|stepIds|, k requires 0 <= k < |stepIds| => ExecutingStatus(decision, validated, stepIds[k], context))
  }

  /** The trace of a directive over an admitted plan: ready, the steps it runs through, and its
      closing status if it has one. */
  function AdmittedCoordination(decision: RouteDecision, validated: ValidatedExecutionPlan,
                                directive: CoordinationDirective, context: RunContext): Result<ExecutionTrace, Fault>
  {
    var ready :- Checked(ReadyStatus(decision, validated, context));
    var stepIds :- StepsOf(validated, directive);
    var executing := ExecutingStatuses(decision, validated, stepIds, context);
    if !AllValid(executing) then Failure(InvalidStatus)
    else match ClosingOf(decision, validated, directive, context)
      case None => Success(ExecutionTrace([ready] + executing))
      case Some(closing) =>
        if closing.Valid() then Success(ExecutionTrace([ready] + executing + [closing])) else Failure(InvalidStatus)
  }

  function CoordinatedTrace(input: CoordinationInput): Result<ExecutionTrace, Fault>
    requires input.decision.resolvedPosture.IsAdmitted() ==> input.validatedPlan.Some?
  {
    if input.decision.resolvedPosture.IsAdmitted() then
      AdmittedCoordination(input.decision, input.validatedPlan.value, input.directive, input.context)
    else
      var standstill :- Checked(StandstillStatus(input.decision, input.context));
      Success(ExecutionTrace([standstill]))
  }

  method BuildExecuting(decision: RouteDecision, validated: ValidatedExecutionPlan, stepIds: seq<string>,
                        context: RunContext)
    returns (r: Result<seq<ExecutionStatus>, Fault>)
    ensures r.Success? <==> AllValid(ExecutingStatuses(decision, validated, stepIds, context))
    ensures r.Success? ==> r.value == ExecutingStatuses(decision, validated, stepIds, context)
    ensures r.Failure? ==> r.error == InvalidStatus
  {
    var statuses := [];
    for k := 0 to |stepIds|
      invariant statuses == ExecutingStatuses(decision, validated, stepIds[..k], context)
      invariant AllValid(statuses)
    {
      var status := Checked(ExecutingStatus(decision, validated, stepIds[k], context));
      if status.Failure? {
        assert !ExecutingStatuses(decision, validated, stepIds, context)[k].Valid();
        return Failure(status.error);
      }
      statuses := statuses + [status.value];
    }
    assert stepIds[..|stepIds|] == stepIds;
    r := Success(statuses);
  }

  /** Coordinates an accepted input, growing its status list step by step. */
  method Coordinate(input: CoordinationInput) returns (trace: Result<ExecutionTrace, Fault>)
    requires NewCoordinationInput(input.decision, input.validatedPlan, input.directive, input.context) == Success(input)
    ensures trace == CoordinatedTrace(input)
  {
    if !input.decision.resolvedPosture.IsAdmitted() {
      var standstill := Checked(StandstillStatus(input.decision, input.context));
      if standstill.Failure? {
        return Failure(standstill.error);
      }
      trace := NewTrace([standstill.value]);
      return;
    }
    var validated := input.validatedPlan.value;
    var ready := Checked(ReadyStatus(input.decision, validated, input.context));
    if ready.Failure? {
      return Failure(ready.error);
    }
    var statuses := [ready.value];
    var stepIds := StepsOf(validated, input.directive);
    if stepIds.Failure? {
      return Failure(stepIds.error);
    }
    var executing := BuildExecuting(input.decision, validated, stepIds.value, input.context);
    if executing.Failure? {
      return Failure(executing.error);
    }
    statuses := statuses + executing.value;
    var closing := ClosingOf(input.decision, validated, input.directive, input.context);
    if closing.Some? {
      var checked := Checked(closing.value);
      if checked.Failure? {
        return Failure(checked.error);
      }
      statuses := statuses + [checked.value];
    }
    trace := NewTrace(statuses);
  }

  // ---- The grammar of coordinated traces ---------------------------------------------------

  lemma {:induction false} StartedExecuting(decision: RouteDecision, validated: ValidatedExecutionPlan,
                                            stepIds: seq<string>, context: RunContext)
    ensures StartedSteps([ReadyStatus(decision, validated, context)] +
                         ExecutingStatuses(decision, validated, stepIds, context)) == stepIds
  {
    var head, n := [ReadyStatus(decision, validated, context)], |stepIds| - 1;
    var executing := ExecutingStatuses(decision, validated, stepIds, context);
    if stepIds == [] {
      assert head + executing == head && head[..0] == [] && StartedSteps([]) == [];
    } else {
      StartedExecuting(decision, validated, stepIds[..n], context);
      var before := head + ExecutingStatuses(decision, validated, stepIds[..n], context);
      assert head + executing == before + [executing[n]];
      StartedStepsAppend(before, executing[n]);
    }
  }

  lemma ReplayShape(decision: RouteDecision, validated: ValidatedExecutionPlan, stepIds: seq<string>,
                    context: RunContext, closing: Option<ExecutionStatus>, statuses: seq<ExecutionStatus>)
    requires var executing := ExecutingStatuses(decision, validated, stepIds, context);
             AllValid(executing) && ReadyStatus(decision, validated, context).Valid() &&
             statuses == [ReadyStatus(decision, validated, context)] + executing +
                         (if closing.Some? then [closing.value] else [])
    requires closing.Some? ==>
               && closing.value.Valid() && IsClosing(closing.value.state)
               && SameSubject(closing.value, ReadyStatus(decision, validated, context))
               && closing.value.updatedAtUtc == context.completedAtUtc
    ensures AdmittedTrace(statuses, closing.Some?)
    ensures context.Ordered() ==> TimesNeverDecrease(statuses)
  {
    var executing := ExecutingStatuses(decision, validated, stepIds, context);
    assert forall k :: 1 <= k <= |stepIds| ==> statuses[k] == executing[k - 1];
  }

  /** The closing status says what the directive asked for. */
  predicate ReportsDirective(directive: CoordinationDirective, closing: ExecutionStatus) {
    match directive
    case CompleteDeclaredPlan => closing.state.Completed?
    case FailAtDeclaredStep(_, summary) => closing.state.Failed? && closing.failureSummary == Some(summary)
    case CancelInFlight(_) => closing.state.Canceled?
    case NoExecution => closing.state.AdmittedNotStarted?
    case UnsupportedRuntimeSituation(_) => false
  }

  /** The statuses of a directive that can run. */
  function Replay(decision: RouteDecision, validated: ValidatedExecutionPlan, stepIds: seq<string>, context: RunContext,
                  closing: Option<ExecutionStatus>): seq<ExecutionStatus>
  {
    [ReadyStatus(decision, validated, context)] + ExecutingStatuses(decision, validated, stepIds, context) +
    (if closing.Some? then [closing.value] else [])
  }

  lemma ReplayStarts(decision: RouteDecision, validated: ValidatedExecutionPlan, stepIds: seq<string>,
                     context: RunContext, closing: Option<ExecutionStatus>)
    requires closing.Some? ==> IsClosing(closing.value.state)
    ensures StartedSteps(Replay(decision, validated, stepIds, context, closing)) == stepIds
  {
    var opening := [ReadyStatus(decision, validated, context)] +
      ExecutingStatuses(decision, validated, stepIds, context);
    StartedExecuting(decision, validated, stepIds, context);
    if closing.Some? {
      StartedStepsAppend(opening, closing.value);
    } else {
      assert opening + [] == opening;
    }
  }

  lemma ClosingEndsPlan(decision: RouteDecision, validated: ValidatedExecutionPlan, directive: CoordinationDirective,
                        context: RunContext)
    requires StepsOf(validated, directive).Success?
    ensures var closing := ClosingOf(decision, validated, directive, context);
            && (closing.Some? <==> !directive.NoExecution?)
            && (closing.Some? ==>
                  && IsClosing(closing.value.state) && ReportsDirective(directive, closing.value)
                  && SameSubject(closing.value, ReadyStatus(decision, validated, context))
                  && closing.value.updatedAtUtc == context.completedAtUtc)
  {
  }

  lemma CoordinationIsReplay(decision: RouteDecision, validated: ValidatedExecutionPlan,
                             directive: CoordinationDirective, context: RunContext)
    requires AdmittedCoordination(decision, validated, directive, context).Success?
    ensures StepsOf(validated, directive).Success? && ReadyStatus(decision, validated, context).Valid()
    ensures var stepIds, closing := StepsOf(validated, directive).value,
            ClosingOf(decision, validated, directive, context);
            && AllValid(ExecutingStatuses(decision, validated, stepIds, context))
            && (closing.Some? ==> closing.value.Valid())
            && AdmittedCoordination(decision, validated, directive, context).value.statuses ==
               Replay(decision, validated, stepIds, context, closing)
  {
  }

  lemma AdmittedCoordinationShape(decision: RouteDecision, validated: ValidatedExecutionPlan,
                                  directive: CoordinationDirective, context: RunContext)
    requires AdmittedCoordination(decision, validated, directive, context).Success?
    ensures var statuses := AdmittedCoordination(decision, validated, directive, context).value.statuses;
            && AdmittedTrace(statuses, !directive.NoExecution?)
            && (context.Ordered() ==> TimesNeverDecrease(statuses))
  {
    CoordinationIsReplay(decision, validated, directive, context);
    ClosingEndsPlan(decision, validated, directive, context);
    ReplayShape(decision, validated, StepsOf(validated, directive).value, context,
                ClosingOf(decision, validated, directive, context),
                AdmittedCoordination(decision, validated, directive, context).value.statuses);
  }

  lemma AdmittedCoordinationContent(decision: RouteDecision, validated: ValidatedExecutionPlan,
                                    directive: CoordinationDirective, context: RunContext)
    requires AdmittedCoordination(decision, validated, directive, context).Success?
    ensures var statuses := AdmittedCoordination(decision, validated, directive, context).value.statuses;
            && StepsOf(validated, directive) == Success(StartedSteps(statuses))
            && statuses != [] && ReportsDirective(directive, statuses[|statuses| - 1])
  {
    CoordinationIsReplay(decision, validated, directive, context);
    ClosingEndsPlan(decision, validated, directive, context);
    ReplayStarts(decision, validated, StepsOf(validated, directive).value, context,
                 ClosingOf(decision, validated, directive, context));
  }

  /** An admitted trace runs through a duplicate-free prefix of the declared steps, the one the
      directive names, and is closed exactly when the directive closes the plan; timestamps
      never go back when the context's do not. */
  lemma CoordinatedTraceGrammar(input: CoordinationInput, capabilities: CapabilityRegistry, digest: Digest)
    requires input.decision.resolvedPosture.IsAdmitted()
    requires input.validatedPlan.Some? && IsValidatedPlan(input.validatedPlan.value, capabilities, digest)
    requires CoordinatedTrace(input).Success?
    ensures var declared := StepIds(input.validatedPlan.value.plan.steps);
            var statuses := CoordinatedTrace(input).value.statuses;
            && AdmittedTrace(statuses, !input.directive.NoExecution?)
            && StartedSteps(statuses) <= declared && NoDuplicates(StartedSteps(statuses))
            && StepsOf(input.validatedPlan.value, input.directive) == Success(StartedSteps(statuses))
            && ReportsDirective(input.directive, statuses[|statuses| - 1])
            && (input.context.Ordered() ==> TimesNeverDecrease(statuses))
  {
    var validated := input.validatedPlan.value;
    AdmittedCoordinationShape(input.decision, validated, input.directive, input.context);
    AdmittedCoordinationContent(input.decision, validated, input.directive, input.context);
    ValidPlanIsSoundAndAcyclic(validated.plan, capabilities, digest, []);
    StepsAreADeclaredPrefix(validated, input.directive);
  }

  lemma StepsAreADeclaredPrefix(validated: ValidatedExecutionPlan, directive: CoordinationDirective)
    requires StepsOf(validated, directive).Success?
    ensures StepsOf(validated, directive).value <= StepIds(validated.plan.steps)
  {
  }

  /** Accepted inputs progress only under a decision that allows execution; otherwise the trace
      is the one status of the decision's own posture. */
  lemma StandstillReportsItsPosture(input: CoordinationInput)
    requires NewCoordinationInput(input.decision, input.validatedPlan, input.directive, input.context) == Success(input)
    ensures input.decision.executionAllowed <==> input.decision.resolvedPosture.IsAdmitted()
    ensures !input.directive.NoExecution? ==> input.decision.executionAllowed && input.validatedPlan.Some?
    ensures !input.decision.executionAllowed && CoordinatedTrace(input).Success? ==>
              var statuses := CoordinatedTrace(input).value.statuses;
              && |statuses| == 1 && statuses[0].Valid() && StartedSteps(statuses) == []
              && statuses[0].currentPosture == input.decision.resolvedPosture
              && statuses[0].state.IsPreExecution()
              && statuses[0].executionPlanId.None?
  {
    if !input.decision.executionAllowed {
      var standstill := StandstillStatus(input.decision, input.context);
      assert [standstill][..0] == [] && StartedSteps([]) == [];
    }
  }
}

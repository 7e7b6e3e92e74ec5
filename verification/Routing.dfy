/** Route decisions and the selection of a delivery route. */
module Routing {
  import opened Wrappers
  import opened Vocabulary
  import opened Plans
  import opened Status

  /** The parts of a resolved decision that routing, coordination and recording read. */
  datatype RouteDecision = RouteDecision(
    routeDecisionId: RouteDecisionId,
    correlationId: CorrelationId,
    requestId: RequestId,
    resolvedPosture: ApprovalPosture,
    executionAllowed: bool,
    reviewRequired: bool,
    explicitApprovalRequired: bool,
    requestedCapabilityId: CapabilityId,
    operatorSummary: string)

  /** The three flags say exactly what the posture says. */
  predicate ConsistentSurface(decision: RouteDecision) {
    match decision.resolvedPosture
    case Denied => !decision.executionAllowed && !decision.reviewRequired && !decision.explicitApprovalRequired
    case ReviewRequired => !decision.executionAllowed && decision.reviewRequired && !decision.explicitApprovalRequired
    case ExplicitOperatorApproval =>
      !decision.executionAllowed && !decision.reviewRequired && decision.explicitApprovalRequired
    case PolicyPreapproved | ExecuteAllowed =>
      decision.executionAllowed && !decision.reviewRequired && !decision.explicitApprovalRequired
  }

  datatype RoutePathKind =
    | NonExecutableDenied
    | NonExecutableReviewRequired
    | AwaitExplicitApproval
    | ExternalAdapterBoundedExecution

  datatype SelectedExecutionRoute = SelectedExecutionRoute(
    routePathKind: RoutePathKind,
    routeDecisionId: RouteDecisionId,
    correlationId: CorrelationId,
    requestId: RequestId,
    resolvedPosture: ApprovalPosture,
    requestedCapabilityId: CapabilityId,
    executionPlanId: Option<ExecutionPlanId>,
    stablePlanHash: Option<string>,
    declaredStepIds: seq<string>,
    declaredCapabilityIds: seq<CapabilityId>,
    declaredFallbackReferences: seq<FallbackReference>,
    executable: bool,
    explicitApprovalRequired: bool,
    operatorSummary: string)

  datatype RoutingInput = RoutingInput(decision: RouteDecision, validatedPlan: Option<ValidatedExecutionPlan>)

  predicate PlanMatchesDecision(decision: RouteDecision, validated: ValidatedExecutionPlan) {
    && validated.plan.correlationId == decision.correlationId
    && validated.plan.originatingRequestId == decision.requestId
    && decision.requestedCapabilityId in validated.plan.referencedCapabilities
  }

  function NewRoutingInput(decision: RouteDecision, validatedPlan: Option<ValidatedExecutionPlan>)
    : Result<RoutingInput, Fault>
  {
    if !ConsistentSurface(decision) then Failure(RouteSurface)
    else match decision.resolvedPosture
      case Denied | ReviewRequired =>
        if validatedPlan.Some? then Failure(UnexpectedPlan) else Success(RoutingInput(decision, validatedPlan))
      case ExplicitOperatorApproval | PolicyPreapproved | ExecuteAllowed =>
        if validatedPlan.None? then Failure(MissingPlan)
        else if !PlanMatchesDecision(decision, validatedPlan.value) then Failure(PlanMismatch)
        else Success(RoutingInput(decision, validatedPlan))
  }

  function NonExecutableRoute(decision: RouteDecision, kind: RoutePathKind): SelectedExecutionRoute {
    SelectedExecutionRoute(
      kind, decision.routeDecisionId, decision.correlationId, decision.requestId, decision.resolvedPosture,
      decision.requestedCapabilityId, None, None, [], [], [], false, false, decision.operatorSummary)
  }

  function RoutablePlan(decision: RouteDecision, validated: ValidatedExecutionPlan, kind: RoutePathKind,
                        executable: bool, explicitApprovalRequired: bool): SelectedExecutionRoute
  {
    SelectedExecutionRoute(
      kind, decision.routeDecisionId, decision.correlationId, decision.requestId, decision.resolvedPosture,
      decision.requestedCapabilityId, Some(validated.plan.executionPlanId), Some(validated.stablePlanHash),
      StepIds(validated.plan.steps), validated.plan.referencedCapabilities, validated.plan.fallbackReferences,
      executable, explicitApprovalRequired, decision.operatorSummary)
  }

  function SelectRoute(input: RoutingInput): Result<SelectedExecutionRoute, Fault> {
    match input.decision.resolvedPosture
    case Denied => Success(NonExecutableRoute(input.decision, NonExecutableDenied))
    case ReviewRequired => Success(NonExecutableRoute(input.decision, NonExecutableReviewRequired))
    case ExplicitOperatorApproval =>
      if input.validatedPlan.None? then Failure(MissingPlan)
      else Success(RoutablePlan(input.decision, input.validatedPlan.value, AwaitExplicitApproval, false, true))
    case PolicyPreapproved | ExecuteAllowed =>
      if input.validatedPlan.None? then Failure(MissingPlan)
      else Success(RoutablePlan(input.decision, input.validatedPlan.value, ExternalAdapterBoundedExecution, true,
                                false))
  }

  /** A route that may reach an adapter at all. */
  predicate Deliverable(route: SelectedExecutionRoute) {
    && route.routePathKind.ExternalAdapterBoundedExecution?
    && route.executable
    && !route.explicitApprovalRequired
    && route.resolvedPosture.IsAdmitted()
    && route.executionPlanId.Some?
    && route.stablePlanHash.Some?
    && route.declaredStepIds != []
    && route.declaredCapabilityIds != []
    && route.requestedCapabilityId in route.declaredCapabilityIds
  }

  /** An input that routing accepts yields a route an adapter may see exactly when the
      decision allows execution; no later delivery check can then reject it. */
  lemma RouteIsDeliverableIffExecutionAllowed(decision: RouteDecision, validatedPlan: Option<ValidatedExecutionPlan>)
    requires NewRoutingInput(decision, validatedPlan).Success?
    requires validatedPlan.Some? ==> validatedPlan.value.plan.steps != []
    ensures var selected := SelectRoute(NewRoutingInput(decision, validatedPlan).value);
            selected.Success? && (Deliverable(selected.value) <==> decision.executionAllowed)
  {
    if validatedPlan.Some? {
      assert |StepIds(validatedPlan.value.plan.steps)| == |validatedPlan.value.plan.steps|;
    }
  }
}

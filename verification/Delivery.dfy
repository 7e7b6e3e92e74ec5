/** Adapters, per-step outcomes, the statuses delivery emits, and the final aggregation. */
module Delivery {
  import opened Wrappers
  import opened Text
  import opened Vocabulary
  import opened Plans
  import opened Status
  import opened Routing

  type AdapterId = string

  datatype AdapterDeliveryRequest = AdapterDeliveryRequest(
    routeDecisionId: RouteDecisionId,
    correlationId: CorrelationId,
    requestId: RequestId,
    resolvedPosture: ApprovalPosture,
    requestedCapabilityId: CapabilityId,
    executionPlanId: ExecutionPlanId,
    stablePlanHash: string,
    declaredStepIds: seq<string>,
    declaredCapabilityIds: seq<CapabilityId>,
    declaredFallbackReferences: seq<FallbackReference>)

  datatype AdapterDeliveryResult =
    | DeliveredAllSteps
    | CompletedWithDeclaredFallback(stepId: string, fallbackStepId: string, degradedSubtype: DegradedSubtype)
    | FailedAtDeclaredStep(stepId: string, failureSummary: string)
    | CanceledAtDeclaredStep(stepId: string)
    | DependencyUnavailable(summary: string)
    | Unsupported(summary: string)

  datatype AdapterCall = AdapterCall(adapterId: AdapterId, request: AdapterDeliveryRequest)

  /** Every adapter at once: the reply to a call may depend on all calls made before it. */
  type AdapterOracle = (seq<AdapterCall>, AdapterCall) -> AdapterDeliveryResult

  /** The capability-to-adapter dispatch table; a capability is registered at most once. */
  class AdapterRegistry {
    var byCapability: map<CapabilityId, AdapterId>

    constructor ()
      ensures byCapability == map[]
    {
      byCapability := map[];
    }

    method Register(capabilityId: CapabilityId, adapterId: AdapterId) returns (r: Result<(), Fault>)
      modifies this
      ensures capabilityId in old(byCapability) ==> r == Failure(AdapterAlreadyRegistered) && unchanged(this)
      ensures capabilityId !in old(byCapability) ==>
                r == Success(()) && byCapability == old(byCapability)[capabilityId := adapterId]
    {
      if capabilityId in byCapability {
        return Failure(AdapterAlreadyRegistered);
      }
      byCapability := byCapability[capabilityId := adapterId];
      r := Success(());
    }

    function Resolve(capabilityId: CapabilityId): Option<AdapterId>
      reads this
    {
      Lookup(byCapability, capabilityId)
    }
  }

  function Lookup(registry: map<CapabilityId, AdapterId>, capabilityId: CapabilityId): Option<AdapterId> {
    if capabilityId in registry then Some(registry[capabilityId]) else None
  }

  datatype RunContext = RunContext(
    coordinatedAtUtc: Timestamp,
    startedAtUtc: Timestamp,
    completedAtUtc: Timestamp)
  {
    predicate Ordered() {
      coordinatedAtUtc <= startedAtUtc <= completedAtUtc
    }
  }

  // ---- Step outcomes --------------------------------------------------------------------

  datatype StepDeliveryOutcome =
    | StepCompleted
    | CompletedViaFallback(fallbackStepId: string)
    | StepFailed(summary: string)
    | StepCanceled
    | StepUnavailable(summary: string)
    | Skipped
  {
    predicate IsComplete() {
      StepCompleted? || CompletedViaFallback?
    }

    /** An attempted step that did not complete: the only outcomes that trigger a fallback,
        stop a run, or count as a cause. */
    predicate IsCause() {
      StepFailed? || StepCanceled? || StepUnavailable?
    }

    /** What one dispatch can report about its own step. */
    predicate IsDirect() {
      StepCompleted? || IsCause()
    }
  }

  datatype StepRecord = StepRecord(stepId: string, outcome: StepDeliveryOutcome)

  const STEP_CANCELED_DETAIL := "step was canceled"
  const STEP_SKIPPED_DETAIL := "step was skipped after an earlier step did not complete"
  const MISSING_ADAPTER_PREFIX := "no delivery adapter registered for capability "

  function MissingAdapterSummary(capabilityId: CapabilityId): string {
    MISSING_ADAPTER_PREFIX + capabilityId
  }

  // ---- Statuses built from a route ------------------------------------------------------

  /** The fields shared by every status of an admitted route. */
  function RouteStatus(route: SelectedExecutionRoute, state: ExecutionState, subtype: Option<DegradedSubtype>,
                       startedAt: Option<Timestamp>, updatedAt: Timestamp, completedAt: Option<Timestamp>,
                       step: Option<string>, completion: Option<string>, failure: Option<string>, summary: string)
    : ExecutionStatus
  {
    ExecutionStatus(route.requestId, route.correlationId, route.executionPlanId, route.stablePlanHash,
                    route.resolvedPosture, state, subtype, startedAt, updatedAt, completedAt, step,
                    completion, failure, summary)
  }

  const ADMISSION_SUMMARY := "execution admitted for external bounded delivery"
  const STEP_PREFIX := "executing externally delivered step "
  const COMPLETION_SUMMARY := "external delivery completed for all declared plan steps"
  const CANCELLATION_PREFIX := "external delivery canceled during declared step "
  const COUNT_SUFFIX := " declared plan steps completed"
  const UNAVAILABLE_SUMMARY := "no delivery adapter registered for any declared step"

  function AdmittedStatus(route: SelectedExecutionRoute, context: RunContext): ExecutionStatus {
    RouteStatus(route, AdmittedNotStarted, None, None, context.coordinatedAtUtc, None, None, None, None,
                ADMISSION_SUMMARY)
  }

  function InProgressStatus(route: SelectedExecutionRoute, stepId: string, context: RunContext): ExecutionStatus {
    RouteStatus(route, InProgress, None, Some(context.startedAtUtc), context.startedAtUtc, None, Some(stepId),
                None, None, STEP_PREFIX + stepId)
  }

  function CompletedStatus(route: SelectedExecutionRoute, context: RunContext): ExecutionStatus {
    RouteStatus(route, Completed, None, Some(context.startedAtUtc), context.completedAtUtc,
                Some(context.completedAtUtc), None, Some(COMPLETION_SUMMARY), None, COMPLETION_SUMMARY)
  }

  function ConstrainedStatus(route: SelectedExecutionRoute, subtype: DegradedSubtype, summary: string,
                             context: RunContext)
    : ExecutionStatus
  {
    RouteStatus(route, CompletedWithConstraints, Some(subtype), Some(context.startedAtUtc), context.completedAtUtc,
                Some(context.completedAtUtc), None, Some(summary), None, summary)
  }

  function PartialSuccessStatus(route: SelectedExecutionRoute, completed: nat, total: nat, stepId: string,
                                detail: string, context: RunContext): ExecutionStatus
  {
    RouteStatus(route, PartialSuccess, Some(DegradedPartial), Some(context.startedAtUtc), context.completedAtUtc,
                Some(context.completedAtUtc), None, Some(CompletionCountSummary(completed, total)),
                Some(CulpritSummary(stepId, detail)), CompletionCountSummary(completed, total))
  }

  function FailedStatus(route: SelectedExecutionRoute, summary: string, context: RunContext): ExecutionStatus {
    RouteStatus(route, Failed, None, Some(context.startedAtUtc), context.completedAtUtc,
                Some(context.completedAtUtc), None, None, Some(summary), summary)
  }

  function CanceledStatus(route: SelectedExecutionRoute, stepId: string, context: RunContext): ExecutionStatus {
    RouteStatus(route, Canceled, None, Some(context.startedAtUtc), context.completedAtUtc,
                Some(context.completedAtUtc), None, None, None,
                CANCELLATION_PREFIX + stepId)
  }

  function UnavailableStatus(route: SelectedExecutionRoute, summary: string, context: RunContext): ExecutionStatus {
    RouteStatus(route, Degraded, Some(UnavailableDependencyBlock), None, context.completedAtUtc, None, None,
                None, None, summary)
  }

  function CompletionCountSummary(completed: nat, total: nat): string {
    Decimal(completed) + " of " + Decimal(total) + COUNT_SUFFIX
  }

  function CulpritSummary(stepId: string, detail: string): string {
    "step " + stepId + " did not complete: " + detail
  }

  // ---- Aggregation ----------------------------------------------------------------------

  function CompletedCount(outcomes: seq<StepRecord>): (n: nat)
    ensures n <= |outcomes|
    ensures n == |outcomes| <==> forall k :: 0 <= k < |outcomes| ==> outcomes[k].outcome.IsComplete()
    ensures n == 0 <==> forall k :: 0 <= k < |outcomes| ==> !outcomes[k].outcome.IsComplete()
  {
    if outcomes == [] then 0
    else (if outcomes[0].outcome.IsComplete() then 1 else 0) + CompletedCount(outcomes[1..])
  }

  /** The first record with a given property. */
  function FirstWhere(outcomes: seq<StepRecord>, wanted: StepDeliveryOutcome -> bool): (r: Option<StepRecord>)
    ensures r.None? <==> forall k :: 0 <= k < |outcomes| ==> !wanted(outcomes[k].outcome)
    ensures r.Some? ==> exists k :: 0 <= k < |outcomes| && outcomes[k] == r.value && wanted(r.value.outcome) &&
                                    forall m :: 0 <= m < k ==> !wanted(outcomes[m].outcome)
  {
    if outcomes == [] then None
    else if wanted(outcomes[0].outcome) then Some(outcomes[0])
    else FirstWhere(outcomes[1..], wanted)
  }

  predicate NotComplete(outcome: StepDeliveryOutcome) {
    !outcome.IsComplete()
  }

  predicate HasFailed(outcome: StepDeliveryOutcome) {
    outcome.StepFailed?
  }

  predicate WasCanceled(outcome: StepDeliveryOutcome) {
    outcome.StepCanceled?
  }

  predicate UsedFallback(outcome: StepDeliveryOutcome) {
    outcome.CompletedViaFallback?
  }

  function CulpritDetail(outcome: StepDeliveryOutcome): string {
    match outcome
    case StepFailed(summary) => summary
    case StepUnavailable(summary) => summary
    case StepCanceled => STEP_CANCELED_DETAIL
    case _ => STEP_SKIPPED_DETAIL
  }

  /** "primary -> fallback" for every rescued step, in plan order, comma separated. */
  function FallbackPairs(outcomes: seq<StepRecord>): string {
    if outcomes == [] then ""
    else
      var rest := FallbackPairs(outcomes[1..]);
      match outcomes[0].outcome
      case CompletedViaFallback(fallbackStepId) =>
        var pair := outcomes[0].stepId + " -> " + fallbackStepId;
        if rest == "" then pair else pair + ", " + rest
      case _ => rest
  }

  const FALLBACK_SUMMARY_PREFIX := "all declared plan steps completed; used declared fallback for: "

  function PlanOutcomeStatus(route: SelectedExecutionRoute, outcomes: seq<StepRecord>, context: RunContext)
    : ExecutionStatus
  {
    var completed := CompletedCount(outcomes);
    if completed == |outcomes| then
      if FirstWhere(outcomes, UsedFallback).Some? then
        ConstrainedStatus(route, DegradedFallbackLimited, FALLBACK_SUMMARY_PREFIX + FallbackPairs(outcomes), context)
      else
        CompletedStatus(route, context)
    else if completed > 0 then
      var culprit := FirstWhere(outcomes, NotComplete).value;
      PartialSuccessStatus(route, completed, |outcomes|, culprit.stepId, CulpritDetail(culprit.outcome), context)
    else if FirstWhere(outcomes, HasFailed).Some? then
      FailedStatus(route, FirstWhere(outcomes, HasFailed).value.outcome.summary, context)
    else if FirstWhere(outcomes, WasCanceled).Some? then
      CanceledStatus(route, FirstWhere(outcomes, WasCanceled).value.stepId, context)
    else
      UnavailableStatus(route, UNAVAILABLE_SUMMARY, context)
  }
}

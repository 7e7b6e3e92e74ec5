/** Execution statuses and the contract every emitted status has passed. */
module Status {
  import opened Wrappers
  import opened Text
  import opened Vocabulary

  /** Errors keep the check that failed; the wording of messages is dropped. */
  datatype Fault =
    | InvalidStatus
    | EmptyTrace
    | RouteSurface
    | PlanMismatch
    | MissingPlan
    | UnexpectedPlan
    | ProgressionNotAdmitted
    | RouteNotDeliverable
    | UndeclaredStep
    | UndeclaredFallback
    | UnexplicitFallbackSubtype
    | UnboundedDetail
    | FallbackUnsupportedPerStep
    | UnsupportedAdapterCondition
    | UnsupportedRuntimeCondition
    | AdapterAlreadyRegistered

  datatype ExecutionStatus = ExecutionStatus(
    requestId: RequestId,
    correlationId: CorrelationId,
    executionPlanId: Option<ExecutionPlanId>,
    stablePlanHash: Option<string>,
    currentPosture: ApprovalPosture,
    state: ExecutionState,
    degradedSubtype: Option<DegradedSubtype>,
    startedAtUtc: Option<Timestamp>,
    updatedAtUtc: Timestamp,
    completedAtUtc: Option<Timestamp>,
    currentStep: Option<string>,
    completionSummary: Option<string>,
    failureSummary: Option<string>,
    truthfulSummary: string)
  {
    predicate HasPlanLink() {
      executionPlanId.Some? && stablePlanHash.Some?
    }

    predicate HasNoPlanLink() {
      executionPlanId.None? && stablePlanHash.None?
    }

    predicate SummariesBounded() {
      && (completionSummary.Some? ==> IsBoundedSummary(completionSummary.value))
      && (failureSummary.Some? ==> IsBoundedSummary(failureSummary.value))
      && IsBoundedSummary(truthfulSummary)
    }

    predicate TimesOrdered() {
      && (startedAtUtc.Some? ==> startedAtUtc.value <= updatedAtUtc)
      && (completedAtUtc.Some? ==> completedAtUtc.value <= updatedAtUtc)
      && (completedAtUtc.Some? && startedAtUtc.Some? ==> startedAtUtc.value <= completedAtUtc.value)
    }

    /** Nothing but identity, posture and the operator's summary. */
    predicate IsBare() {
      && startedAtUtc.None? && completedAtUtc.None? && currentStep.None?
      && completionSummary.None? && failureSummary.None? && degradedSubtype.None?
    }

    predicate StateShape() {
      match state
      case StateDenied => currentPosture.Denied? && HasNoPlanLink() && IsBare()
      case StateReviewRequired => currentPosture.ReviewRequired? && HasNoPlanLink() && IsBare()
      case WaitingExplicitApproval => currentPosture.ExplicitOperatorApproval? && HasNoPlanLink() && IsBare()
      case AdmittedNotStarted => currentPosture.IsAdmitted() && HasPlanLink() && IsBare()
      case InProgress =>
        && currentPosture.IsAdmitted() && HasPlanLink()
        && startedAtUtc.Some? && completedAtUtc.None? && currentStep.Some?
        && completionSummary.None? && failureSummary.None? && degradedSubtype.None?
      case Degraded =>
        && currentPosture.IsAdmitted() && HasPlanLink()
        && degradedSubtype.Some?
        && completedAtUtc.None? && completionSummary.None? && failureSummary.None?
        && (match degradedSubtype.value
            case DegradedPreStart | UnavailableDependencyBlock => startedAtUtc.None? && currentStep.None?
            case _ => startedAtUtc.Some?)
      case PartialSuccess =>
        && currentPosture.IsAdmitted() && HasPlanLink()
        && startedAtUtc.Some? && completedAtUtc.Some? && currentStep.None?
        && completionSummary.Some? && failureSummary.Some?
        && degradedSubtype == Some(DegradedPartial)
      case CompletedWithConstraints =>
        && currentPosture.IsAdmitted() && HasPlanLink()
        && startedAtUtc.Some? && completedAtUtc.Some? && currentStep.None?
        && completionSummary.Some? && failureSummary.None?
        && degradedSubtype.Some? && degradedSubtype.value.IsExplicitFallback()
      case Completed =>
        && currentPosture.IsAdmitted() && HasPlanLink()
        && startedAtUtc.Some? && completedAtUtc.Some? && currentStep.None?
        && completionSummary.Some? && failureSummary.None? && degradedSubtype.None?
      case Failed =>
        && currentPosture.IsAdmitted() && HasPlanLink()
        && startedAtUtc.Some? && completedAtUtc.Some? && currentStep.None?
        && completionSummary.None? && failureSummary.Some? && degradedSubtype.None?
      case Canceled =>
        && currentPosture.IsAdmitted() && HasPlanLink()
        && completedAtUtc.Some? && currentStep.None?
        && completionSummary.None? && failureSummary.None? && degradedSubtype.None?
    }

    predicate Valid() {
      && (HasPlanLink() || HasNoPlanLink())
      && (currentStep.Some? ==> IsValidStepId(currentStep.value))
      && SummariesBounded()
      && (stablePlanHash.Some? ==> IsValidHash(stablePlanHash.value))
      && TimesOrdered()
      && StateShape()
    }
  }

  /** Construction is validation: an invalid status is never emitted. */
  function Checked(status: ExecutionStatus): Result<ExecutionStatus, Fault> {
    if status.Valid() then Success(status) else Failure(InvalidStatus)
  }

  datatype ExecutionTrace = ExecutionTrace(statuses: seq<ExecutionStatus>)

  function NewTrace(statuses: seq<ExecutionStatus>): Result<ExecutionTrace, Fault> {
    if statuses == [] then Failure(EmptyTrace) else Success(ExecutionTrace(statuses))
  }

  predicate SameSubject(a: ExecutionStatus, b: ExecutionStatus) {
    && a.requestId == b.requestId
    && a.correlationId == b.correlationId
    && a.executionPlanId == b.executionPlanId
    && a.stablePlanHash == b.stablePlanHash
    && a.currentPosture == b.currentPosture
  }

  /** The steps a trace reports as started, in order. */
  function StartedSteps(statuses: seq<ExecutionStatus>): seq<string> {
    if statuses == [] then []
    else
      var before := StartedSteps(statuses[..|statuses| - 1]);
      var last := statuses[|statuses| - 1];
      if last.state.InProgress? && last.currentStep.Some? then before + [last.currentStep.value] else before
  }

  lemma StartedStepsAppend(statuses: seq<ExecutionStatus>, status: ExecutionStatus)
    ensures StartedSteps(statuses + [status]) ==
            if status.state.InProgress? && status.currentStep.Some?
            then StartedSteps(statuses) + [status.currentStep.value] else StartedSteps(statuses)
  {
    assert (statuses + [status])[..|statuses|] == statuses;
  }

  predicate IsClosing(state: ExecutionState) {
    state.Degraded? || state.PartialSuccess? || state.CompletedWithConstraints? ||
    state.Completed? || state.Failed? || state.Canceled?
  }

  /** The shape of an admitted trace: one admission, then started steps, then at most one
      closing status; every status is valid and they all speak of one run. */
  predicate AdmittedTrace(statuses: seq<ExecutionStatus>, closed: bool) {
    && 0 < |statuses|
    && statuses[0].state.AdmittedNotStarted?
    && (closed ==> |statuses| > 1)
    && (forall i :: 0 <= i < |statuses| ==> statuses[i].Valid() && SameSubject(statuses[i], statuses[0]))
    && (forall i :: 1 <= i < |statuses| - (if closed then 1 else 0) ==> statuses[i].state.InProgress?)
    && (closed ==> IsClosing(statuses[|statuses| - 1].state))
  }

  predicate TimesNeverDecrease(statuses: seq<ExecutionStatus>) {
    forall i, j :: 0 <= i < j < |statuses| ==> statuses[i].updatedAtUtc <= statuses[j].updatedAtUtc
  }
}

/** Per-step delivery as a state machine: one turn per declared step. */
module PerStepRun {
  import opened Wrappers
  import opened Text
  import opened Vocabulary
  import opened Plans
  import opened Status
  import opened Routing
  import opened Delivery

  /** Everything fixed for the length of one run. */
  datatype Assignment = Assignment(
    route: SelectedExecutionRoute,
    validated: ValidatedExecutionPlan,
    registry: map<CapabilityId, AdapterId>,
    adapters: AdapterOracle,
    context: RunContext)
  {
    function Steps(): seq<ExecutionPlanStep> {
      validated.plan.steps
    }
  }

  /** What the coordinator holds between turns, with the log of adapter calls. Once `fault`
      is set the run is over, but the log keeps every call made before it. */
  datatype Run = Run(
    statuses: seq<ExecutionStatus>,
    outcomes: seq<StepRecord>,
    stopDispatching: bool,
    fallbackResults: map<string, StepDeliveryOutcome>,
    calls: seq<AdapterCall>,
    fault: Option<Fault>)

  /** The id-and-hash gate between a route and the plan delivered under it. */
  predicate PassesGate(route: SelectedExecutionRoute, validated: ValidatedExecutionPlan) {
    Some(validated.plan.executionPlanId) == route.executionPlanId &&
      Some(validated.stablePlanHash) == route.stablePlanHash
  }

  function FirstReference(references: seq<FallbackReference>, stepId: string): (r: Option<FallbackReference>)
    ensures r.Some? ==> r.value in references && r.value.stepId == stepId
    ensures r.None? ==> forall reference :: reference in references ==> reference.stepId != stepId
  {
    if references == [] then None
    else if references[0].stepId == stepId then Some(references[0])
    else FirstReference(references[1..], stepId)
  }

  function FindStep(steps: seq<ExecutionPlanStep>, stepId: string): (r: Option<ExecutionPlanStep>)
    ensures r.Some? ==> r.value in steps && r.value.stepId == stepId
    ensures r.None? ==> forall step :: step in steps ==> step.stepId != stepId
  {
    if steps == [] then None
    else if steps[0].stepId == stepId then Some(steps[0])
    else FindStep(steps[1..], stepId)
  }

  /** The fallback to try for a step, unless it is already waiting as another step's result. */
  function DeclaredFallbackStep(plan: ExecutionPlan, stepId: string, consumed: map<string, StepDeliveryOutcome>)
    : Option<ExecutionPlanStep>
  {
    match FirstReference(plan.fallbackReferences, stepId)
    case None => None
    case Some(reference) =>
      if reference.fallbackStepId in consumed then None
      else FindStep(plan.steps, reference.fallbackStepId)
  }

  /** A request scoped to one step: its own capability, no fallbacks to improvise with. */
  function StepRequest(route: SelectedExecutionRoute, validated: ValidatedExecutionPlan, step: ExecutionPlanStep)
    : AdapterDeliveryRequest
  {
    AdapterDeliveryRequest(
      route.routeDecisionId, route.correlationId, route.requestId, route.resolvedPosture, step.capabilityId,
      validated.plan.executionPlanId, validated.stablePlanHash, [step.stepId], [step.capabilityId], [])
  }

  /** How a reply to a one-step request reads as that step's outcome. */
  function OutcomeOfReply(reply: AdapterDeliveryResult): Result<StepDeliveryOutcome, Fault> {
    match reply
    case DeliveredAllSteps => Success(StepCompleted)
    case FailedAtDeclaredStep(_, summary) =>
      if IsBoundedSummary(summary) then Success(StepFailed(summary)) else Failure(UnboundedDetail)
    case CanceledAtDeclaredStep(_) => Success(StepCanceled)
    case DependencyUnavailable(summary) =>
      if IsBoundedSummary(summary) then Success(StepUnavailable(summary)) else Failure(UnboundedDetail)
    case CompletedWithDeclaredFallback(_, _, _) => Failure(FallbackUnsupportedPerStep)
    case Unsupported(_) => Failure(UnsupportedAdapterCondition)
  }

  datatype Dispatch = Dispatch(outcome: Result<StepDeliveryOutcome, Fault>, calls: seq<AdapterCall>)

  function StepCall(job: Assignment, step: ExecutionPlanStep, adapterId: AdapterId): AdapterCall {
    AdapterCall(adapterId, StepRequest(job.route, job.validated, step))
  }

  function DispatchOneStep(job: Assignment, calls: seq<AdapterCall>, step: ExecutionPlanStep): Dispatch {
    match Lookup(job.registry, step.capabilityId)
    case None => Dispatch(Success(StepUnavailable(MissingAdapterSummary(step.capabilityId))), calls)
    case Some(adapterId) =>
      var call := StepCall(job, step, adapterId);
      Dispatch(OutcomeOfReply(job.adapters(calls, call)), calls + [call])
  }

  datatype Attempted = Attempted(run: Run, outcome: StepDeliveryOutcome) | Halted(run: Run)

  /** Announces a step and dispatches it. */
  function Attempt(job: Assignment, run: Run, step: ExecutionPlanStep): Attempted {
    var announcement := InProgressStatus(job.route, step.stepId, job.context);
    if !announcement.Valid() then Halted(run.(fault := Some(InvalidStatus)))
    else
      var dispatch := DispatchOneStep(job, run.calls, step);
      var after := run.(statuses := run.statuses + [announcement], calls := dispatch.calls);
      match dispatch.outcome
      case Failure(fault) => Halted(after.(fault := Some(fault)))
      case Success(outcome) => Attempted(after, outcome)
  }

  function Record(run: Run, stepId: string, outcome: StepDeliveryOutcome): Run {
    run.(outcomes := run.outcomes + [StepRecord(stepId, outcome)])
  }

  /** Ends a dispatched turn; under cancel-remaining a cause stops all later dispatch. */
  function Settle(job: Assignment, run: Run, step: ExecutionPlanStep, outcome: StepDeliveryOutcome): Run {
    Record(run.(stopDispatching := run.stopDispatching ||
                  (outcome.IsCause() && job.validated.plan.cancellationPolicy == CancelRemainingSteps)),
           step.stepId, outcome)
  }

  function KeepFallback(run: Run, stepId: string, outcome: StepDeliveryOutcome): Run {
    run.(fallbackResults := run.fallbackResults[stepId := outcome])
  }

  function RescuedOutcome(own: StepDeliveryOutcome, fallbackStepId: string, fallback: StepDeliveryOutcome)
    : StepDeliveryOutcome
  {
    if fallback.StepCompleted? then CompletedViaFallback(fallbackStepId) else own
  }

  /** The part of a dispatched turn that follows the step's own reply. */
  function AfterOwnAttempt(job: Assignment, run: Run, step: ExecutionPlanStep, own: StepDeliveryOutcome): Run {
    if !own.IsCause() then Settle(job, run, step, own)
    else match DeclaredFallbackStep(job.validated.plan, step.stepId, run.fallbackResults)
      case None => Settle(job, run, step, own)
      case Some(fallbackStep) =>
        match Attempt(job, run, fallbackStep)
        case Halted(halted) => halted
        case Attempted(after, fallback) =>
          Settle(job, KeepFallback(after, fallbackStep.stepId, fallback), step,
                 RescuedOutcome(own, fallbackStep.stepId, fallback))
  }

  function TakeTurn(job: Assignment, run: Run, step: ExecutionPlanStep): Run {
    if run.fault.Some? then run
    else if step.stepId in run.fallbackResults then
      Record(run.(fallbackResults := run.fallbackResults - {step.stepId}), step.stepId,
             run.fallbackResults[step.stepId])
    else if run.stopDispatching then
      Record(run, step.stepId, Skipped)
    else
      match Attempt(job, run, step)
      case Halted(halted) => halted
      case Attempted(after, own) => AfterOwnAttempt(job, after, step, own)
  }

  function HaltedAtStart(fault: Fault): Run {
    Run([], [], false, map[], [], Some(fault))
  }

  function StartRun(job: Assignment): Run {
    if !Deliverable(job.route) then HaltedAtStart(RouteNotDeliverable)
    else if !PassesGate(job.route, job.validated) then HaltedAtStart(PlanMismatch)
    else if !AdmittedStatus(job.route, job.context).Valid() then HaltedAtStart(InvalidStatus)
    else Run([AdmittedStatus(job.route, job.context)], [], false, map[], [], None)
  }

  /** The run after the turns of the first `n` declared steps. */
  function RunAfter(job: Assignment, n: nat): Run
    requires n <= |job.Steps()|
  {
    if n == 0 then StartRun(job) else TakeTurn(job, RunAfter(job, n - 1), job.Steps()[n - 1])
  }

  function CompletedRun(job: Assignment): Run {
    RunAfter(job, |job.Steps()|)
  }

  /** The trace a run delivers, or the fault that ended it. */
  function Conclude(job: Assignment, run: Run): Result<ExecutionTrace, Fault> {
    if run.fault.Some? then Failure(run.fault.value)
    else
      var closing :- Checked(PlanOutcomeStatus(job.route, run.outcomes, job.context));
      NewTrace(run.statuses + [closing])
  }
}

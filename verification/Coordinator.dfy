/** The per-step coordinator in the form the service gives it: fields updated by a loop. */
module Coordinator {
  import opened Wrappers
  import opened Plans
  import opened Status
  import opened Routing
  import opened Delivery
  import opened PerStepRun
  import opened RunGrowth

  class PerStepCoordinator {
    var statuses: seq<ExecutionStatus>
    var outcomes: seq<StepRecord>
    var stopDispatching: bool
    var fallbackResults: map<string, StepDeliveryOutcome>
    var calls: seq<AdapterCall>

    constructor ()
      ensures Holds(Run([], [], false, map[], [], None))
    {
      statuses, outcomes, stopDispatching, fallbackResults, calls := [], [], false, map[], [];
    }

    /** The fields are those of `run`. */
    ghost predicate Holds(run: Run)
      reads this
    {
      && statuses == run.statuses
      && outcomes == run.outcomes
      && stopDispatching == run.stopDispatching
      && fallbackResults == run.fallbackResults
      && calls == run.calls
    }

    ghost function State(fault: Option<Fault>): (run: Run)
      reads this
      ensures Holds(run)
    {
      Run(statuses, outcomes, stopDispatching, fallbackResults, calls, fault)
    }

    /** Announces one step and delivers it to its capability's adapter. */
    method Deliver(job: Assignment, step: ExecutionPlanStep) returns (outcome: Result<StepDeliveryOutcome, Fault>)
      modifies this
      ensures match Attempt(job, old(State(None)), step)
              case Attempted(after, delivered) => outcome == Success(delivered) && State(None) == after
              case Halted(halted) => outcome.Failure? && State(Some(outcome.error)) == halted
    {
      var announcement := Checked(InProgressStatus(job.route, step.stepId, job.context));
      if announcement.Failure? {
        return Failure(announcement.error);
      }
      statuses := statuses + [announcement.value];
      var adapterId := Lookup(job.registry, step.capabilityId);
      if adapterId.None? {
        return Success(StepUnavailable(MissingAdapterSummary(step.capabilityId)));
      }
      var call := AdapterCall(adapterId.value, StepRequest(job.route, job.validated, step));
      var reply := job.adapters(calls, call);
      calls := calls + [call];
      outcome := OutcomeOfReply(reply);
    }

    /** One pass of the delivery loop. */
    method TakeTurnFor(job: Assignment, step: ExecutionPlanStep) returns (fault: Option<Fault>)
      modifies this
      ensures State(fault) == TakeTurn(job, old(State(None)), step)
    {
      if step.stepId in fallbackResults {
        var reused := fallbackResults[step.stepId];
        fallbackResults := fallbackResults - {step.stepId};
        outcomes := outcomes + [StepRecord(step.stepId, reused)];
        return None;
      }
      if stopDispatching {
        outcomes := outcomes + [StepRecord(step.stepId, Skipped)];
        return None;
      }
      var own := Deliver(job, step);
      if own.Failure? {
        return Some(own.error);
      }
      var outcome := own.value;
      if outcome.IsCause() {
        var fallbackStep := DeclaredFallbackStep(job.validated.plan, step.stepId, fallbackResults);
        if fallbackStep.Some? {
          var fallback := Deliver(job, fallbackStep.value);
          if fallback.Failure? {
            return Some(fallback.error);
          }
          if fallback.value.StepCompleted? {
            outcome := CompletedViaFallback(fallbackStep.value.stepId);
          }
          fallbackResults := fallbackResults[fallbackStep.value.stepId := fallback.value];
        }
      }
      if outcome.IsCause() && job.validated.plan.cancellationPolicy == CancelRemainingSteps {
        stopDispatching := true;
      }
      outcomes := outcomes + [StepRecord(step.stepId, outcome)];
      fault := None;
    }

    /** Delivers a validated plan step by step. Whatever the result, the call log is that of
        the run; on success the trace is the run's statuses and one closing status. */
    method DeliverPlanPerStep(route: SelectedExecutionRoute, validated: ValidatedExecutionPlan,
                              registry: AdapterRegistry, adapters: AdapterOracle, context: RunContext)
      returns (trace: Result<ExecutionTrace, Fault>)
      modifies this
      ensures var job := Assignment(route, validated, registry.byCapability, adapters, context);
              Holds(CompletedRun(job)) && trace == Conclude(job, CompletedRun(job))
    {
      statuses, outcomes, stopDispatching, fallbackResults, calls := [], [], false, map[], [];
      var job := Assignment(route, validated, registry.byCapability, adapters, context);
      var n := |job.Steps()|;
      if !Deliverable(route) {
        FaultIsFinal(job, 0, n);
        return Failure(RouteNotDeliverable);
      }
      if !PassesGate(route, validated) {
        FaultIsFinal(job, 0, n);
        return Failure(PlanMismatch);
      }
      var admitted := Checked(AdmittedStatus(route, context));
      if admitted.Failure? {
        FaultIsFinal(job, 0, n);
        return Failure(admitted.error);
      }
      statuses := [admitted.value];
      for i := 0 to n
        invariant State(None) == RunAfter(job, i)
      {
        var fault := TakeTurnFor(job, job.Steps()[i]);
        if fault.Some? {
          FaultIsFinal(job, i + 1, n);
          return Failure(fault.value);
        }
      }
      var closing := Checked(PlanOutcomeStatus(route, outcomes, context));
      if closing.Failure? {
        return Failure(closing.error);
      }
      trace := NewTrace(statuses + [closing.value]);
    }
  }
}

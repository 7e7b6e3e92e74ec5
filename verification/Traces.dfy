/** The shape of an admitted trace, shared by every way of delivering a route. */
module Traces {
  import opened Wrappers
  import opened Text
  import opened Status
  import opened Routing
  import opened Delivery

  predicate IsAnnouncement(route: SelectedExecutionRoute, context: RunContext, status: ExecutionStatus) {
    && status.currentStep.Some?
    && status == InProgressStatus(route, status.currentStep.value, context)
    && status.Valid()
  }

  /** One admission, then announcements only, every one of them valid. */
  predicate Announced(route: SelectedExecutionRoute, context: RunContext, statuses: seq<ExecutionStatus>) {
    && statuses != []
    && statuses[0] == AdmittedStatus(route, context) && statuses[0].Valid()
    && forall k :: 1 <= k < |statuses| ==> IsAnnouncement(route, context, statuses[k])
  }

  lemma {:induction false} AttemptsAreAnnouncements(route: SelectedExecutionRoute, context: RunContext,
                                                    statuses: seq<ExecutionStatus>)
    requires Announced(route, context, statuses)
    ensures |StartedSteps(statuses)| == |statuses| - 1
    ensures forall k :: 1 <= k < |statuses| ==> statuses[k].currentStep == Some(StartedSteps(statuses)[k - 1])
  {
    var n := |statuses| - 1;
    if n > 0 {
      AttemptsAreAnnouncements(route, context, statuses[..n]);
      assert IsAnnouncement(route, context, statuses[n]);
      assert statuses == statuses[..n] + [statuses[n]];
      forall k | 1 <= k < n ensures statuses[k].currentStep == Some(StartedSteps(statuses)[k - 1]) {
        assert statuses[..n][k] == statuses[k];
      }
    } else {
      assert statuses[..0] == [];
    }
  }

  lemma ClosedTraceShape(route: SelectedExecutionRoute, context: RunContext, statuses: seq<ExecutionStatus>,
                         closing: ExecutionStatus)
    requires Announced(route, context, statuses) && closing.Valid()
    requires SameSubject(closing, AdmittedStatus(route, context))
    requires IsClosing(closing.state)
    requires closing.updatedAtUtc == context.completedAtUtc
    ensures AdmittedTrace(statuses + [closing], true)
    ensures context.Ordered() ==> TimesNeverDecrease(statuses + [closing])
  {
    var trace := statuses + [closing];
    assert forall k :: 1 <= k < |statuses| ==> trace[k] == statuses[k] && IsAnnouncement(route, context, statuses[k]);
    forall i | 0 <= i < |trace| ensures trace[i].Valid() && SameSubject(trace[i], trace[0]) {
      assert i < |statuses| ==> trace[i] == statuses[i];
    }
  }

  /** On an admitted route every well-formed step id can be announced. */
  lemma WellFormedStepAnnounces(route: SelectedExecutionRoute, stepId: string, context: RunContext)
    requires AdmittedStatus(route, context).Valid() && IsValidStepId(stepId)
    ensures InProgressStatus(route, stepId, context).Valid()
  {
    assert |STEP_PREFIX| == 36;
  }
}

/** The final status of a run: a truthful summary of its outcomes, and when it can be built. */
module Aggregation {
  import opened Text
  import opened Vocabulary
  import opened Plans
  import opened CanonicalPlans
  import opened Routing
  import opened Delivery
  import opened PerStepRun
  import opened DeliveryLedger
  import opened DeliveryTheorems

  predicate AllComplete(outcomes: seq<StepRecord>) {
    forall k :: 0 <= k < |outcomes| ==> outcomes[k].outcome.IsComplete()
  }

  predicate NoneComplete(outcomes: seq<StepRecord>) {
    forall k :: 0 <= k < |outcomes| ==> !outcomes[k].outcome.IsComplete()
  }

  predicate AnyOutcome(outcomes: seq<StepRecord>, wanted: StepDeliveryOutcome -> bool) {
    exists k :: 0 <= k < |outcomes| && wanted(outcomes[k].outcome)
  }

  /** Record `k` is the first one with the given property. */
  predicate IsFirst(outcomes: seq<StepRecord>, wanted: StepDeliveryOutcome -> bool, k: nat) {
    && k < |outcomes| && wanted(outcomes[k].outcome)
    && forall m :: 0 <= m < k ==> !wanted(outcomes[m].outcome)
  }

  /** What the outcomes say about the whole plan, stated without counting. */
  function DeclaredState(outcomes: seq<StepRecord>): ExecutionState {
    if AllComplete(outcomes) then
      (if AnyOutcome(outcomes, UsedFallback) then CompletedWithConstraints else Completed)
    else if !NoneComplete(outcomes) then PartialSuccess
    else if AnyOutcome(outcomes, HasFailed) then Failed
    else if AnyOutcome(outcomes, WasCanceled) then Canceled
    else Degraded
  }

  lemma FirstWhereIsFirst(outcomes: seq<StepRecord>, wanted: StepDeliveryOutcome -> bool) returns (k: nat)
    ensures FirstWhere(outcomes, wanted).Some? <==> AnyOutcome(outcomes, wanted)
    ensures FirstWhere(outcomes, wanted).Some? ==>
              IsFirst(outcomes, wanted, k) && outcomes[k] == FirstWhere(outcomes, wanted).value
  {
    k := 0;
    var found := FirstWhere(outcomes, wanted);
    if found.Some? {
      k :| 0 <= k < |outcomes| && outcomes[k] == found.value && wanted(found.value.outcome) &&
           forall m :: 0 <= m < k ==> !wanted(outcomes[m].outcome);
    }
  }

  /** The aggregated status reports exactly the declared state. */
  lemma AggregationReportsDeclaredState(route: SelectedExecutionRoute, outcomes: seq<StepRecord>, context: RunContext)
    ensures PlanOutcomeStatus(route, outcomes, context).state == DeclaredState(outcomes)
  {
    var f := FirstWhereIsFirst(outcomes, HasFailed);
    var c := FirstWhereIsFirst(outcomes, WasCanceled);
    var u := FirstWhereIsFirst(outcomes, UsedFallback);
    assert AllComplete(outcomes) <==> CompletedCount(outcomes) == |outcomes|;
    assert NoneComplete(outcomes) <==> CompletedCount(outcomes) == 0;
  }

  /** A partial success names the first incomplete step and counts the complete ones. */
  lemma PartialSuccessNamesFirstIncomplete(route: SelectedExecutionRoute, outcomes: seq<StepRecord>,
                                           context: RunContext)
    returns (k: nat)
    requires DeclaredState(outcomes).PartialSuccess?
    ensures IsFirst(outcomes, NotComplete, k)
    ensures PlanOutcomeStatus(route, outcomes, context) ==
            PartialSuccessStatus(route, CompletedCount(outcomes), |outcomes|, outcomes[k].stepId,
                                 CulpritDetail(outcomes[k].outcome), context)
  {
    k := FirstWhereIsFirst(outcomes, NotComplete);
    var m :| 0 <= m < |outcomes| && !outcomes[m].outcome.IsComplete();
    assert NotComplete(outcomes[m].outcome);
  }

  /** A failure repeats the first failed step's own summary. */
  lemma FailureRepeatsFirstFailedSummary(route: SelectedExecutionRoute, outcomes: seq<StepRecord>, context: RunContext)
    returns (k: nat)
    requires DeclaredState(outcomes).Failed?
    ensures IsFirst(outcomes, HasFailed, k)
    ensures PlanOutcomeStatus(route, outcomes, context) == FailedStatus(route, outcomes[k].outcome.summary, context)
  {
    k := FirstWhereIsFirst(outcomes, HasFailed);
  }

  /** A cancellation names the first canceled step. */
  lemma CancellationNamesFirstCanceled(route: SelectedExecutionRoute, outcomes: seq<StepRecord>, context: RunContext)
    returns (k: nat)
    requires DeclaredState(outcomes).Canceled?
    ensures IsFirst(outcomes, WasCanceled, k)
    ensures PlanOutcomeStatus(route, outcomes, context) == CanceledStatus(route, outcomes[k].stepId, context)
  {
    k := FirstWhereIsFirst(outcomes, WasCanceled);
    var f := FirstWhereIsFirst(outcomes, HasFailed);
  }

  // ---- Aggregation over runs --------------------------------------------------------------

  /** In a run, the first step is never skipped, and neither is the first incomplete one. */
  lemma CulpritIsNeverSkipped(job: Assignment, capabilities: CapabilityRegistry, digest: Digest, k: nat)
    requires Admitted(job, capabilities, digest) && CompletedRun(job).fault.None?
    requires IsFirst(CompletedRun(job).outcomes, NotComplete, k)
    ensures CompletedRun(job).outcomes[k].outcome.IsCause()
    ensures CompletedRun(job).outcomes[k].stepId in Attempts(CompletedRun(job))
  {
    CompletedRunKeepsInvariant(job, capabilities, digest);
    SkipsHaveAnEarlierCause(job, capabilities, digest, |job.Steps()|, k);
  }

  predicate OnlyUnavailable(outcomes: seq<StepRecord>) {
    forall k :: 0 <= k < |outcomes| && !outcomes[k].outcome.Skipped? ==> outcomes[k].outcome.StepUnavailable?
  }

  lemma DegradedIsOnlyUnavailable(outcomes: seq<StepRecord>)
    requires outcomes != [] && !outcomes[0].outcome.Skipped?
    ensures DeclaredState(outcomes).Degraded? <==> OnlyUnavailable(outcomes)
  {
    if DeclaredState(outcomes).Degraded? {
      forall k | 0 <= k < |outcomes| && !outcomes[k].outcome.Skipped?
        ensures outcomes[k].outcome.StepUnavailable?
      {
        assert !HasFailed(outcomes[k].outcome) && !WasCanceled(outcomes[k].outcome);
      }
    }
  }

  lemma FirstStepIsAttempted(job: Assignment, capabilities: CapabilityRegistry, digest: Digest)
    requires Admitted(job, capabilities, digest) && CompletedRun(job).fault.None?
    ensures var run := CompletedRun(job);
            run.outcomes != [] && !run.outcomes[0].outcome.Skipped? && run.outcomes[0].stepId in Attempts(run)
  {
    CompletedRunKeepsInvariant(job, capabilities, digest);
    SkipsHaveAnEarlierCause(job, capabilities, digest, |job.Steps()|, 0);
  }

  /** A run ends degraded exactly when every attempt, and there was one, found its adapter
      unavailable. */
  lemma DegradedMeansNothingWasAvailable(job: Assignment, capabilities: CapabilityRegistry, digest: Digest)
    requires Admitted(job, capabilities, digest) && CompletedRun(job).fault.None?
    ensures Attempts(CompletedRun(job)) != []
    ensures PlanOutcomeStatus(job.route, CompletedRun(job).outcomes, job.context).state.Degraded? <==>
            OnlyUnavailable(CompletedRun(job).outcomes)
  {
    FirstStepIsAttempted(job, capabilities, digest);
    AggregationReportsDeclaredState(job.route, CompletedRun(job).outcomes, job.context);
    DegradedIsOnlyUnavailable(CompletedRun(job).outcomes);
  }

  // ---- When the closing status can be built -----------------------------------------------

  const CULPRIT_OVERHEAD: nat := 24

  lemma CulpritSummaryLength(stepId: string, detail: string)
    ensures |CulpritSummary(stepId, detail)| == CULPRIT_OVERHEAD + |stepId| + |detail|
  {
    assert |"step "| == 5 && |" did not complete: "| == 19;
  }

  lemma CompletionCountSummaryFits(completed: nat, total: nat)
    requires completed <= total < U32_BOUND
    ensures IsBoundedSummary(CompletionCountSummary(completed, total))
  {
    DecimalOfU32(completed);
    DecimalOfU32(total);
    assert |" of "| == 4 && |COUNT_SUFFIX| == 30;
  }

  /** A route whose admission status was valid, and times in order. */
  predicate ReadyToClose(route: SelectedExecutionRoute, context: RunContext) {
    && AdmittedStatus(route, context).Valid()
    && context.startedAtUtc <= context.completedAtUtc
  }

  /** A partial success builds exactly when its culprit's text fits the summary bound. */
  lemma PartialSuccessBuildsExactlyWhenItFits(route: SelectedExecutionRoute, completed: nat, total: nat, stepId: string,
                                              detail: string, context: RunContext)
    requires ReadyToClose(route, context) && completed <= total < U32_BOUND
    ensures PartialSuccessStatus(route, completed, total, stepId, detail, context).Valid() <==>
            CULPRIT_OVERHEAD + |stepId| + |detail| <= SUMMARY_BOUND
  {
    CulpritSummaryLength(stepId, detail);
    CompletionCountSummaryFits(completed, total);
  }

  lemma MissingAdapterSummaryLength(capabilityId: CapabilityId)
    ensures |MissingAdapterSummary(capabilityId)| == 82
  {
    assert |MISSING_ADAPTER_PREFIX| == 46;
  }

  lemma {:induction false} PairsAreEmptyOnlyWithoutRescue(outcomes: seq<StepRecord>)
    ensures FallbackPairs(outcomes) == "" <==> !AnyOutcome(outcomes, UsedFallback)
  {
    if outcomes != [] {
      PairsAreEmptyOnlyWithoutRescue(outcomes[1..]);
      var rest := outcomes[1..];
      assert forall k :: 0 <= k < |rest| ==> rest[k] == outcomes[k + 1];
      if AnyOutcome(rest, UsedFallback) {
        var k :| 0 <= k < |rest| && UsedFallback(rest[k].outcome);
        assert UsedFallback(outcomes[k + 1].outcome);
      }
      if AnyOutcome(outcomes, UsedFallback) && !UsedFallback(outcomes[0].outcome) {
        var k :| 0 <= k < |outcomes| && UsedFallback(outcomes[k].outcome);
        assert UsedFallback(rest[k - 1].outcome);
      }
    }
  }
}

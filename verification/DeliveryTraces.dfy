/** The trace a per-step run emits, and exactly when a run that met no fault can close it. */
module DeliveryTraces {
  import opened Orders
  import opened Text
  import opened Vocabulary
  import opened Plans
  import opened CanonicalPlans
  import opened Status
  import opened Routing
  import opened Delivery
  import opened Traces
  import opened PerStepRun
  import opened DeliveryLedger
  import opened DeliveryTurns
  import opened DeliveryInvariants
  import opened DeliveryTheorems
  import opened Aggregation

  lemma AttemptAnnounces(job: Assignment, run: Run, step: ExecutionPlanStep)
    requires Announced(job.route, job.context, run.statuses)
    ensures Announced(job.route, job.context, Attempt(job, run, step).run.statuses)
  {
    var announcement := InProgressStatus(job.route, step.stepId, job.context);
    if announcement.Valid() {
      assert IsAnnouncement(job.route, job.context, announcement);
    }
  }

  lemma TurnAnnounces(job: Assignment, run: Run, step: ExecutionPlanStep)
    requires Announced(job.route, job.context, run.statuses)
    ensures Announced(job.route, job.context, TakeTurn(job, run, step).statuses)
  {
    AttemptAnnounces(job, run, step);
    var own := Attempt(job, run, step);
    if own.Attempted? {
      var fallbackStep := DeclaredFallbackStep(job.validated.plan, step.stepId, own.run.fallbackResults);
      if fallbackStep.Some? {
        AttemptAnnounces(job, own.run, fallbackStep.value);
      }
    }
  }

  lemma {:induction false} RunAnnounces(job: Assignment, n: nat)
    requires n <= |job.Steps()| && StartRun(job).fault.None?
    ensures Announced(job.route, job.context, RunAfter(job, n).statuses)
  {
    if n > 0 {
      RunAnnounces(job, n - 1);
      TurnAnnounces(job, RunAfter(job, n - 1), job.Steps()[n - 1]);
    }
  }

  lemma AttemptedIdsAreWellFormed(job: Assignment, run: Run, id: string)
    requires Announced(job.route, job.context, run.statuses) && id in Attempts(run)
    ensures IsValidStepId(id)
  {
    AttemptsAreAnnouncements(job.route, job.context, run.statuses);
    var k :| 0 <= k < |Attempts(run)| && Attempts(run)[k] == id;
    assert IsAnnouncement(job.route, job.context, run.statuses[k + 1]);
  }

  lemma CompleteOutcomesChoose(route: SelectedExecutionRoute, outcomes: seq<StepRecord>, context: RunContext)
    requires AllComplete(outcomes)
    ensures PlanOutcomeStatus(route, outcomes, context) ==
            if AnyOutcome(outcomes, UsedFallback)
            then ConstrainedStatus(route, DegradedFallbackLimited, FALLBACK_SUMMARY_PREFIX + FallbackPairs(outcomes),
                                   context)
            else CompletedStatus(route, context)
  {
    var k := FirstWhereIsFirst(outcomes, UsedFallback);
  }

  lemma DegradedOutcomesChoose(route: SelectedExecutionRoute, outcomes: seq<StepRecord>, context: RunContext)
    requires DeclaredState(outcomes).Degraded?
    ensures PlanOutcomeStatus(route, outcomes, context) ==
            UnavailableStatus(route, UNAVAILABLE_SUMMARY, context)
  {
    var f := FirstWhereIsFirst(outcomes, HasFailed);
    var c := FirstWhereIsFirst(outcomes, WasCanceled);
  }

  /** A status that can end this route's trace. */
  predicate EndsRoute(route: SelectedExecutionRoute, context: RunContext, status: ExecutionStatus) {
    && SameSubject(status, AdmittedStatus(route, context))
    && IsClosing(status.state)
    && status.updatedAtUtc == context.completedAtUtc
  }

  lemma ClosingStatusFacts(route: SelectedExecutionRoute, outcomes: seq<StepRecord>, context: RunContext)
    ensures EndsRoute(route, context, PlanOutcomeStatus(route, outcomes, context))
  {
    match DeclaredState(outcomes)
    case Completed => CompleteOutcomesChoose(route, outcomes, context);
    case CompletedWithConstraints => CompleteOutcomesChoose(route, outcomes, context);
    case PartialSuccess =>
      var k := PartialSuccessNamesFirstIncomplete(route, outcomes, context);
    case Failed =>
      var k := FailureRepeatsFirstFailedSummary(route, outcomes, context);
    case Canceled =>
      var k := CancellationNamesFirstCanceled(route, outcomes, context);
    case _ => DegradedOutcomesChoose(route, outcomes, context);
  }

  /** Every delivered trace has the admitted shape: it starts steps in the order they were
      attempted, each declared step at most once, closes with the aggregated outcome, and its
      timestamps never go back when the context's do not. */
  lemma DeliveredTraceGrammar(job: Assignment, capabilities: CapabilityRegistry, digest: Digest)
    requires Admitted(job, capabilities, digest)
    requires Conclude(job, CompletedRun(job)).Success?
    ensures var trace, run := Conclude(job, CompletedRun(job)).value.statuses, CompletedRun(job);
            && AdmittedTrace(trace, true)
            && trace == run.statuses + [PlanOutcomeStatus(job.route, run.outcomes, job.context)]
            && trace[0] == AdmittedStatus(job.route, job.context)
            && StartedSteps(trace) == Attempts(run)
            && NoDuplicates(StartedSteps(trace))
            && (forall id :: id in StartedSteps(trace) ==> id in Ids(job))
            && (job.context.Ordered() ==> TimesNeverDecrease(trace))
  {
    var run := CompletedRun(job);
    CompletedRunKeepsInvariant(job, capabilities, digest);
    FaultsPersist(job, 0, |job.Steps()|);
    RunAnnounces(job, |job.Steps()|);
    AnnouncedRunTrace(job.route, job.context, run.statuses, PlanOutcomeStatus(job.route, run.outcomes, job.context),
                      run.outcomes);
  }

  lemma AnnouncedRunTrace(route: SelectedExecutionRoute, context: RunContext, statuses: seq<ExecutionStatus>,
                          closing: ExecutionStatus, outcomes: seq<StepRecord>)
    requires Announced(route, context, statuses) && closing.Valid() &&
             closing == PlanOutcomeStatus(route, outcomes, context)
    ensures AdmittedTrace(statuses + [closing], true)
    ensures StartedSteps(statuses + [closing]) == StartedSteps(statuses)
    ensures context.Ordered() ==> TimesNeverDecrease(statuses + [closing])
  {
    StartedStepsAppend(statuses, closing);
    ClosingStatusFacts(route, outcomes, context);
    ClosedTraceShape(route, context, statuses, closing);
  }

  // ---- When a run without fault still cannot close ----------------------------------------

  /** The text that names the culprit, or the rescues, fits the summary bound. */
  predicate ClosingFits(outcomes: seq<StepRecord>) {
    match DeclaredState(outcomes)
    case PartialSuccess =>
      var culprit := FirstWhere(outcomes, NotComplete);
      culprit.Some? &&
        CULPRIT_OVERHEAD + |culprit.value.stepId| + |CulpritDetail(culprit.value.outcome)| <= SUMMARY_BOUND
    case CompletedWithConstraints => |FALLBACK_SUMMARY_PREFIX| + |FallbackPairs(outcomes)| <= SUMMARY_BOUND
    case _ => true
  }

  lemma ReportedFailureIsBounded(job: Assignment, calls: seq<AdapterCall>, id: string, summary: string)
    requires Reports(job, calls, id, StepFailed(summary))
    ensures IsBoundedSummary(summary)
  {
  }

  lemma RecordedFailureIsBounded(job: Assignment, capabilities: CapabilityRegistry, digest: Digest, k: nat)
    requires Admitted(job, capabilities, digest) && CompletedRun(job).fault.None?
    requires k < |CompletedRun(job).outcomes| && CompletedRun(job).outcomes[k].outcome.StepFailed?
    ensures IsBoundedSummary(CompletedRun(job).outcomes[k].outcome.summary)
  {
    OutcomesAreTruthful(job, capabilities, digest, |job.Steps()|, k);
    ExplainedFailureIsBounded(job, CompletedRun(job).calls, CompletedRun(job).outcomes[k]);
  }

  lemma ExplainedFailureIsBounded(job: Assignment, calls: seq<AdapterCall>, record: StepRecord)
    requires Explained(job, calls, record) && record.outcome.StepFailed?
    ensures IsBoundedSummary(record.outcome.summary)
  {
    ReportedFailureIsBounded(job, calls, record.stepId, record.outcome.summary);
  }

  lemma AttemptedRecordIdIsWellFormed(job: Assignment, capabilities: CapabilityRegistry, digest: Digest, k: nat)
    requires Admitted(job, capabilities, digest) && CompletedRun(job).fault.None?
    requires k < |CompletedRun(job).outcomes| && !CompletedRun(job).outcomes[k].outcome.Skipped?
    ensures IsValidStepId(CompletedRun(job).outcomes[k].stepId)
  {
    CompletedRunKeepsInvariant(job, capabilities, digest);
    FaultsPersist(job, 0, |job.Steps()|);
    RunAnnounces(job, |job.Steps()|);
    assert Ids(job)[k] in Attempts(CompletedRun(job));
    AttemptedIdsAreWellFormed(job, CompletedRun(job), Ids(job)[k]);
  }

  lemma PartialClosesExactlyWhenTextFits(route: SelectedExecutionRoute, outcomes: seq<StepRecord>, context: RunContext)
    requires ReadyToClose(route, context) && |outcomes| < U32_BOUND && DeclaredState(outcomes).PartialSuccess?
    ensures PlanOutcomeStatus(route, outcomes, context).Valid() <==> ClosingFits(outcomes)
  {
    var k := PartialSuccessNamesFirstIncomplete(route, outcomes, context);
    var m := FirstWhereIsFirst(outcomes, NotComplete);
    assert m == k;
    PartialSuccessBuildsExactlyWhenItFits(route, CompletedCount(outcomes), |outcomes|, outcomes[k].stepId,
                                          CulpritDetail(outcomes[k].outcome), context);
  }

  lemma FailureCloses(route: SelectedExecutionRoute, outcomes: seq<StepRecord>, context: RunContext)
    requires ReadyToClose(route, context) && DeclaredState(outcomes).Failed?
    requires forall k :: 0 <= k < |outcomes| && outcomes[k].outcome.StepFailed? ==>
               IsBoundedSummary(outcomes[k].outcome.summary)
    ensures PlanOutcomeStatus(route, outcomes, context).Valid()
  {
    var k := FailureRepeatsFirstFailedSummary(route, outcomes, context);
  }

  lemma CancellationCloses(route: SelectedExecutionRoute, outcomes: seq<StepRecord>, context: RunContext)
    requires ReadyToClose(route, context) && DeclaredState(outcomes).Canceled?
    requires forall k :: 0 <= k < |outcomes| && outcomes[k].outcome.StepCanceled? ==> IsValidStepId(outcomes[k].stepId)
    ensures PlanOutcomeStatus(route, outcomes, context).Valid()
  {
    var k := CancellationNamesFirstCanceled(route, outcomes, context);
    assert |CANCELLATION_PREFIX| == 48;
  }

  lemma CompletionCloses(route: SelectedExecutionRoute, context: RunContext)
    requires ReadyToClose(route, context)
    ensures CompletedStatus(route, context).Valid()
  {
  }

  lemma RescueClosesExactlyWhenTextFits(route: SelectedExecutionRoute, pairs: string, context: RunContext)
    requires ReadyToClose(route, context)
    ensures ConstrainedStatus(route, DegradedFallbackLimited, FALLBACK_SUMMARY_PREFIX + pairs, context).Valid() <==>
            |FALLBACK_SUMMARY_PREFIX| + |pairs| <= SUMMARY_BOUND
  {
  }

  lemma DegradationCloses(route: SelectedExecutionRoute, context: RunContext)
    requires ReadyToClose(route, context)
    ensures UnavailableStatus(route, UNAVAILABLE_SUMMARY, context).Valid()
  {
  }

  lemma OtherClosings(route: SelectedExecutionRoute, outcomes: seq<StepRecord>, context: RunContext)
    requires ReadyToClose(route, context)
    requires DeclaredState(outcomes).Completed? || DeclaredState(outcomes).CompletedWithConstraints? ||
             DeclaredState(outcomes).Degraded?
    ensures PlanOutcomeStatus(route, outcomes, context).Valid() <==> ClosingFits(outcomes)
  {
    match DeclaredState(outcomes)
    case Completed =>
      CompleteOutcomesChoose(route, outcomes, context);
      CompletionCloses(route, context);
    case CompletedWithConstraints =>
      CompleteOutcomesChoose(route, outcomes, context);
      RescueClosesExactlyWhenTextFits(route, FallbackPairs(outcomes), context);
    case _ =>
      DegradedOutcomesChoose(route, outcomes, context);
      DegradationCloses(route, context);
  }

  /** A run that met no fault ends in a trace exactly when its closing text fits. A failed,
      canceled or degraded run always closes; only long culprit details and long lists of
      rescues can turn delivered work into an error. */
  lemma RunClosesExactlyWhenTextFits(job: Assignment, capabilities: CapabilityRegistry, digest: Digest)
    requires Admitted(job, capabilities, digest) && CompletedRun(job).fault.None?
    requires job.context.startedAtUtc <= job.context.completedAtUtc
    ensures Conclude(job, CompletedRun(job)).Success? <==> ClosingFits(CompletedRun(job).outcomes)
  {
    RunIsReadyToClose(job, capabilities, digest);
    RunRecordsAreWellFormed(job, capabilities, digest);
    OutcomesCloseExactlyWhenTextFits(job.route, CompletedRun(job).outcomes, job.context);
  }

  /** The failures recorded are bounded, and the canceled steps well-formed. */
  predicate WellFormedRecords(outcomes: seq<StepRecord>) {
    forall k :: 0 <= k < |outcomes| ==>
      && (outcomes[k].outcome.StepFailed? ==> IsBoundedSummary(outcomes[k].outcome.summary))
      && (outcomes[k].outcome.StepCanceled? ==> IsValidStepId(outcomes[k].stepId))
  }

  lemma RunRecordsAreWellFormed(job: Assignment, capabilities: CapabilityRegistry, digest: Digest)
    requires Admitted(job, capabilities, digest) && CompletedRun(job).fault.None?
    ensures WellFormedRecords(CompletedRun(job).outcomes)
  {
    var outcomes := CompletedRun(job).outcomes;
    forall k | 0 <= k < |outcomes|
      ensures outcomes[k].outcome.StepFailed? ==> IsBoundedSummary(outcomes[k].outcome.summary)
      ensures outcomes[k].outcome.StepCanceled? ==> IsValidStepId(outcomes[k].stepId)
    {
      if outcomes[k].outcome.StepFailed? {
        RecordedFailureIsBounded(job, capabilities, digest, k);
      } else if outcomes[k].outcome.StepCanceled? {
        AttemptedRecordIdIsWellFormed(job, capabilities, digest, k);
      }
    }
  }

  lemma OutcomesCloseExactlyWhenTextFits(route: SelectedExecutionRoute, outcomes: seq<StepRecord>, context: RunContext)
    requires ReadyToClose(route, context) && |outcomes| < U32_BOUND && WellFormedRecords(outcomes)
    ensures PlanOutcomeStatus(route, outcomes, context).Valid() <==> ClosingFits(outcomes)
  {
    match DeclaredState(outcomes)
    case PartialSuccess => PartialClosesExactlyWhenTextFits(route, outcomes, context);
    case Failed => FailureCloses(route, outcomes, context);
    case Canceled => CancellationCloses(route, outcomes, context);
    case _ => OtherClosings(route, outcomes, context);
  }

  lemma RunIsReadyToClose(job: Assignment, capabilities: CapabilityRegistry, digest: Digest)
    requires Admitted(job, capabilities, digest) && CompletedRun(job).fault.None?
    requires job.context.startedAtUtc <= job.context.completedAtUtc
    ensures ReadyToClose(job.route, job.context) && |CompletedRun(job).outcomes| < U32_BOUND
  {
    FaultsPersist(job, 0, |job.Steps()|);
    StartedRunIsReady(job);
    RunHasBoundedRecords(job, capabilities, digest);
  }

  lemma StartedRunIsReady(job: Assignment)
    requires RunAfter(job, 0).fault.None? && job.context.startedAtUtc <= job.context.completedAtUtc
    ensures ReadyToClose(job.route, job.context)
  {
    assert RunAfter(job, 0) == StartRun(job);
  }

  lemma RunHasBoundedRecords(job: Assignment, capabilities: CapabilityRegistry, digest: Digest)
    requires Admitted(job, capabilities, digest) && CompletedRun(job).fault.None?
    ensures |CompletedRun(job).outcomes| < U32_BOUND
  {
    CompletedRunKeepsInvariant(job, capabilities, digest);
  }

  /** A partial success whose culprit was canceled, or had no registered adapter, always
      closes: 24 + 48 + 82 bytes stay within 160. */
  lemma CanceledOrMissingCulpritCloses(job: Assignment, capabilities: CapabilityRegistry, digest: Digest, k: nat)
    requires Admitted(job, capabilities, digest) && CompletedRun(job).fault.None?
    requires job.context.startedAtUtc <= job.context.completedAtUtc
    requires DeclaredState(CompletedRun(job).outcomes).PartialSuccess?
    requires IsFirst(CompletedRun(job).outcomes, NotComplete, k)
    requires var culprit := CompletedRun(job).outcomes[k].outcome;
             culprit.StepCanceled? ||
             exists capabilityId: CapabilityId :: culprit == StepUnavailable(MissingAdapterSummary(capabilityId))
    ensures Conclude(job, CompletedRun(job)).Success?
  {
    var outcomes := CompletedRun(job).outcomes;
    AttemptedRecordIdIsWellFormed(job, capabilities, digest, k);
    if outcomes[k].outcome.StepUnavailable? {
      var capabilityId: CapabilityId :| outcomes[k].outcome == StepUnavailable(MissingAdapterSummary(capabilityId));
      MissingAdapterSummaryLength(capabilityId);
    }
    var m := FirstWhereIsFirst(outcomes, NotComplete);
    assert m == k;
    RunClosesExactlyWhenTextFits(job, capabilities, digest);
  }

  /** One rescue closes exactly when its two step ids have at most 93 bytes together, so two
      well-formed ids can be too long for a run in which every step completed. */
  lemma SingleRescueFitsExactly(outcomes: seq<StepRecord>, k: nat, fallbackStepId: string)
    requires k < |outcomes| && outcomes[k].outcome == CompletedViaFallback(fallbackStepId)
    requires forall m :: 0 <= m < |outcomes| && m != k ==> outcomes[m].outcome.StepCompleted?
    ensures ClosingFits(outcomes) <==> |outcomes[k].stepId| + |fallbackStepId| <= 93
  {
    OneRescueOnePair(outcomes, k, fallbackStepId);
    assert UsedFallback(outcomes[k].outcome);
    assert |FALLBACK_SUMMARY_PREFIX| == 63;
  }

  lemma {:induction false} OneRescueOnePair(outcomes: seq<StepRecord>, k: nat, fallbackStepId: string)
    requires k < |outcomes| && outcomes[k].outcome == CompletedViaFallback(fallbackStepId)
    requires forall m :: 0 <= m < |outcomes| && m != k ==> outcomes[m].outcome.StepCompleted?
    ensures FallbackPairs(outcomes) == outcomes[k].stepId + " -> " + fallbackStepId
  {
    if k == 0 {
      PairsAreEmptyOnlyWithoutRescue(outcomes[1..]);
    } else {
      OneRescueOnePair(outcomes[1..], k - 1, fallbackStepId);
    }
  }
}

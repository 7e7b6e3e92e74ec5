/** Runs against the simplest adapters: every declared step has one, and chosen steps fail. */
module Probes {
  import opened Text
  import opened Vocabulary
  import opened Plans
  import opened PlanValidation
  import opened Status
  import opened Routing
  import opened Delivery
  import opened Traces
  import opened PerStepRun
  import opened DeliveryLedger
  import opened DeliveryTurns
  import opened DeliveryInvariants

  const PROBE_ADAPTER: AdapterId := "probe"
  const PROBE_FAILURE := "x"

  /** Adapters that complete every step but the given ones, which fail. */
  function FailThose(failing: set<string>): AdapterOracle {
    (history: seq<AdapterCall>, call: AdapterCall) =>
      if CalledStep(call) in failing then FailedAtDeclaredStep(CalledStep(call), PROBE_FAILURE) else DeliveredAllSteps
  }

  /** Every declared capability served by one adapter. */
  function FullRegistry(steps: seq<ExecutionPlanStep>): (registry: map<CapabilityId, AdapterId>)
    ensures forall step :: step in steps ==> step.capabilityId in registry
  {
    map id | id in DeclaredCapabilities(steps) :: PROBE_ADAPTER
  }

  function DeclaredCapabilities(steps: seq<ExecutionPlanStep>): set<CapabilityId> {
    set step | step in steps :: step.capabilityId
  }

  /** A route and context under which every declared step can be announced. */
  predicate Announceable(route: SelectedExecutionRoute, plan: ExecutionPlan, context: RunContext) {
    && Deliverable(route) && AdmittedStatus(route, context).Valid()
    && forall step :: step in plan.steps ==> IsValidStepId(step.stepId)
  }

  function Probe(v: ValidatedExecutionPlan, route: SelectedExecutionRoute, context: RunContext, failing: set<string>)
    : Assignment
  {
    Assignment(route, v, FullRegistry(v.plan.steps), FailThose(failing), context)
  }

  ghost predicate IsProbe(job: Assignment, failing: set<string>) {
    && job.registry == FullRegistry(job.Steps()) && job.adapters == FailThose(failing)
    && SoundPlan(job.validated.plan)
    && Announceable(job.route, job.validated.plan, job.context)
  }

  function ProbeOutcome(failing: set<string>, id: string): StepDeliveryOutcome {
    if id in failing then StepFailed(PROBE_FAILURE) else StepCompleted
  }

  /** `after` is `before` with one more announced and dispatched step. */
  ghost predicate Dispatched(before: Run, after: Run, id: string) {
    && SameBooks(before, after) && after.fault == before.fault
    && |after.calls| == |before.calls| + 1 && CalledStep(after.calls[|before.calls|]) == id
    && Attempts(after) == Attempts(before) + [id]
  }

  lemma ProbeAttempt(job: Assignment, failing: set<string>, run: Run, m: nat)
    requires IsProbe(job, failing) && m < |job.Steps()|
    ensures var attempted := Attempt(job, run, job.Steps()[m]);
            && attempted.Attempted? && Dispatched(run, attempted.run, Ids(job)[m])
            && attempted.outcome == ProbeOutcome(failing, Ids(job)[m])
  {
    var step := job.Steps()[m];
    WellFormedStepAnnounces(job.route, step.stepId, job.context);
    StartedStepsAppend(run.statuses, InProgressStatus(job.route, step.stepId, job.context));
  }

  // ---- Up to the first failing step --------------------------------------------------------

  /** A run that has only completed its own `m` steps so far. */
  ghost predicate OnCourse(run: Run, m: nat) {
    && run.fault.None? && run.fallbackResults == map[] && !run.stopDispatching
    && |run.outcomes| == |run.calls| == |Attempts(run)| == m
    && forall k :: 0 <= k < m ==> run.outcomes[k].outcome == StepCompleted
  }

  lemma ProbeStarts(job: Assignment, failing: set<string>)
    requires IsProbe(job, failing) && PassesGate(job.route, job.validated)
    ensures OnCourse(StartRun(job), 0)
  {
    var admitted := AdmittedStatus(job.route, job.context);
    StartedStepsAppend([], admitted);
    assert [] + [admitted] == StartRun(job).statuses;
  }

  lemma ProbeStaysOnCourse(job: Assignment, failing: set<string>, m: nat, run: Run)
    requires IsProbe(job, failing) && m < |job.Steps()| && Ids(job)[m] !in failing && OnCourse(run, m)
    ensures OnCourse(TakeTurn(job, run, job.Steps()[m]), m + 1)
  {
    ProbeAttempt(job, failing, run, m);
    var own := Attempt(job, run, job.Steps()[m]);
    assert TakeTurn(job, run, job.Steps()[m]) == Settle(job, own.run, job.Steps()[m], StepCompleted);
  }

  lemma {:induction false} ProbeReachesStep(job: Assignment, failing: set<string>, m: nat)
    requires IsProbe(job, failing) && PassesGate(job.route, job.validated) && m <= |job.Steps()|
    requires forall i :: 0 <= i < m ==> Ids(job)[i] !in failing
    ensures OnCourse(RunAfter(job, m), m)
  {
    if m == 0 {
      ProbeStarts(job, failing);
    } else {
      ProbeReachesStep(job, failing, m - 1);
      ProbeStaysOnCourse(job, failing, m - 1, RunAfter(job, m - 1));
    }
  }

  // ---- At a failing step -------------------------------------------------------------------

  /** Step `k` failed and `fallbackId` was tried: announced and called right after it. */
  ghost predicate Tried(failing: set<string>, k: nat, fallbackId: string, run: Run) {
    && run.fault.None? && run.fallbackResults == map[fallbackId := ProbeOutcome(failing, fallbackId)]
    && |run.outcomes| == k + 1 && (forall i :: 0 <= i < k ==> run.outcomes[i].outcome == StepCompleted)
    && run.outcomes[k].outcome ==
       RescuedOutcome(StepFailed(PROBE_FAILURE), fallbackId, ProbeOutcome(failing, fallbackId))
    && |run.calls| == k + 2 && CalledStep(run.calls[k + 1]) == fallbackId
    && |Attempts(run)| == k + 2 && Attempts(run)[k + 1] == fallbackId
    && (fallbackId !in failing ==> !run.stopDispatching)
  }

  /** Step `k` has just failed on its own, after `k` completions. */
  ghost predicate JustFailed(run: Run, k: nat) {
    && run.fault.None? && run.fallbackResults == map[] && !run.stopDispatching
    && |run.outcomes| == k && |run.calls| == |Attempts(run)| == k + 1
    && forall i :: 0 <= i < k ==> run.outcomes[i].outcome == StepCompleted
  }

  lemma FallbackIsTried(job: Assignment, failing: set<string>, k: nat, run: Run)
    requires IsProbe(job, failing) && k < |job.Steps()| && JustFailed(run, k)
    requires FirstReference(job.validated.plan.fallbackReferences, Ids(job)[k]).Some?
    ensures Tried(failing, k, FirstReference(job.validated.plan.fallbackReferences, Ids(job)[k]).value.fallbackStepId,
                  AfterOwnAttempt(job, run, job.Steps()[k], StepFailed(PROBE_FAILURE)))
  {
    var j := ChosenFallbackIsLater(job, k, map[]);
    var ahead := FirstReferenceIsAhead(job, k);
    assert MayUseFallback(job, k, ahead, map[]);
    ProbeAttempt(job, failing, run, j);
  }

  lemma ProbeTriesFirstFallback(job: Assignment, failing: set<string>, k: nat, run: Run)
    requires IsProbe(job, failing) && k < |job.Steps()| && Ids(job)[k] in failing && OnCourse(run, k)
    requires FirstReference(job.validated.plan.fallbackReferences, Ids(job)[k]).Some?
    ensures Tried(failing, k, FirstReference(job.validated.plan.fallbackReferences, Ids(job)[k]).value.fallbackStepId,
                  TakeTurn(job, run, job.Steps()[k]))
  {
    ProbeAttempt(job, failing, run, k);
    FallbackIsTried(job, failing, k, Attempt(job, run, job.Steps()[k]).run);
  }

  lemma ProbeTriesAt(job: Assignment, failing: set<string>, k: nat)
    requires IsProbe(job, failing) && PassesGate(job.route, job.validated) && k < |job.Steps()|
    requires Ids(job)[k] in failing && forall i :: 0 <= i < k ==> Ids(job)[i] !in failing
    requires FirstReference(job.validated.plan.fallbackReferences, Ids(job)[k]).Some?
    ensures Tried(failing, k, FirstReference(job.validated.plan.fallbackReferences, Ids(job)[k]).value.fallbackStepId,
                  RunAfter(job, k + 1))
  {
    ProbeReachesStep(job, failing, k);
    ProbeTriesFirstFallback(job, failing, k, RunAfter(job, k));
  }

  // ---- Whole probe runs --------------------------------------------------------------------

  ghost predicate Unfaulted(run: Run) {
    run.fault.None?
  }

  lemma ProbeTurnNeverFaults(job: Assignment, failing: set<string>, m: nat, run: Run)
    requires IsProbe(job, failing) && m < |job.Steps()| && Unfaulted(run)
    ensures Unfaulted(TakeTurn(job, run, job.Steps()[m]))
  {
    var step := job.Steps()[m];
    ProbeAttempt(job, failing, run, m);
    var own := Attempt(job, run, step);
    ProbeRestNeverFaults(job, failing, m, own.run, own.outcome);
  }

  lemma ProbeRestNeverFaults(job: Assignment, failing: set<string>, m: nat, run: Run, own: StepDeliveryOutcome)
    requires IsProbe(job, failing) && m < |job.Steps()| && Unfaulted(run)
    ensures Unfaulted(AfterOwnAttempt(job, run, job.Steps()[m], own))
  {
    var j := ChosenFallbackIsLater(job, m, run.fallbackResults);
    if DeclaredFallbackStep(job.validated.plan, Ids(job)[m], run.fallbackResults).Some? {
      ProbeAttempt(job, failing, run, j);
    }
  }

  lemma ProbeStartsUnfaulted(job: Assignment, failing: set<string>)
    requires IsProbe(job, failing) && PassesGate(job.route, job.validated)
    ensures Unfaulted(RunAfter(job, 0))
  {
    ProbeStarts(job, failing);
  }

  lemma NextTurnNeverFaults(job: Assignment, failing: set<string>, n: nat)
    requires IsProbe(job, failing) && n < |job.Steps()| && Unfaulted(RunAfter(job, n))
    ensures Unfaulted(RunAfter(job, n + 1))
  {
    ProbeTurnNeverFaults(job, failing, n, RunAfter(job, n));
  }

  lemma {:induction false} ProbeNeverFaults(job: Assignment, failing: set<string>, n: nat)
    requires IsProbe(job, failing) && PassesGate(job.route, job.validated) && n <= |job.Steps()|
    ensures Unfaulted(RunAfter(job, n))
  {
    if n == 0 {
      ProbeStartsUnfaulted(job, failing);
    } else {
      ProbeNeverFaults(job, failing, n - 1);
      NextTurnNeverFaults(job, failing, n - 1);
    }
  }
}

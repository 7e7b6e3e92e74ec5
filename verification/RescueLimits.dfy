/** Runs in which every step completes: what they can record, and when they cannot close. */
module RescueLimits {
  import opened Wrappers
  import opened Orders
  import opened Text
  import opened Vocabulary
  import opened Plans
  import opened CanonicalPlans
  import opened PlanValidation
  import opened Routing
  import opened Delivery
  import opened PerStepRun
  import opened DeliveryLedger
  import opened DeliveryTurns
  import opened DeliveryInvariants
  import opened DeliveryTheorems
  import opened Aggregation
  import opened DeliveryTraces
  import opened Probes
  import opened WitnessPlans

  /** The step that is tried when `id` does not complete. */
  function Rescuer(plan: ExecutionPlan, id: string): Option<string> {
    match FirstReference(plan.fallbackReferences, id)
    case None => None
    case Some(reference) => Some(reference.fallbackStepId)
  }

  /** All these steps could be rescued in one run: each has a rescuer that is not one of them,
      and no two share one. */
  ghost predicate CanAllBeRescued(plan: ExecutionPlan, rescued: set<string>) {
    && (forall id :: id in rescued ==>
        id in StepIds(plan.steps) && Rescuer(plan, id).Some? && Rescuer(plan, id).value !in rescued)
    && (forall a, b :: a in rescued && b in rescued && Rescuer(plan, a) == Rescuer(plan, b) ==> a == b)
  }

  /** The record of a step in a run that rescues exactly the given ones. */
  function RescueRecord(plan: ExecutionPlan, rescued: set<string>, id: string): StepRecord {
    var rescuer := Rescuer(plan, id);
    StepRecord(id, if id in rescued && rescuer.Some? then CompletedViaFallback(rescuer.value) else StepCompleted)
  }

  function RescueRecords(plan: ExecutionPlan, rescued: set<string>): (records: seq<StepRecord>)
    ensures |records| == |plan.steps|
    ensures forall k :: 0 <= k < |plan.steps| ==> records[k] == RescueRecord(plan, rescued, plan.steps[k].stepId)
  {
    seq(|plan.steps|, k requires 0 <= k < |plan.steps| => RescueRecord(plan, rescued, plan.steps[k].stepId))
  }

  /** The rescues as the closing status lists them. */
  function RescueList(plan: ExecutionPlan, rescued: set<string>): string {
    FallbackPairs(RescueRecords(plan, rescued))
  }

  // ---- What a run in which every step completes has recorded ---------------------------------

  function RescuedIds(outcomes: seq<StepRecord>): (ids: set<string>)
    ensures forall id :: id in ids <==>
              exists k :: 0 <= k < |outcomes| && outcomes[k].stepId == id && UsedFallback(outcomes[k].outcome)
  {
    set k | 0 <= k < |outcomes| && UsedFallback(outcomes[k].outcome) :: outcomes[k].stepId
  }

  lemma RescuedIdsAreTheRescued(outcomes: seq<StepRecord>, ids: seq<string>, k: nat)
    requires RecordIds(outcomes, ids) && NoDuplicates(ids) && k < |ids|
    ensures ids[k] in RescuedIds(outcomes) <==> UsedFallback(outcomes[k].outcome)
  {
  }

  /** The rescues of these records are sound, and no step rescued two. */
  ghost predicate SoundRecords(job: Assignment, outcomes: seq<StepRecord>) {
    && NoDuplicates(Ids(job)) && RecordIds(outcomes, Ids(job)) && AllComplete(outcomes)
    && (forall k: nat :: k < |outcomes| && UsedFallback(outcomes[k].outcome) ==>
        exists j: nat :: IsRescue(job, outcomes, k, j))
    && (forall k: nat, m: nat, j: nat | k < |outcomes| && m < |outcomes| &&
          IsRescue(job, outcomes, k, j) && IsRescue(job, outcomes, m, j) :: k == m)
  }

  lemma CompleteRunIsSound(job: Assignment, capabilities: CapabilityRegistry, digest: Digest)
    requires Admitted(job, capabilities, digest) && CompletedRun(job).fault.None?
    requires AllComplete(CompletedRun(job).outcomes)
    ensures SoundRecords(job, CompletedRun(job).outcomes)
  {
    ValidPlanIsSoundAndAcyclic(job.validated.plan, capabilities, digest, []);
    OutcomesConservePlan(job, capabilities, digest);
    RescuesAreSound(job, capabilities, digest);
  }

  lemma RescueNamesRescuer(job: Assignment, outcomes: seq<StepRecord>, k: nat) returns (j: nat)
    requires SoundRecords(job, outcomes) && k < |outcomes| && UsedFallback(outcomes[k].outcome)
    ensures IsRescue(job, outcomes, k, j) && j < |Ids(job)| &&
            Rescuer(job.validated.plan, Ids(job)[k]) == Some(Ids(job)[j])
    ensures Ids(job)[j] !in RescuedIds(outcomes)
  {
    j :| IsRescue(job, outcomes, k, j);
    RescuedIdsAreTheRescued(outcomes, Ids(job), j);
  }

  lemma RescuedIdHasRecord(job: Assignment, outcomes: seq<StepRecord>, id: string) returns (k: nat)
    requires SoundRecords(job, outcomes) && id in RescuedIds(outcomes)
    ensures k < |outcomes| == |Ids(job)| && Ids(job)[k] == id && UsedFallback(outcomes[k].outcome)
  {
    k :| 0 <= k < |outcomes| && outcomes[k].stepId == id && UsedFallback(outcomes[k].outcome);
  }

  lemma RescuersDiffer(job: Assignment, outcomes: seq<StepRecord>, k: nat, m: nat)
    requires SoundRecords(job, outcomes) && k < |outcomes| == |Ids(job)| && m < |outcomes|
    requires UsedFallback(outcomes[k].outcome) && UsedFallback(outcomes[m].outcome)
    requires Rescuer(job.validated.plan, Ids(job)[k]) == Rescuer(job.validated.plan, Ids(job)[m])
    ensures k == m
  {
    var i := RescueNamesRescuer(job, outcomes, k);
    var j := RescueNamesRescuer(job, outcomes, m);
    assert Ids(job)[i] == Ids(job)[j];
    assert i == j;
  }

  lemma SoundRecordsRescueTogether(job: Assignment, outcomes: seq<StepRecord>)
    requires SoundRecords(job, outcomes)
    ensures CanAllBeRescued(job.validated.plan, RescuedIds(outcomes))
  {
    var plan, rescued := job.validated.plan, RescuedIds(outcomes);
    forall id | id in rescued
      ensures id in StepIds(plan.steps) && Rescuer(plan, id).Some? && Rescuer(plan, id).value !in rescued
    {
      var k := RescuedIdHasRecord(job, outcomes, id);
      var j := RescueNamesRescuer(job, outcomes, k);
    }
    forall a, b | a in rescued && b in rescued && Rescuer(plan, a) == Rescuer(plan, b) ensures a == b {
      var k := RescuedIdHasRecord(job, outcomes, a);
      var m := RescuedIdHasRecord(job, outcomes, b);
      RescuersDiffer(job, outcomes, k, m);
    }
  }

  lemma SoundRecordsAreRescueRecords(job: Assignment, outcomes: seq<StepRecord>)
    requires SoundRecords(job, outcomes)
    ensures outcomes == RescueRecords(job.validated.plan, RescuedIds(outcomes))
  {
    var plan, rescued, ids := job.validated.plan, RescuedIds(outcomes), Ids(job);
    forall k | 0 <= k < |outcomes| ensures outcomes[k] == RescueRecord(plan, rescued, ids[k]) {
      RescuedIdsAreTheRescued(outcomes, ids, k);
      if UsedFallback(outcomes[k].outcome) {
        var j := RescueNamesRescuer(job, outcomes, k);
      }
    }
  }

  // ---- Every such list of records comes about ------------------------------------------------

  /** A waiting result is the completion of the rescuer of an earlier step. */
  ghost predicate RescuedEarlier(plan: ExecutionPlan, rescued: set<string>, n: nat, id: string) {
    exists m :: 0 <= m < n && m < |plan.steps| && plan.steps[m].stepId in rescued &&
                Rescuer(plan, plan.steps[m].stepId) == Some(id)
  }

  /** After `n` turns every step so far has completed, those in `rescued` by their rescuers. */
  ghost predicate OnlyRescues(job: Assignment, rescued: set<string>, n: nat, run: Run) {
    && run.fault.None? && !run.stopDispatching && n <= |job.Steps()|
    && run.outcomes == RescueRecords(job.validated.plan, rescued)[..n]
    && forall id :: id in run.fallbackResults ==>
         run.fallbackResults[id] == StepCompleted && RescuedEarlier(job.validated.plan, rescued, n, id)
  }

  /** Adapters fail exactly the steps to be rescued. */
  ghost predicate FailsTheRescued(job: Assignment, rescued: set<string>) {
    && IsProbe(job, rescued) && PassesGate(job.route, job.validated)
    && CanAllBeRescued(job.validated.plan, rescued)
  }

  lemma WaitingSurvives(plan: ExecutionPlan, rescued: set<string>, n: nat, id: string)
    requires RescuedEarlier(plan, rescued, n, id)
    ensures RescuedEarlier(plan, rescued, n + 1, id)
  {
  }

  /** One more record leaves only rescues, if what waits is accounted for. */
  lemma RecordKeepsOnlyRescues(job: Assignment, rescued: set<string>, n: nat, run: Run, next: Run)
    requires OnlyRescues(job, rescued, n, run) && n < |job.Steps()|
    requires next.fault.None? && !next.stopDispatching
    requires next.outcomes == run.outcomes + [RescueRecord(job.validated.plan, rescued, Ids(job)[n])]
    requires forall id :: id in next.fallbackResults ==>
               next.fallbackResults[id] == StepCompleted &&
               (id in run.fallbackResults || RescuedEarlier(job.validated.plan, rescued, n + 1, id))
    ensures OnlyRescues(job, rescued, n + 1, next)
  {
    forall id | id in next.fallbackResults ensures RescuedEarlier(job.validated.plan, rescued, n + 1, id) {
      if id in run.fallbackResults {
        WaitingSurvives(job.validated.plan, rescued, n, id);
      }
    }
    var records := RescueRecords(job.validated.plan, rescued);
    assert records[..n + 1] == records[..n] + [records[n]];
  }

  lemma WaitingStepIsNotRescued(job: Assignment, rescued: set<string>, n: nat, id: string)
    requires FailsTheRescued(job, rescued) && RescuedEarlier(job.validated.plan, rescued, n, id)
    ensures id !in rescued
  {
  }

  lemma ReuseTurn(job: Assignment, rescued: set<string>, n: nat, run: Run)
    requires FailsTheRescued(job, rescued) && n < |job.Steps()| && OnlyRescues(job, rescued, n, run)
    requires Ids(job)[n] in run.fallbackResults
    ensures OnlyRescues(job, rescued, n + 1, TakeTurn(job, run, job.Steps()[n]))
  {
    WaitingStepIsNotRescued(job, rescued, n, Ids(job)[n]);
    RecordKeepsOnlyRescues(job, rescued, n, run, TakeTurn(job, run, job.Steps()[n]));
  }

  lemma CompletingTurn(job: Assignment, rescued: set<string>, n: nat, run: Run)
    requires FailsTheRescued(job, rescued) && n < |job.Steps()| && OnlyRescues(job, rescued, n, run)
    requires Ids(job)[n] !in run.fallbackResults && Ids(job)[n] !in rescued
    ensures OnlyRescues(job, rescued, n + 1, TakeTurn(job, run, job.Steps()[n]))
  {
    ProbeAttempt(job, rescued, run, n);
    var own := Attempt(job, run, job.Steps()[n]);
    assert TakeTurn(job, run, job.Steps()[n]) == Settle(job, own.run, job.Steps()[n], StepCompleted);
    RecordKeepsOnlyRescues(job, rescued, n, run, TakeTurn(job, run, job.Steps()[n]));
  }

  /** The rescuer of a step is still free when its turn comes: it can wait only for another step. */
  lemma RescuerIsFree(job: Assignment, rescued: set<string>, n: nat, run: Run)
    requires FailsTheRescued(job, rescued) && n < |job.Steps()| && OnlyRescues(job, rescued, n, run)
    requires Ids(job)[n] in rescued
    ensures Rescuer(job.validated.plan, Ids(job)[n]).Some?
    ensures Rescuer(job.validated.plan, Ids(job)[n]).value !in run.fallbackResults
  {
    var plan := job.validated.plan;
    forall m | 0 <= m < n && plan.steps[m].stepId in rescued
      ensures Rescuer(plan, plan.steps[m].stepId) != Rescuer(plan, Ids(job)[n])
    {
      assert Ids(job)[m] != Ids(job)[n];
    }
  }

  lemma RescuingTurn(job: Assignment, rescued: set<string>, n: nat, run: Run)
    requires FailsTheRescued(job, rescued) && n < |job.Steps()| && OnlyRescues(job, rescued, n, run)
    requires Ids(job)[n] !in run.fallbackResults && Ids(job)[n] in rescued
    ensures OnlyRescues(job, rescued, n + 1, TakeTurn(job, run, job.Steps()[n]))
  {
    RescuerIsFree(job, rescued, n, run);
    ProbeAttempt(job, rescued, run, n);
    var own := Attempt(job, run, job.Steps()[n]);
    var next := AfterOwnAttempt(job, own.run, job.Steps()[n], StepFailed(PROBE_FAILURE));
    assert TakeTurn(job, run, job.Steps()[n]) == next;
    FreeRescuerRescues(job, rescued, n, own.run);
    var rescuer := Rescuer(job.validated.plan, Ids(job)[n]).value;
    assert RescuedEarlier(job.validated.plan, rescued, n + 1, rescuer);
    RecordKeepsOnlyRescues(job, rescued, n, run, next);
  }

  lemma FreeRescuerIsTried(job: Assignment, n: nat, waiting: map<string, StepDeliveryOutcome>) returns (j: nat)
    requires SoundPlan(job.validated.plan) && n < |job.Steps()|
    requires Rescuer(job.validated.plan, Ids(job)[n]).Some? &&
             Rescuer(job.validated.plan, Ids(job)[n]).value !in waiting
    ensures j < |job.Steps()| && Ids(job)[j] == Rescuer(job.validated.plan, Ids(job)[n]).value
    ensures DeclaredFallbackStep(job.validated.plan, Ids(job)[n], waiting) == Some(job.Steps()[j])
  {
    j := ChosenFallbackIsLater(job, n, waiting);
    var ahead := FirstReferenceIsAhead(job, n);
    assert MayUseFallback(job, n, ahead, waiting);
  }

  /** The run right after a rescue. */
  ghost predicate RescuedNow(run: Run, next: Run, record: StepRecord, rescuer: string) {
    && next.fault.None? && !next.stopDispatching
    && next.outcomes == run.outcomes + [record]
    && next.fallbackResults == run.fallbackResults[rescuer := StepCompleted]
  }

  lemma RescueSettles(job: Assignment, run: Run, step: ExecutionPlanStep, rescuer: ExecutionPlanStep, after: Run)
    requires DeclaredFallbackStep(job.validated.plan, step.stepId, run.fallbackResults) == Some(rescuer)
    requires Attempt(job, run, rescuer) == Attempted(after, StepCompleted)
    requires SameBooks(run, after) && after.fault.None? && !after.stopDispatching
    ensures RescuedNow(run, AfterOwnAttempt(job, run, step, StepFailed(PROBE_FAILURE)),
                       StepRecord(step.stepId, CompletedViaFallback(rescuer.stepId)), rescuer.stepId)
  {
  }

  /** The turn of a failed step whose rescuer is free ends in a rescue. */
  lemma FreeRescuerRescues(job: Assignment, rescued: set<string>, n: nat, run: Run)
    requires FailsTheRescued(job, rescued) && n < |job.Steps()| && run.fault.None? && !run.stopDispatching
    requires Ids(job)[n] in rescued && Rescuer(job.validated.plan, Ids(job)[n]).Some?
    requires Rescuer(job.validated.plan, Ids(job)[n]).value !in run.fallbackResults
    ensures RescuedNow(run, AfterOwnAttempt(job, run, job.Steps()[n], StepFailed(PROBE_FAILURE)),
                       RescueRecord(job.validated.plan, rescued, Ids(job)[n]),
                       Rescuer(job.validated.plan, Ids(job)[n]).value)
  {
    var j := FreeRescuerIsTried(job, n, run.fallbackResults);
    ProbeAttempt(job, rescued, run, j);
    RescueSettles(job, run, job.Steps()[n], job.Steps()[j], Attempt(job, run, job.Steps()[j]).run);
  }

  lemma RescueTurn(job: Assignment, rescued: set<string>, n: nat, run: Run)
    requires FailsTheRescued(job, rescued) && n < |job.Steps()| && OnlyRescues(job, rescued, n, run)
    ensures OnlyRescues(job, rescued, n + 1, TakeTurn(job, run, job.Steps()[n]))
  {
    if Ids(job)[n] in run.fallbackResults {
      ReuseTurn(job, rescued, n, run);
    } else if Ids(job)[n] in rescued {
      RescuingTurn(job, rescued, n, run);
    } else {
      CompletingTurn(job, rescued, n, run);
    }
  }

  lemma NothingIsRescuedAtFirst(job: Assignment, rescued: set<string>, run: Run)
    requires OnCourse(run, 0)
    ensures OnlyRescues(job, rescued, 0, run)
  {
  }

  lemma RescuingStarts(job: Assignment, rescued: set<string>)
    requires FailsTheRescued(job, rescued)
    ensures OnlyRescues(job, rescued, 0, RunAfter(job, 0))
  {
    ProbeReachesStep(job, rescued, 0);
    NothingIsRescuedAtFirst(job, rescued, RunAfter(job, 0));
  }

  lemma NextTurnRescues(job: Assignment, rescued: set<string>, n: nat)
    requires FailsTheRescued(job, rescued) && n < |job.Steps()| && OnlyRescues(job, rescued, n, RunAfter(job, n))
    ensures OnlyRescues(job, rescued, n + 1, RunAfter(job, n + 1))
  {
    RescueTurn(job, rescued, n, RunAfter(job, n));
  }

  lemma {:induction false} FailuresAreRescued(job: Assignment, rescued: set<string>, n: nat)
    requires FailsTheRescued(job, rescued) && n <= |job.Steps()|
    ensures OnlyRescues(job, rescued, n, RunAfter(job, n))
  {
    if n == 0 {
      RescuingStarts(job, rescued);
    } else {
      FailuresAreRescued(job, rescued, n - 1);
      NextTurnRescues(job, rescued, n - 1);
    }
  }

  lemma RescuedRunRecordsTheRescues(job: Assignment, rescued: set<string>)
    requires FailsTheRescued(job, rescued)
    ensures CompletedRun(job).fault.None? && AllComplete(CompletedRun(job).outcomes)
    ensures CompletedRun(job).outcomes == RescueRecords(job.validated.plan, rescued)
  {
    FailuresAreRescued(job, rescued, |job.Steps()|);
    var records := RescueRecords(job.validated.plan, rescued);
    assert records[..|job.Steps()|] == records;
  }

  /** A run of this plan that met no fault and in which every step completed. */
  ghost predicate CompletesWith(v: ValidatedExecutionPlan, route: SelectedExecutionRoute, context: RunContext,
                                registry: map<CapabilityId, AdapterId>, adapters: AdapterOracle,
                                outcomes: seq<StepRecord>)
  {
    var run := CompletedRun(Assignment(route, v, registry, adapters, context));
    run.fault.None? && run.outcomes == outcomes && AllComplete(outcomes)
  }

  lemma CompleteRunRescuesTogether(v: ValidatedExecutionPlan, route: SelectedExecutionRoute, context: RunContext,
                                   registry: map<CapabilityId, AdapterId>, adapters: AdapterOracle,
                                   outcomes: seq<StepRecord>, capabilities: CapabilityRegistry, digest: Digest)
    requires IsValidatedPlan(v, capabilities, digest) && CompletesWith(v, route, context, registry, adapters, outcomes)
    ensures CanAllBeRescued(v.plan, RescuedIds(outcomes)) && outcomes == RescueRecords(v.plan, RescuedIds(outcomes))
  {
    var job := Assignment(route, v, registry, adapters, context);
    CompleteRunIsSound(job, capabilities, digest);
    SoundRecordsRescueTogether(job, outcomes);
    SoundRecordsAreRescueRecords(job, outcomes);
  }

  lemma RescuesComeAbout(v: ValidatedExecutionPlan, route: SelectedExecutionRoute, context: RunContext,
                         rescued: set<string>)
    requires SoundPlan(v.plan) && PassesGate(route, v) && Announceable(route, v.plan, context)
    requires CanAllBeRescued(v.plan, rescued)
    ensures CompletesWith(v, route, context, FullRegistry(v.plan.steps), FailThose(rescued),
                          RescueRecords(v.plan, rescued))
  {
    RescuedRunRecordsTheRescues(Probe(v, route, context, rescued), rescued);
  }

  /** What runs in which every step completes can record, over every registry and every adapter:
      exactly the records of the step sets whose rescuers are distinct and outside the set. */
  lemma CompleteRunsAreTheRescueSets(v: ValidatedExecutionPlan, route: SelectedExecutionRoute, context: RunContext,
                                     outcomes: seq<StepRecord>, capabilities: CapabilityRegistry, digest: Digest)
    requires IsValidatedPlan(v, capabilities, digest) && PassesGate(route, v) && Announceable(route, v.plan, context)
    ensures (exists registry: map<CapabilityId, AdapterId>, adapters: AdapterOracle ::
               CompletesWith(v, route, context, registry, adapters, outcomes)) <==>
            (exists rescued: set<string> ::
               CanAllBeRescued(v.plan, rescued) && outcomes == RescueRecords(v.plan, rescued))
  {
    ValidPlanIsSoundAndAcyclic(v.plan, capabilities, digest, []);
    if registry: map<CapabilityId, AdapterId>, adapters: AdapterOracle :|
      CompletesWith(v, route, context, registry, adapters, outcomes)
    {
      CompleteRunRescuesTogether(v, route, context, registry, adapters, outcomes, capabilities, digest);
    }
    if rescued: set<string> :| CanAllBeRescued(v.plan, rescued) && outcomes == RescueRecords(v.plan, rescued) {
      RescuesComeAbout(v, route, context, rescued);
    }
  }

  // ---- When all such runs close --------------------------------------------------------------

  /** What the fixed part of the closing text leaves for the list of rescues. */
  const RESCUE_LIST_BOUND: nat := 97

  lemma RescueListDecides(plan: ExecutionPlan, rescued: set<string>)
    requires AllComplete(RescueRecords(plan, rescued))
    ensures ClosingFits(RescueRecords(plan, rescued)) <==> |RescueList(plan, rescued)| <= RESCUE_LIST_BOUND
  {
    PairsAreEmptyOnlyWithoutRescue(RescueRecords(plan, rescued));
    assert |FALLBACK_SUMMARY_PREFIX| == 63;
  }

  lemma CompleteRunClosesExactlyWhenListFits(job: Assignment, rescued: set<string>, capabilities: CapabilityRegistry,
                                             digest: Digest)
    requires Admitted(job, capabilities, digest) && job.context.startedAtUtc <= job.context.completedAtUtc
    requires CompletedRun(job).fault.None? && AllComplete(CompletedRun(job).outcomes)
    requires CompletedRun(job).outcomes == RescueRecords(job.validated.plan, rescued)
    ensures Conclude(job, CompletedRun(job)).Success? <==>
              |RescueList(job.validated.plan, rescued)| <= RESCUE_LIST_BOUND
  {
    RunClosesExactlyWhenTextFits(job, capabilities, digest);
    RescueListDecides(job.validated.plan, rescued);
  }

  /** Every run of this plan in which every step completes ends in a trace. */
  ghost predicate CompleteRunsClose(v: ValidatedExecutionPlan, route: SelectedExecutionRoute, context: RunContext) {
    forall registry: map<CapabilityId, AdapterId>, adapters: AdapterOracle, outcomes: seq<StepRecord> ::
      CompletesWith(v, route, context, registry, adapters, outcomes) ==> Closes(v, route, context, registry, adapters)
  }

  ghost predicate Closes(v: ValidatedExecutionPlan, route: SelectedExecutionRoute, context: RunContext,
                         registry: map<CapabilityId, AdapterId>, adapters: AdapterOracle)
  {
    var job := Assignment(route, v, registry, adapters, context);
    Conclude(job, CompletedRun(job)).Success?
  }

  /** Any steps of the plan that could be rescued together have a list that fits. */
  ghost predicate RescueListsFit(plan: ExecutionPlan) {
    forall rescued: set<string> :: CanAllBeRescued(plan, rescued) ==> |RescueList(plan, rescued)| <= RESCUE_LIST_BOUND
  }

  /** The condition on the plan: its completed runs all close, over every registry and every
      adapter, if and only if every list of rescues it admits fits. */
  lemma CompleteRunsCloseExactlyWhenRescueListsFit(v: ValidatedExecutionPlan, route: SelectedExecutionRoute,
                                                   context: RunContext, capabilities: CapabilityRegistry,
                                                   digest: Digest)
    requires IsValidatedPlan(v, capabilities, digest) && PassesGate(route, v) && Announceable(route, v.plan, context)
    requires context.startedAtUtc <= context.completedAtUtc
    ensures CompleteRunsClose(v, route, context) <==> RescueListsFit(v.plan)
  {
    ValidPlanIsSoundAndAcyclic(v.plan, capabilities, digest, []);
    forall registry: map<CapabilityId, AdapterId>, adapters: AdapterOracle, outcomes: seq<StepRecord> |
      RescueListsFit(v.plan) && CompletesWith(v, route, context, registry, adapters, outcomes)
      ensures Closes(v, route, context, registry, adapters)
    {
      CompleteRunRescuesTogether(v, route, context, registry, adapters, outcomes, capabilities, digest);
      CompleteRunClosesExactlyWhenListFits(Assignment(route, v, registry, adapters, context), RescuedIds(outcomes),
                                           capabilities, digest);
    }
    forall rescued: set<string> | CompleteRunsClose(v, route, context) && CanAllBeRescued(v.plan, rescued)
      ensures |RescueList(v.plan, rescued)| <= RESCUE_LIST_BOUND
    {
      RescuesComeAbout(v, route, context, rescued);
      CompleteRunClosesExactlyWhenListFits(Probe(v, route, context, rescued), rescued, capabilities, digest);
      assert Closes(v, route, context, FullRegistry(v.plan.steps), FailThose(rescued));
    }
  }

  // ---- One failing step ----------------------------------------------------------------------

  /** A run in which only step `k`, which has a fallback, fails. */
  ghost predicate FailsOnce(job: Assignment, k: nat) {
    && k < |job.Steps()| && IsProbe(job, {Ids(job)[k]}) && PassesGate(job.route, job.validated)
    && Rescuer(job.validated.plan, Ids(job)[k]).Some?
  }

  lemma OneFailureIsRescued(job: Assignment, k: nat)
    requires FailsOnce(job, k)
    ensures FailsTheRescued(job, {Ids(job)[k]})
  {
    FallbackIsLater(job.validated.plan, FirstReference(job.validated.plan.fallbackReferences, Ids(job)[k]).value);
  }

  lemma OneRescueListed(plan: ExecutionPlan, k: nat)
    requires NoDuplicates(StepIds(plan.steps)) && k < |plan.steps| && Rescuer(plan, plan.steps[k].stepId).Some?
    ensures |RescueList(plan, {plan.steps[k].stepId})| ==
            |plan.steps[k].stepId| + 4 + |Rescuer(plan, plan.steps[k].stepId).value|
  {
    var ids := StepIds(plan.steps);
    forall m | 0 <= m < |plan.steps| && m != k ensures ids[m] != ids[k] {
    }
    OneRescueOnePair(RescueRecords(plan, {plan.steps[k].stepId}), k, Rescuer(plan, plan.steps[k].stepId).value);
  }

  /** When a step that has a fallback is the only one to fail, every step of the plan completes,
      and the run closes exactly when the step's id and its fallback's fit 93 bytes together. */
  lemma RescuedRunClosesExactlyWhenIdsFit(job: Assignment, k: nat, capabilities: CapabilityRegistry, digest: Digest)
    requires Admitted(job, capabilities, digest) && FailsOnce(job, k)
    requires job.context.startedAtUtc <= job.context.completedAtUtc
    ensures AllComplete(CompletedRun(job).outcomes) && |CompletedRun(job).outcomes| == |job.Steps()|
    ensures Conclude(job, CompletedRun(job)).Success? <==>
            |Ids(job)[k]| + |Rescuer(job.validated.plan, Ids(job)[k]).value| <= 93
  {
    var rescued := {Ids(job)[k]};
    OneFailureIsRescued(job, k);
    RescuedRunRecordsTheRescues(job, rescued);
    OneRescueListed(job.validated.plan, k);
    CompleteRunClosesExactlyWhenListFits(job, rescued, capabilities, digest);
  }

  // ---- A plan of two steps, the second a fallback of the first -------------------------------

  function Pair(first: string, second: string, digest: Digest): ValidatedExecutionPlan {
    Witness([first, second], [FallbackReference(first, second)], digest)
  }

  lemma PairIsValidated(first: string, second: string, digest: Digest)
    requires first != second
    ensures IsValidatedPlan(Pair(first, second, digest), WitnessCapabilities(), digest)
  {
    var steps := MapSeq(WitnessStep, [first, second]);
    assert steps[0].stepId == first && steps[1].stepId == second;
    WitnessIsValidated([first, second], [FallbackReference(first, second)], digest);
  }

  function PairProbe(first: string, second: string, digest: Digest, context: RunContext): Assignment {
    var v := Pair(first, second, digest);
    Probe(v, WitnessRoute(v), context, {first})
  }

  lemma PairFailsOnce(first: string, second: string, digest: Digest, context: RunContext)
    requires first != second && IsValidStepId(first) && IsValidStepId(second)
    requires IsValidHash(Pair(first, second, digest).stablePlanHash)
    ensures var job := PairProbe(first, second, digest, context);
            Ids(job) == [first, second] && FailsOnce(job, 0) && Rescuer(job.validated.plan, first) == Some(second)
  {
    var v := Pair(first, second, digest);
    PairIsValidated(first, second, digest);
    ValidPlanIsSoundAndAcyclic(v.plan, WitnessCapabilities(), digest, []);
    WitnessIsAnnounceable(v, context);
    assert Ids(PairProbe(first, second, digest, context)) == [first, second];
  }

  /** A validated plan with two well-formed 48-byte ids, and a run of it in which every step
      completes and which still ends in an error. */
  lemma EveryStepCompletesAndTheRunFails(digest: Digest, context: RunContext)
    requires forall plan :: IsValidHash(digest(plan))
    requires context.startedAtUtc <= context.completedAtUtc
    ensures var first, second := seq(48, i => 'a'), seq(48, i => 'b');
            var job := PairProbe(first, second, digest, context);
            && IsValidStepId(first) && IsValidStepId(second) && Admitted(job, WitnessCapabilities(), digest)
            && IsSelectedFor(job.route, job.validated)
            && AllComplete(CompletedRun(job).outcomes) && |CompletedRun(job).outcomes| == 2
            && Conclude(job, CompletedRun(job)).Failure?
  {
    var first, second := seq(48, i => 'a'), seq(48, i => 'b');
    assert first[0] != second[0];
    var job := PairProbe(first, second, digest, context);
    PairIsValidated(first, second, digest);
    WitnessRouteIsSelected([first, second], [FallbackReference(first, second)], digest);
    PairFailsOnce(first, second, digest, context);
    RescuedRunClosesExactlyWhenIdsFit(job, 0, WitnessCapabilities(), digest);
  }
}

/** How far the stable plan hash pins down execution. */
module HashGate {
  import opened Wrappers
  import opened Orders
  import opened Text
  import opened Vocabulary
  import opened Plans
  import opened CanonicalPlans
  import opened PlanValidation
  import opened Status
  import opened Routing
  import opened Delivery
  import opened PerStepRun
  import opened RunGrowth
  import opened DeliveryLedger
  import opened DeliveryInvariants
  import opened DeliveryTheorems
  import opened Aggregation
  import opened DeliveryTraces
  import opened Probes
  import opened WitnessPlans

  /** Two validated plans that pass the same route's gate, and whose hashes do not collide. */
  predicate SameGate(v: ValidatedExecutionPlan, w: ValidatedExecutionPlan, route: SelectedExecutionRoute,
                     capabilities: CapabilityRegistry, digest: Digest)
  {
    && IsValidatedPlan(v, capabilities, digest) && IsValidatedPlan(w, capabilities, digest)
    && PassesGate(route, v) && PassesGate(route, w)
    && (digest(CanonicalForm(v.plan)) == digest(CanonicalForm(w.plan)) ==>
        CanonicalForm(v.plan) == CanonicalForm(w.plan))
  }

  /** No step is the primary of two different fallback references. */
  predicate UniquePrimaries(plan: ExecutionPlan) {
    forall r, s :: r in plan.fallbackReferences && s in plan.fallbackReferences && r.stepId == s.stepId ==> r == s
  }

  /** The two plans would try the same fallback first, for every declared step. */
  predicate ChooseTheSame(p: ExecutionPlan, q: ExecutionPlan) {
    forall step :: step in p.steps ==>
      FirstReference(p.fallbackReferences, step.stepId) == FirstReference(q.fallbackReferences, step.stepId)
  }

  lemma SameGateSamePlan(v: ValidatedExecutionPlan, w: ValidatedExecutionPlan, route: SelectedExecutionRoute,
                         capabilities: CapabilityRegistry, digest: Digest)
    requires SameGate(v, w, route, capabilities, digest)
    ensures SameLogicalPlan(v.plan, w.plan)
    ensures v.plan.executionPlanId == w.plan.executionPlanId && v.stablePlanHash == w.stablePlanHash
    ensures forall r :: r in v.plan.fallbackReferences <==> r in w.plan.fallbackReferences
  {
    CanonicalFormIsCompleteInvariant(v.plan, w.plan);
    forall r ensures r in v.plan.fallbackReferences <==> r in w.plan.fallbackReferences {
      SameMembers(v.plan.fallbackReferences, w.plan.fallbackReferences, r);
    }
  }

  lemma UniquePrimariesChooseTheSame(p: ExecutionPlan, q: ExecutionPlan)
    requires UniquePrimaries(p)
    requires forall r :: r in p.fallbackReferences <==> r in q.fallbackReferences
    ensures ChooseTheSame(p, q)
  {
  }

  // ---- Agreement ------------------------------------------------------------------------

  /** The two jobs differ at most in plan details execution never reads. */
  ghost predicate Equivalent(a: Assignment, b: Assignment) {
    && a.route == b.route && a.registry == b.registry && a.adapters == b.adapters && a.context == b.context
    && a.validated.stablePlanHash == b.validated.stablePlanHash
    && a.validated.plan.executionPlanId == b.validated.plan.executionPlanId
    && a.validated.plan.steps == b.validated.plan.steps
    && a.validated.plan.cancellationPolicy == b.validated.plan.cancellationPolicy
    && ChooseTheSame(a.validated.plan, b.validated.plan)
  }

  lemma AttemptsAgree(a: Assignment, b: Assignment, run: Run, step: ExecutionPlanStep)
    requires Equivalent(a, b)
    ensures Attempt(a, run, step) == Attempt(b, run, step)
  {
  }

  lemma FallbacksAgree(a: Assignment, b: Assignment, run: Run, step: ExecutionPlanStep, own: StepDeliveryOutcome)
    requires Equivalent(a, b) && step in a.Steps()
    ensures AfterOwnAttempt(a, run, step, own) == AfterOwnAttempt(b, run, step, own)
  {
    var chosen := DeclaredFallbackStep(a.validated.plan, step.stepId, run.fallbackResults);
    assert chosen == DeclaredFallbackStep(b.validated.plan, step.stepId, run.fallbackResults);
    if chosen.Some? {
      AttemptsAgree(a, b, run, chosen.value);
    }
  }

  lemma TurnsAgree(a: Assignment, b: Assignment, run: Run, step: ExecutionPlanStep)
    requires Equivalent(a, b) && step in a.Steps()
    ensures TakeTurn(a, run, step) == TakeTurn(b, run, step)
  {
    AttemptsAgree(a, b, run, step);
    var own := Attempt(a, run, step);
    if own.Attempted? {
      FallbacksAgree(a, b, own.run, step, own.outcome);
    }
  }

  lemma {:induction false} RunsAgree(a: Assignment, b: Assignment, n: nat)
    requires Equivalent(a, b) && n <= |a.Steps()|
    ensures RunAfter(a, n) == RunAfter(b, n)
  {
    if n > 0 {
      RunsAgree(a, b, n - 1);
      TurnsAgree(a, b, RunAfter(a, n - 1), a.Steps()[n - 1]);
    }
  }

  /** The gate refines execution: two validated plans admitted by one gate, in which no step
      has two different fallbacks, make the same adapter calls and end in the same trace,
      against every registry and every adapter behaviour. */
  lemma HashGateFixesExecution(v: ValidatedExecutionPlan, w: ValidatedExecutionPlan, route: SelectedExecutionRoute,
                               registry: map<CapabilityId, AdapterId>, adapters: AdapterOracle, context: RunContext,
                               capabilities: CapabilityRegistry, digest: Digest)
    requires SameGate(v, w, route, capabilities, digest) && UniquePrimaries(v.plan)
    ensures var a, b := Assignment(route, v, registry, adapters, context),
            Assignment(route, w, registry, adapters, context);
            && CompletedRun(a) == CompletedRun(b)
            && Conclude(a, CompletedRun(a)) == Conclude(b, CompletedRun(b))
  {
    SameGateSamePlan(v, w, route, capabilities, digest);
    UniquePrimariesChooseTheSame(v.plan, w.plan);
    var a, b := Assignment(route, v, registry, adapters, context), Assignment(route, w, registry, adapters, context);
    RunsAgree(a, b, |a.Steps()|);
  }

  // ---- Divergence -----------------------------------------------------------------------

  /** The ids of the steps declared at `k` and later. */
  function IdsFrom(steps: seq<ExecutionPlanStep>, k: nat): (ids: set<string>)
    ensures forall m :: k <= m < |steps| ==> steps[m].stepId in ids
    ensures NoDuplicates(StepIds(steps)) ==> forall m :: 0 <= m < k && m < |steps| ==> steps[m].stepId !in ids
  {
    assert forall m :: 0 <= m < |steps| ==> StepIds(steps)[m] == steps[m].stepId;
    set m | k <= m < |steps| :: steps[m].stepId
  }

  /** The run tried `fallbackId` right behind step `k`, which failed after only completions. */
  ghost predicate ShowsChoice(run: Run, k: nat, fallbackId: string) {
    && run.fault.None?
    && k + 1 < |run.calls| && CalledStep(run.calls[k + 1]) == fallbackId
    && k + 1 < |Attempts(run)| && Attempts(run)[k + 1] == fallbackId
    && k < |run.outcomes| && run.outcomes[k].outcome == StepFailed(PROBE_FAILURE)
    && forall i :: 0 <= i < k ==> run.outcomes[i].outcome == StepCompleted
  }

  lemma LaterRunStillShows(failing: set<string>, k: nat, fallbackId: string, tried: Run, run: Run)
    requires Tried(failing, k, fallbackId, tried) && fallbackId in failing
    requires Extends(tried, run) && run.fault.None?
    ensures ShowsChoice(run, k, fallbackId)
  {
    StartedStepsOnlyGrow(tried.statuses, run.statuses);
  }

  lemma FirstFallbackIsDeclaredFrom(job: Assignment, k: nat)
    requires SoundPlan(job.validated.plan) && k < |job.Steps()|
    requires FirstReference(job.validated.plan.fallbackReferences, Ids(job)[k]).Some?
    ensures var reference := FirstReference(job.validated.plan.fallbackReferences, Ids(job)[k]).value;
            reference.fallbackStepId in IdsFrom(job.Steps(), k)
  {
    var ahead := FirstReferenceIsAhead(job, k);
  }

  /** Against adapters that fail step `k` and every later one, the run shows which fallback is
      declared first for step `k`. */
  lemma ProbeShowsChoice(job: Assignment, k: nat)
    requires k < |job.Steps()| && IsProbe(job, IdsFrom(job.Steps(), k)) && PassesGate(job.route, job.validated)
    requires FirstReference(job.validated.plan.fallbackReferences, Ids(job)[k]).Some?
    ensures ShowsChoice(CompletedRun(job), k,
                        FirstReference(job.validated.plan.fallbackReferences, Ids(job)[k]).value.fallbackStepId)
  {
    var failing := IdsFrom(job.Steps(), k);
    var fallbackId := FirstReference(job.validated.plan.fallbackReferences, Ids(job)[k]).value.fallbackStepId;
    ProbeTriesAt(job, failing, k);
    ProbeNeverFaults(job, failing, |job.Steps()|);
    LaterRunExtends(job, k + 1, |job.Steps()|);
    FirstFallbackIsDeclaredFrom(job, k);
    LaterRunStillShows(failing, k, fallbackId, RunAfter(job, k + 1), CompletedRun(job));
  }

  lemma ShortFailureFits(outcomes: seq<StepRecord>, k: nat)
    requires k < |outcomes| && outcomes[k].outcome == StepFailed(PROBE_FAILURE) && IsValidStepId(outcomes[k].stepId)
    requires forall i :: 0 <= i < k ==> outcomes[i].outcome == StepCompleted
    ensures ClosingFits(outcomes)
  {
    assert NotComplete(outcomes[k].outcome);
    var first := FirstWhereIsFirst(outcomes, NotComplete);
    assert first == k;
  }

  /** Such a run closes, and its trace starts the chosen fallback right behind step `k`. */
  lemma ChoiceShowsInTrace(job: Assignment, k: nat, fallbackId: string, capabilities: CapabilityRegistry,
                           digest: Digest)
    requires Admitted(job, capabilities, digest) && k < |job.Steps()|
    requires job.context.startedAtUtc <= job.context.completedAtUtc
    requires ShowsChoice(CompletedRun(job), k, fallbackId) && IsValidStepId(Ids(job)[k])
    ensures Conclude(job, CompletedRun(job)).Success?
    ensures var started := StartedSteps(Conclude(job, CompletedRun(job)).value.statuses);
            k + 1 < |started| && started[k + 1] == fallbackId
  {
    OutcomesConservePlan(job, capabilities, digest);
    ShortFailureFits(CompletedRun(job).outcomes, k);
    RunClosesExactlyWhenTextFits(job, capabilities, digest);
    DeliveredTraceGrammar(job, capabilities, digest);
  }

  function ProbeFrom(v: ValidatedExecutionPlan, route: SelectedExecutionRoute, context: RunContext, k: nat): Assignment
  {
    Probe(v, route, context, IdsFrom(v.plan.steps, k))
  }

  /** Two plans that would try different fallbacks for step `k` make different calls, and deliver
      different traces, once step `k` and the later ones fail. */
  lemma DifferentChoicesDiverge(v: ValidatedExecutionPlan, w: ValidatedExecutionPlan, route: SelectedExecutionRoute,
                                context: RunContext, capabilities: CapabilityRegistry, digest: Digest, k: nat)
    requires IsValidatedPlan(v, capabilities, digest) && IsValidatedPlan(w, capabilities, digest)
    requires v.plan.steps == w.plan.steps && k < |v.plan.steps|
    requires Announceable(route, v.plan, context) && PassesGate(route, v) && PassesGate(route, w)
    requires var id := v.plan.steps[k].stepId;
             var p, q := FirstReference(v.plan.fallbackReferences, id), FirstReference(w.plan.fallbackReferences, id);
             p.Some? && q.Some? && p != q
    ensures var a, b := ProbeFrom(v, route, context, k), ProbeFrom(w, route, context, k);
            && CompletedRun(a).calls != CompletedRun(b).calls
            && (context.startedAtUtc <= context.completedAtUtc ==>
                  Conclude(a, CompletedRun(a)).Success? && Conclude(a, CompletedRun(a)) != Conclude(b, CompletedRun(b)))
  {
    var a, b := ProbeFrom(v, route, context, k), ProbeFrom(w, route, context, k);
    var id := v.plan.steps[k].stepId;
    var p, q := FirstReference(v.plan.fallbackReferences, id), FirstReference(w.plan.fallbackReferences, id);
    ValidPlanIsSoundAndAcyclic(v.plan, capabilities, digest, []);
    ValidPlanIsSoundAndAcyclic(w.plan, capabilities, digest, []);
    ProbeShowsChoice(a, k);
    ProbeShowsChoice(b, k);
    if context.startedAtUtc <= context.completedAtUtc {
      ChoiceShowsInTrace(a, k, p.value.fallbackStepId, capabilities, digest);
      ChoiceShowsInTrace(b, k, q.value.fallbackStepId, capabilities, digest);
    }
  }

  /** The two plans make the same adapter calls, against every registry and every adapter. */
  ghost predicate CallAlike(v: ValidatedExecutionPlan, w: ValidatedExecutionPlan, route: SelectedExecutionRoute,
                            context: RunContext)
  {
    forall registry: map<CapabilityId, AdapterId>, adapters: AdapterOracle ::
      CompletedRun(Assignment(route, v, registry, adapters, context)).calls ==
      CompletedRun(Assignment(route, w, registry, adapters, context)).calls
  }

  ghost function Delivered(v: ValidatedExecutionPlan, route: SelectedExecutionRoute,
                           registry: map<CapabilityId, AdapterId>, adapters: AdapterOracle, context: RunContext)
    : Result<ExecutionTrace, Fault>
  {
    var job := Assignment(route, v, registry, adapters, context);
    Conclude(job, CompletedRun(job))
  }

  /** The two plans end in the same trace or fault, against every registry and every adapter. */
  ghost predicate ConcludeAlike(v: ValidatedExecutionPlan, w: ValidatedExecutionPlan, route: SelectedExecutionRoute,
                                context: RunContext)
  {
    forall registry: map<CapabilityId, AdapterId>, adapters: AdapterOracle ::
      Delivered(v, route, registry, adapters, context) == Delivered(w, route, registry, adapters, context)
  }

  lemma SameChoicesSameRun(v: ValidatedExecutionPlan, w: ValidatedExecutionPlan, route: SelectedExecutionRoute,
                           registry: map<CapabilityId, AdapterId>, adapters: AdapterOracle, context: RunContext)
    requires Equivalent(Assignment(route, v, registry, adapters, context),
                        Assignment(route, w, registry, adapters, context))
    ensures CompletedRun(Assignment(route, v, registry, adapters, context)).calls ==
            CompletedRun(Assignment(route, w, registry, adapters, context)).calls
    ensures Delivered(v, route, registry, adapters, context) == Delivered(w, route, registry, adapters, context)
  {
    RunsAgree(Assignment(route, v, registry, adapters, context), Assignment(route, w, registry, adapters, context),
              |v.plan.steps|);
  }

  lemma SameChoicesRunAlike(v: ValidatedExecutionPlan, w: ValidatedExecutionPlan, route: SelectedExecutionRoute,
                            context: RunContext, capabilities: CapabilityRegistry, digest: Digest)
    requires SameGate(v, w, route, capabilities, digest) && ChooseTheSame(v.plan, w.plan)
    ensures CallAlike(v, w, route, context) && ConcludeAlike(v, w, route, context)
  {
    SameGateSamePlan(v, w, route, capabilities, digest);
    forall registry: map<CapabilityId, AdapterId>, adapters: AdapterOracle
      ensures CompletedRun(Assignment(route, v, registry, adapters, context)).calls ==
              CompletedRun(Assignment(route, w, registry, adapters, context)).calls
    {
      SameChoicesSameRun(v, w, route, registry, adapters, context);
    }
    forall registry: map<CapabilityId, AdapterId>, adapters: AdapterOracle
      ensures Delivered(v, route, registry, adapters, context) == Delivered(w, route, registry, adapters, context)
    {
      SameChoicesSameRun(v, w, route, registry, adapters, context);
    }
  }

  lemma OtherChoicesRunApart(v: ValidatedExecutionPlan, w: ValidatedExecutionPlan, route: SelectedExecutionRoute,
                             context: RunContext, capabilities: CapabilityRegistry, digest: Digest)
    requires SameGate(v, w, route, capabilities, digest) && Announceable(route, v.plan, context)
    requires !ChooseTheSame(v.plan, w.plan)
    ensures !CallAlike(v, w, route, context)
    ensures context.startedAtUtc <= context.completedAtUtc ==> !ConcludeAlike(v, w, route, context)
  {
    SameGateSamePlan(v, w, route, capabilities, digest);
    var k := ADifferentChoice(v.plan, w.plan);
    DifferentChoicesDiverge(v, w, route, context, capabilities, digest, k);
    DivergenceRefutesAlikeness(v, w, route, context, k);
  }

  lemma ADifferentChoice(p: ExecutionPlan, q: ExecutionPlan) returns (k: nat)
    requires !ChooseTheSame(p, q) && forall r :: r in p.fallbackReferences <==> r in q.fallbackReferences
    ensures k < |p.steps|
    ensures var id := p.steps[k].stepId;
            var a, b := FirstReference(p.fallbackReferences, id), FirstReference(q.fallbackReferences, id);
            a.Some? && b.Some? && a != b
  {
    var step :| step in p.steps &&
                FirstReference(p.fallbackReferences, step.stepId) != FirstReference(q.fallbackReferences, step.stepId);
    k :| 0 <= k < |p.steps| && p.steps[k] == step;
  }

  lemma DivergenceRefutesAlikeness(v: ValidatedExecutionPlan, w: ValidatedExecutionPlan, route: SelectedExecutionRoute,
                                   context: RunContext, k: nat)
    requires v.plan.steps == w.plan.steps
    ensures var a, b := ProbeFrom(v, route, context, k), ProbeFrom(w, route, context, k);
            && (CompletedRun(a).calls != CompletedRun(b).calls ==> !CallAlike(v, w, route, context))
            && (Conclude(a, CompletedRun(a)) != Conclude(b, CompletedRun(b)) ==> !ConcludeAlike(v, w, route, context))
  {
    var a, b := ProbeFrom(v, route, context, k), ProbeFrom(w, route, context, k);
    assert a == Assignment(route, v, a.registry, a.adapters, context);
    assert b == Assignment(route, w, a.registry, a.adapters, context);
    if Conclude(a, CompletedRun(a)) != Conclude(b, CompletedRun(b)) {
      assert Delivered(v, route, a.registry, a.adapters, context) !=
             Delivered(w, route, a.registry, a.adapters, context);
    }
  }

  /** The exact condition: plans behind one gate make the same calls, against every registry and
      every adapter behaviour, if and only if they try the same fallback first for every step;
      and so for the traces they end in, if started does not come after completed. Otherwise only
      degraded runs close: every other closing status carries both times. */
  lemma HashGateFixesExecutionExactlyWhenChoicesAgree(
      v: ValidatedExecutionPlan, w: ValidatedExecutionPlan, route: SelectedExecutionRoute, context: RunContext,
      capabilities: CapabilityRegistry, digest: Digest)
    requires SameGate(v, w, route, capabilities, digest) && Announceable(route, v.plan, context)
    ensures ChooseTheSame(v.plan, w.plan) <==> CallAlike(v, w, route, context)
    ensures context.startedAtUtc <= context.completedAtUtc ==>
              (ChooseTheSame(v.plan, w.plan) <==> ConcludeAlike(v, w, route, context))
  {
    if ChooseTheSame(v.plan, w.plan) {
      SameChoicesRunAlike(v, w, route, context, capabilities, digest);
    } else {
      OtherChoicesRunApart(v, w, route, context, capabilities, digest);
    }
  }

  // ---- A concrete divergence --------------------------------------------------------------

  const TRIO: seq<string> := ["a", "b", "c"]

  /** Step "a" may fall back to "b" and to "c"; only the declared order differs. */
  function ReferencesInOrder(first: string, second: string): seq<FallbackReference> {
    [FallbackReference("a", first), FallbackReference("a", second)]
  }

  function Trio(first: string, second: string, digest: Digest): ValidatedExecutionPlan {
    Witness(TRIO, ReferencesInOrder(first, second), digest)
  }

  lemma TrioIsValidated(first: string, second: string, digest: Digest)
    requires first in {"b", "c"} && second in {"b", "c"}
    ensures IsValidatedPlan(Trio(first, second, digest), WitnessCapabilities(), digest)
  {
    var steps := MapSeq(WitnessStep, TRIO);
    assert steps[0].stepId == "a" && steps[1].stepId == "b" && steps[2].stepId == "c";
    WitnessIsValidated(TRIO, ReferencesInOrder(first, second), digest);
  }

  lemma OneLogicalPlanOneGate(v: ValidatedExecutionPlan, w: ValidatedExecutionPlan, route: SelectedExecutionRoute,
                              capabilities: CapabilityRegistry, digest: Digest)
    requires IsValidatedPlan(v, capabilities, digest) && IsValidatedPlan(w, capabilities, digest)
    requires SameLogicalPlan(v.plan, w.plan) && v.plan.executionPlanId == w.plan.executionPlanId && PassesGate(route, v)
    ensures SameGate(v, w, route, capabilities, digest)
  {
    CanonicalFormIsCompleteInvariant(v.plan, w.plan);
  }

  lemma ReferenceOrdersAgree()
    ensures multiset(ReferencesInOrder("b", "c")) == multiset(ReferencesInOrder("c", "b"))
  {
  }

  lemma TriosShareTheGate(digest: Digest)
    ensures var v, w := Trio("b", "c", digest), Trio("c", "b", digest);
            SameGate(v, w, WitnessRoute(v), WitnessCapabilities(), digest)
  {
    TrioIsValidated("b", "c", digest);
    TrioIsValidated("c", "b", digest);
    ReferenceOrdersAgree();
    ReorderingKeepsLogicalPlan(TRIO, ReferencesInOrder("b", "c"), ReferencesInOrder("c", "b"), digest);
    var v, w := Trio("b", "c", digest), Trio("c", "b", digest);
    OneLogicalPlanOneGate(v, w, WitnessRoute(v), WitnessCapabilities(), digest);
  }

  lemma TrioIdsAreWellFormed()
    ensures forall id :: id in TRIO ==> IsValidStepId(id)
  {
  }

  lemma TrioIsAnnounceable(v: ValidatedExecutionPlan, context: RunContext)
    requires IsValidHash(v.stablePlanHash) && v.plan.referencedCapabilities == [WITNESS_ID]
    requires v.plan.steps == MapSeq(WitnessStep, TRIO)
    ensures Announceable(WitnessRoute(v), v.plan, context)
  {
    TrioIdsAreWellFormed();
    WitnessIsAnnounceable(v, context);
    forall step | step in v.plan.steps ensures IsValidStepId(step.stepId) {
      var k :| 0 <= k < |TRIO| && v.plan.steps[k] == step;
      assert step.stepId == TRIO[k];
    }
  }

  lemma TriosChooseDifferently(first: string, second: string)
    ensures FirstReference(ReferencesInOrder(first, second), "a") == Some(FallbackReference("a", first))
  {
  }

  /** Without the condition the gate does not fix execution: two validated plans with one hash
      that make different calls and deliver different traces when step "a" and its fallbacks fail. */
  lemma OneHashTwoExecutions(digest: Digest, context: RunContext)
    requires forall plan :: IsValidHash(digest(plan))
    ensures var v, w := Trio("b", "c", digest), Trio("c", "b", digest);
            var route := WitnessRoute(v);
            var a, b := ProbeFrom(v, route, context, 0), ProbeFrom(w, route, context, 0);
            && IsSelectedFor(route, v) && SameGate(v, w, route, WitnessCapabilities(), digest)
            && CompletedRun(a).calls != CompletedRun(b).calls
            && (context.startedAtUtc <= context.completedAtUtc ==>
                  Conclude(a, CompletedRun(a)).Success? && Conclude(a, CompletedRun(a)) != Conclude(b, CompletedRun(b)))
  {
    var v, w := Trio("b", "c", digest), Trio("c", "b", digest);
    TriosShareTheGate(digest);
    WitnessRouteIsSelected(TRIO, ReferencesInOrder("b", "c"), digest);
    TrioIsAnnounceable(v, context);
    TriosChooseDifferently("b", "c");
    TriosChooseDifferently("c", "b");
    assert v.plan.steps[0].stepId == "a" && "b" != "c";
    DifferentChoicesDiverge(v, w, WitnessRoute(v), context, WitnessCapabilities(), digest, 0);
  }
}

/** Small plans of one capability, on which the concrete counterexamples are built. */
module WitnessPlans {
  import opened Wrappers
  import opened Orders
  import opened Text
  import opened Vocabulary
  import opened Plans
  import opened CanonicalPlans
  import opened PlanValidation
  import opened Routing
  import opened Delivery

  const WITNESS_ID: Uuid := "00000000-0000-4000-8000-000000000000"

  function WitnessStep(stepId: string): ExecutionPlanStep {
    ExecutionPlanStep(stepId, WITNESS_ID, NoSideEffect, 1)
  }

  function UnsealedWitness(ids: seq<string>, references: seq<FallbackReference>): ExecutionPlan
    requires |ids| < U32_BOUND
  {
    ExecutionPlan(WITNESS_ID, WITNESS_ID, WITNESS_ID, MapSeq(WitnessStep, ids), [WITNESS_ID], |ids|, [NoSideEffect],
                  references, FinishInFlightOnly, AllowDeclaredFallbackCompletion, |ids|, "", 0)
  }

  /** A plan of the given steps and fallbacks, under its own hash. */
  function Witness(ids: seq<string>, references: seq<FallbackReference>, digest: Digest): ValidatedExecutionPlan
    requires |ids| < U32_BOUND
  {
    var hash := digest(CanonicalForm(UnsealedWitness(ids, references)));
    ValidatedExecutionPlan(UnsealedWitness(ids, references).(stablePlanHash := hash), hash)
  }

  function WitnessCapabilities(): CapabilityRegistry {
    CapabilityRegistry("1.0.0", [
      CapabilityRecord(WITNESS_ID, SERVICE_ID, NoSideEffect, ExecuteAllowed, [TrustedAppSurface], 1, Enabled, NoReview,
                       Active)])
  }

  const WITNESS_DECISION :=
    RouteDecision(WITNESS_ID, WITNESS_ID, WITNESS_ID, ExecuteAllowed, true, false, false, WITNESS_ID,
                  "request is execute allowed for capability " + WITNESS_ID)

  /** The route that is selected for such a plan. */
  function WitnessRoute(v: ValidatedExecutionPlan): SelectedExecutionRoute {
    RoutablePlan(WITNESS_DECISION, v, ExternalAdapterBoundedExecution, true, false)
  }

  /** Routing yields this route for this plan. */
  predicate IsSelectedFor(route: SelectedExecutionRoute, v: ValidatedExecutionPlan) {
    var input := NewRoutingInput(WITNESS_DECISION, Some(v));
    input.Success? && SelectRoute(input.value) == Success(route)
  }

  lemma WitnessRouteIsSelected(ids: seq<string>, references: seq<FallbackReference>, digest: Digest)
    requires |ids| < U32_BOUND
    ensures IsSelectedFor(WitnessRoute(Witness(ids, references, digest)), Witness(ids, references, digest))
  {
    assert WITNESS_ID in Witness(ids, references, digest).plan.referencedCapabilities;
  }

  lemma ReorderingKeepsLogicalPlan(ids: seq<string>, p: seq<FallbackReference>, q: seq<FallbackReference>,
                                   digest: Digest)
    requires |ids| < U32_BOUND && multiset(p) == multiset(q)
    ensures SameLogicalPlan(Witness(ids, p, digest).plan, Witness(ids, q, digest).plan)
  {
  }

  lemma SealingKeepsCanonicalForm(plan: ExecutionPlan, hash: string)
    ensures CanonicalForm(plan.(stablePlanHash := hash)) == CanonicalForm(plan)
  {
  }

  lemma {:induction false} WitnessBudget(ids: seq<string>)
    ensures TimeoutSum(MapSeq(WitnessStep, ids)) == |ids|
  {
    if ids != [] {
      var front, steps := ids[..|ids| - 1], MapSeq(WitnessStep, ids);
      WitnessBudget(front);
      assert steps[..|ids| - 1] == MapSeq(WitnessStep, front);
    }
  }

  lemma WitnessStepsAreAdmitted(plan: ExecutionPlan, ids: seq<string>)
    requires NoDuplicates(ids) && plan.steps == MapSeq(WitnessStep, ids)
    requires plan.referencedCapabilities == [WITNESS_ID] && plan.declaredSideEffectClasses == [NoSideEffect]
    ensures CapabilitiesClause(plan, WitnessCapabilities()) && StepsClause(plan, WitnessCapabilities())
  {
    assert StepIds(plan.steps) == ids;
    assert CapabilityClause(WITNESS_ID, WitnessCapabilities());
    forall step | step in plan.steps ensures StepClause(step, plan, WitnessCapabilities()) {
      assert step.capabilityId == WITNESS_ID && step.timeoutBudgetMs == 1;
    }
  }

  lemma WitnessIsValidated(ids: seq<string>, references: seq<FallbackReference>, digest: Digest)
    requires 0 < |ids| < U32_BOUND && NoDuplicates(ids)
    requires forall r :: r in references ==> ForwardClause(r, MapSeq(WitnessStep, ids))
    ensures IsValidatedPlan(Witness(ids, references, digest), WitnessCapabilities(), digest)
  {
    var plan := Witness(ids, references, digest).plan;
    SealingKeepsCanonicalForm(UnsealedWitness(ids, references), plan.stablePlanHash);
    WitnessStepsAreAdmitted(plan, ids);
    WitnessBudget(ids);
  }

  lemma WitnessIsAnnounceable(v: ValidatedExecutionPlan, context: RunContext)
    requires IsValidHash(v.stablePlanHash) && v.plan.steps != [] && v.plan.referencedCapabilities == [WITNESS_ID]
    ensures Deliverable(WitnessRoute(v)) && AdmittedStatus(WitnessRoute(v), context).Valid()
  {
    assert |StepIds(v.plan.steps)| == |v.plan.steps|;
  }
}

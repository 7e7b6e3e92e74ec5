/** The plan validator, proved to decide a declarative specification. */
module PlanValidation {
  import opened Wrappers
  import opened Orders
  import opened Text
  import opened Vocabulary
  import opened Plans
  import opened CanonicalPlans

  /** The denials the validator issues, one per message. */
  datatype PlanDenial =
    | NoSteps
    | TooManySteps
    | UnregisteredReferencedCapability
    | DisabledCapability
    | RevokedCapability
    | ForeignCapability
    | DuplicateStepId
    | UndeclaredStepCapability
    | UndeclaredStepSideEffect
    | UnregisteredStepCapability
    | StepSideEffectMismatch
    | StepTimeoutExceedsCapability
    | TimeoutBudgetOverflow
    | TimeoutSumExceedsBudget
    | FallbackNeedsFallbackPolicy
    | FallbackPrimaryUndeclared
    | FallbackTargetUndeclared
    | FallbackTargetsSelf
    | FallbackTargetNotLater
    | PlanHashMismatch

  predicate StructureClause(plan: ExecutionPlan) {
    0 < |plan.steps| <= plan.declaredMaxStepCount
  }

  predicate CapabilityClause(id: CapabilityId, registry: CapabilityRegistry) {
    match CapabilityFor(registry, id)
    case None => false
    case Some(capability) =>
      && capability.enabledState != Disabled
      && capability.revocationState != Revoked
      && capability.ownerService == SERVICE_ID
  }

  predicate CapabilitiesClause(plan: ExecutionPlan, registry: CapabilityRegistry) {
    forall id :: id in plan.referencedCapabilities ==> CapabilityClause(id, registry)
  }

  /** A step stays within the plan's declarations and within its capability's limits. */
  predicate StepClause(step: ExecutionPlanStep, plan: ExecutionPlan, registry: CapabilityRegistry) {
    && step.capabilityId in plan.referencedCapabilities
    && step.declaredSideEffectClass in plan.declaredSideEffectClasses
    && match CapabilityFor(registry, step.capabilityId)
       case None => false
       case Some(capability) =>
         && capability.sideEffectClass == step.declaredSideEffectClass
         && step.timeoutBudgetMs <= capability.timeoutBudgetMs
  }

  predicate StepsClause(plan: ExecutionPlan, registry: CapabilityRegistry) {
    && NoDuplicates(StepIds(plan.steps))
    && forall step :: step in plan.steps ==> StepClause(step, plan, registry)
  }

  predicate BudgetClause(plan: ExecutionPlan) {
    TimeoutSum(plan.steps) <= plan.maxDurationBudgetMs
  }

  predicate FallbackPolicyClause(plan: ExecutionPlan) {
    plan.fallbackReferences == [] || plan.completionPolicy == AllowDeclaredFallbackCompletion
  }

  /** The reference names two declared steps, the fallback strictly after the primary. */
  predicate ForwardClause(reference: FallbackReference, steps: seq<ExecutionPlanStep>) {
    exists i, j :: 0 <= i < j < |steps| && steps[i].stepId == reference.stepId &&
      steps[j].stepId == reference.fallbackStepId
  }

  predicate FallbacksClause(plan: ExecutionPlan) {
    forall reference :: reference in plan.fallbackReferences ==> ForwardClause(reference, plan.steps)
  }

  predicate HashClause(plan: ExecutionPlan, digest: Digest) {
    plan.stablePlanHash == digest(CanonicalForm(plan))
  }

  predicate ValidPlan(plan: ExecutionPlan, registry: CapabilityRegistry, digest: Digest) {
    && StructureClause(plan)
    && CapabilitiesClause(plan, registry)
    && StepsClause(plan, registry)
    && BudgetClause(plan)
    && FallbackPolicyClause(plan)
    && FallbacksClause(plan)
    && HashClause(plan, digest)
  }

  predicate IsValidatedPlan(validated: ValidatedExecutionPlan, registry: CapabilityRegistry, digest: Digest) {
    && ValidPlan(validated.plan, registry, digest)
    && validated.stablePlanHash == digest(CanonicalForm(validated.plan))
  }

  // ---- What each denial means -----------------------------------------------------------

  predicate ReferencesAdmitted(plan: ExecutionPlan, registry: CapabilityRegistry) {
    StructureClause(plan) && CapabilitiesClause(plan, registry)
  }

  predicate StepsAdmitted(plan: ExecutionPlan, registry: CapabilityRegistry) {
    ReferencesAdmitted(plan, registry) && StepsClause(plan, registry)
  }

  predicate BudgetAdmitted(plan: ExecutionPlan, registry: CapabilityRegistry) {
    StepsAdmitted(plan, registry) && BudgetClause(plan)
  }

  predicate PolicyAdmitted(plan: ExecutionPlan, registry: CapabilityRegistry) {
    BudgetAdmitted(plan, registry) && FallbackPolicyClause(plan)
  }

  predicate CapabilityFault(denial: PlanDenial, id: CapabilityId, registry: CapabilityRegistry) {
    match CapabilityFor(registry, id)
    case None => denial == UnregisteredReferencedCapability
    case Some(capability) =>
      match denial
      case DisabledCapability => capability.enabledState == Disabled
      case RevokedCapability => capability.enabledState != Disabled && capability.revocationState == Revoked
      case ForeignCapability =>
        capability.enabledState != Disabled && capability.revocationState != Revoked &&
        capability.ownerService != SERVICE_ID
      case _ => false
  }

  predicate StepFault(denial: PlanDenial, step: ExecutionPlanStep, plan: ExecutionPlan, registry: CapabilityRegistry) {
    match denial
    case UndeclaredStepCapability => step.capabilityId !in plan.referencedCapabilities
    case UndeclaredStepSideEffect => step.declaredSideEffectClass !in plan.declaredSideEffectClasses
    case StepSideEffectMismatch =>
      var found := CapabilityFor(registry, step.capabilityId);
      found.Some? && found.value.sideEffectClass != step.declaredSideEffectClass
    case StepTimeoutExceedsCapability =>
      var found := CapabilityFor(registry, step.capabilityId);
      found.Some? && step.timeoutBudgetMs > found.value.timeoutBudgetMs
    case _ => false
  }

  /** A fault of the declared steps taken together; the second registry lookup never fails. */
  predicate StepsFault(denial: PlanDenial, plan: ExecutionPlan, registry: CapabilityRegistry) {
    match denial
    case DuplicateStepId => !NoDuplicates(StepIds(plan.steps))
    case TimeoutBudgetOverflow => TimeoutSum(plan.steps) >= U64_BOUND
    case _ => exists step :: step in plan.steps && StepFault(denial, step, plan, registry)
  }

  predicate ReferenceFault(denial: PlanDenial, reference: FallbackReference, steps: seq<ExecutionPlanStep>) {
    match denial
    case FallbackPrimaryUndeclared => reference.stepId !in StepIds(steps)
    case FallbackTargetUndeclared => reference.stepId in StepIds(steps) && reference.fallbackStepId !in StepIds(steps)
    case FallbackTargetsSelf => reference.stepId in StepIds(steps) && reference.stepId == reference.fallbackStepId
    case FallbackTargetNotLater =>
      && reference.stepId in StepIds(steps) && reference.fallbackStepId in StepIds(steps)
      && reference.stepId != reference.fallbackStepId
      && !ForwardClause(reference, steps)
    case _ => false
  }

  /** What a denial says of the plan it rejects: the phases that run earlier all passed, and
      some declared item shows the named fault. */
  predicate DenialIsGrounded(denial: PlanDenial, plan: ExecutionPlan, registry: CapabilityRegistry, digest: Digest) {
    match denial
    case NoSteps => plan.steps == []
    case TooManySteps => plan.steps != [] && |plan.steps| > plan.declaredMaxStepCount
    case UnregisteredReferencedCapability | DisabledCapability | RevokedCapability | ForeignCapability =>
      && StructureClause(plan)
      && exists id :: id in plan.referencedCapabilities && CapabilityFault(denial, id, registry)
    case DuplicateStepId | UndeclaredStepCapability | UndeclaredStepSideEffect | UnregisteredStepCapability
         | StepSideEffectMismatch | StepTimeoutExceedsCapability | TimeoutBudgetOverflow =>
      ReferencesAdmitted(plan, registry) && StepsFault(denial, plan, registry)
    case TimeoutSumExceedsBudget =>
      StepsAdmitted(plan, registry) && plan.maxDurationBudgetMs < TimeoutSum(plan.steps) < U64_BOUND
    case FallbackNeedsFallbackPolicy =>
      BudgetAdmitted(plan, registry) && !FallbackPolicyClause(plan)
    case FallbackPrimaryUndeclared | FallbackTargetUndeclared | FallbackTargetsSelf | FallbackTargetNotLater =>
      && PolicyAdmitted(plan, registry)
      && exists reference :: reference in plan.fallbackReferences && ReferenceFault(denial, reference, plan.steps)
    case PlanHashMismatch =>
      PolicyAdmitted(plan, registry) && FallbacksClause(plan) && !HashClause(plan, digest)
  }

  // ---- The validator --------------------------------------------------------------------

  /** The checks one referenced capability must pass, in the order they are made. */
  function CapabilityDenial(id: CapabilityId, registry: CapabilityRegistry): (denial: Option<PlanDenial>)
    ensures denial.None? <==> CapabilityClause(id, registry)
    ensures denial.Some? ==> CapabilityFault(denial.value, id, registry)
  {
    match CapabilityFor(registry, id)
    case None => Some(UnregisteredReferencedCapability)
    case Some(capability) =>
      if capability.enabledState == Disabled then Some(DisabledCapability)
      else if capability.revocationState == Revoked then Some(RevokedCapability)
      else if capability.ownerService != SERVICE_ID then Some(ForeignCapability)
      else None
  }

  method CheckReferencedCapabilities(plan: ExecutionPlan, registry: CapabilityRegistry)
    returns (denial: Option<PlanDenial>)
    ensures denial.None? <==> CapabilitiesClause(plan, registry)
    ensures denial.Some? ==>
              exists id :: id in plan.referencedCapabilities && CapabilityFault(denial.value, id, registry)
  {
    for i := 0 to |plan.referencedCapabilities|
      invariant forall k :: 0 <= k < i ==> CapabilityClause(plan.referencedCapabilities[k], registry)
    {
      denial := CapabilityDenial(plan.referencedCapabilities[i], registry);
      if denial.Some? {
        return;
      }
    }
    denial := None;
  }

  predicate IndexesSteps(index: map<string, nat>, steps: seq<ExecutionPlanStep>) {
    && (forall i :: 0 <= i < |steps| ==> steps[i].stepId in index && index[steps[i].stepId] == i)
    && (forall id :: id in index ==> index[id] < |steps| && steps[index[id]].stepId == id)
  }

  lemma LaterSumIsLarger(steps: seq<ExecutionPlanStep>, i: nat)
    requires i <= |steps|
    ensures TimeoutSum(steps[..i]) <= TimeoutSum(steps)
    decreases |steps| - i
  {
    if i < |steps| {
      assert steps[..i + 1][..i] == steps[..i];
      LaterSumIsLarger(steps, i + 1);
    } else {
      assert steps[..i] == steps;
    }
  }

  lemma LabelsReflectClasses(sideEffect: SideEffectClass, declared: seq<SideEffectClass>)
    ensures SideEffectLabel(sideEffect) in MapSeq(SideEffectLabel, declared) <==> sideEffect in declared
  {
    var labels := MapSeq(SideEffectLabel, declared);
    if SideEffectLabel(sideEffect) in labels {
      var i :| 0 <= i < |labels| && labels[i] == SideEffectLabel(sideEffect);
      SideEffectLabelsAreDistinct(sideEffect, declared[i]);
    }
    if sideEffect in declared {
      var i :| 0 <= i < |declared| && declared[i] == sideEffect;
      assert labels[i] == SideEffectLabel(sideEffect);
    }
  }

  /** The checks one declared step must pass, in the order they are made. */
  function StepDenial(step: ExecutionPlanStep, plan: ExecutionPlan, registry: CapabilityRegistry)
    : (denial: Option<PlanDenial>)
    requires CapabilitiesClause(plan, registry)
    ensures denial.None? <==> StepClause(step, plan, registry)
    ensures denial.Some? ==> StepFault(denial.value, step, plan, registry)
  {
    if step.capabilityId !in plan.referencedCapabilities then Some(UndeclaredStepCapability)
    else
      LabelsReflectClasses(step.declaredSideEffectClass, plan.declaredSideEffectClasses);
      if SideEffectLabel(step.declaredSideEffectClass) !in MapSeq(SideEffectLabel, plan.declaredSideEffectClasses) then
        Some(UndeclaredStepSideEffect)
      else
        assert CapabilityClause(step.capabilityId, registry);
        match CapabilityFor(registry, step.capabilityId)
        case None => Some(UnregisteredStepCapability)
        case Some(capability) =>
          if capability.sideEffectClass != step.declaredSideEffectClass then Some(StepSideEffectMismatch)
          else if step.timeoutBudgetMs > capability.timeoutBudgetMs then Some(StepTimeoutExceedsCapability)
          else None
  }

  /** What the step loop knows after its first `i` steps. */
  predicate CheckedThrough(i: nat, plan: ExecutionPlan, registry: CapabilityRegistry, index: map<string, nat>,
                           total: nat)
  {
    && i <= |plan.steps|
    && IndexesSteps(index, plan.steps[..i])
    && total == TimeoutSum(plan.steps[..i])
    && forall k :: 0 <= k < i ==> StepClause(plan.steps[k], plan, registry)
  }

  method CheckSteps(plan: ExecutionPlan, registry: CapabilityRegistry)
    returns (denial: Option<PlanDenial>, stepIndexById: map<string, nat>, totalTimeoutBudgetMs: u64)
    requires CapabilitiesClause(plan, registry)
    ensures denial.None? <==> StepsClause(plan, registry) && TimeoutSum(plan.steps) < U64_BOUND
    ensures denial.None? ==> IndexesSteps(stepIndexById, plan.steps) && totalTimeoutBudgetMs == TimeoutSum(plan.steps)
    ensures denial.Some? ==> StepsFault(denial.value, plan, registry)
  {
    stepIndexById, totalTimeoutBudgetMs := map[], 0;
    denial := None;
    NothingCheckedYet(plan, registry);
    for i := 0 to |plan.steps|
      invariant CheckedThrough(i, plan, registry, stepIndexById, totalTimeoutBudgetMs)
    {
      var step := plan.steps[i];
      if step.stepId in stepIndexById {
        DuplicateIdShows(plan.steps, stepIndexById[step.stepId], i);
        denial := Some(DuplicateStepId);
        return;
      }
      denial := StepDenial(step, plan, registry);
      if denial.Some? {
        StepFaultBreaksClause(denial.value, plan, registry, i);
        return;
      }
      if totalTimeoutBudgetMs + step.timeoutBudgetMs >= U64_BOUND {
        SumExtends(plan.steps, i);
        denial := Some(TimeoutBudgetOverflow);
        return;
      }
      CheckExtends(i, plan, registry, stepIndexById, totalTimeoutBudgetMs);
      stepIndexById := stepIndexById[step.stepId := i];
      totalTimeoutBudgetMs := totalTimeoutBudgetMs + step.timeoutBudgetMs;
    }
    AllStepsChecked(plan, registry, stepIndexById, totalTimeoutBudgetMs);
    denial := None;
  }

  lemma NothingCheckedYet(plan: ExecutionPlan, registry: CapabilityRegistry)
    ensures CheckedThrough(0, plan, registry, map[], 0)
  {
    assert plan.steps[..0] == [];
  }

  lemma AllStepsChecked(plan: ExecutionPlan, registry: CapabilityRegistry, index: map<string, nat>, total: nat)
    requires CheckedThrough(|plan.steps|, plan, registry, index, total)
    ensures StepsClause(plan, registry) && IndexesSteps(index, plan.steps) && total == TimeoutSum(plan.steps)
  {
    assert plan.steps[..|plan.steps|] == plan.steps;
    IndexedIdsAreUnique(plan.steps, index);
  }

  lemma CheckExtends(i: nat, plan: ExecutionPlan, registry: CapabilityRegistry, index: map<string, nat>, total: nat)
    requires CheckedThrough(i, plan, registry, index, total) && i < |plan.steps|
    requires plan.steps[i].stepId !in index && StepClause(plan.steps[i], plan, registry)
    ensures CheckedThrough(i + 1, plan, registry, index[plan.steps[i].stepId := i],
                           total + plan.steps[i].timeoutBudgetMs)
  {
    var step := plan.steps[i];
    var before, after := plan.steps[..i], plan.steps[..i + 1];
    assert after == before + [step];
    SumExtends(plan.steps, i);
    assert IndexesSteps(index[step.stepId := i], after);
  }

  lemma StepFaultBreaksClause(denial: PlanDenial, plan: ExecutionPlan, registry: CapabilityRegistry, i: nat)
    requires i < |plan.steps| && StepFault(denial, plan.steps[i], plan, registry)
    requires !StepClause(plan.steps[i], plan, registry)
    ensures StepsFault(denial, plan, registry) && !StepsClause(plan, registry)
  {
    assert plan.steps[i] in plan.steps;
  }

  lemma DuplicateIdShows(steps: seq<ExecutionPlanStep>, k: nat, i: nat)
    requires k < i < |steps| && steps[k].stepId == steps[i].stepId
    ensures !NoDuplicates(StepIds(steps))
  {
    assert StepIds(steps)[k] == StepIds(steps)[i];
  }

  lemma SumExtends(steps: seq<ExecutionPlanStep>, i: nat)
    requires i < |steps|
    ensures TimeoutSum(steps[..i + 1]) == TimeoutSum(steps[..i]) + steps[i].timeoutBudgetMs <= TimeoutSum(steps)
  {
    assert steps[..i + 1][..i] == steps[..i];
    LaterSumIsLarger(steps, i + 1);
  }

  lemma IndexedIdsAreUnique(steps: seq<ExecutionPlanStep>, index: map<string, nat>)
    requires IndexesSteps(index, steps)
    ensures NoDuplicates(StepIds(steps))
  {
  }

  method CheckFallbacks(plan: ExecutionPlan, stepIndexById: map<string, nat>)
    returns (denial: Option<PlanDenial>)
    requires IndexesSteps(stepIndexById, plan.steps)
    ensures denial.None? <==> FallbacksClause(plan)
    ensures denial.Some? ==> exists reference :: reference in plan.fallbackReferences &&
                                                 ReferenceFault(denial.value, reference, plan.steps)
  {
    for k := 0 to |plan.fallbackReferences|
      invariant forall m :: 0 <= m < k ==> ForwardClause(plan.fallbackReferences[m], plan.steps)
    {
      var reference := plan.fallbackReferences[k];
      denial := ReferenceDenial(reference, plan.steps, stepIndexById);
      if denial.Some? {
        return;
      }
    }
    denial := None;
  }

  /** The checks one fallback reference must pass, in the order they are made. */
  function ReferenceDenial(reference: FallbackReference, steps: seq<ExecutionPlanStep>, index: map<string, nat>)
    : (denial: Option<PlanDenial>)
    requires IndexesSteps(index, steps)
    ensures denial.None? <==> ForwardClause(reference, steps)
    ensures denial.Some? ==> ReferenceFault(denial.value, reference, steps)
  {
    IndexDecidesForward(reference, steps, index);
    if reference.stepId !in index then Some(FallbackPrimaryUndeclared)
    else if reference.fallbackStepId !in index then Some(FallbackTargetUndeclared)
    else if reference.stepId == reference.fallbackStepId then Some(FallbackTargetsSelf)
    else if index[reference.fallbackStepId] <= index[reference.stepId] then Some(FallbackTargetNotLater)
    else None
  }

  lemma IndexDecidesForward(reference: FallbackReference, steps: seq<ExecutionPlanStep>, index: map<string, nat>)
    requires IndexesSteps(index, steps)
    ensures reference.stepId in index <==> reference.stepId in StepIds(steps)
    ensures reference.fallbackStepId in index <==> reference.fallbackStepId in StepIds(steps)
    ensures ForwardClause(reference, steps) <==>
            reference.stepId in index && reference.fallbackStepId in index &&
            index[reference.stepId] < index[reference.fallbackStepId]
  {
    var ids := StepIds(steps);
    assert forall id :: id in index ==> ids[index[id]] == id;
  }

  lemma CapabilityFaultIsGrounded(denial: PlanDenial, plan: ExecutionPlan, registry: CapabilityRegistry, digest: Digest)
    requires StructureClause(plan)
    requires exists id :: id in plan.referencedCapabilities && CapabilityFault(denial, id, registry)
    ensures DenialIsGrounded(denial, plan, registry, digest)
  {
  }

  lemma StepsFaultIsGrounded(denial: PlanDenial, plan: ExecutionPlan, registry: CapabilityRegistry, digest: Digest)
    requires ReferencesAdmitted(plan, registry) && StepsFault(denial, plan, registry)
    ensures DenialIsGrounded(denial, plan, registry, digest)
  {
  }

  lemma ReferenceFaultIsGrounded(denial: PlanDenial, plan: ExecutionPlan, registry: CapabilityRegistry, digest: Digest)
    requires PolicyAdmitted(plan, registry)
    requires exists reference :: reference in plan.fallbackReferences && ReferenceFault(denial, reference, plan.steps)
    ensures DenialIsGrounded(denial, plan, registry, digest)
  {
  }

  /** The checks that follow once the steps are admitted: budget, fallbacks and hash. */
  method ValidateAdmittedSteps(plan: ExecutionPlan, registry: CapabilityRegistry, digest: Digest,
                               stepIndexById: map<string, nat>, totalTimeoutBudgetMs: u64)
    returns (r: Result<ValidatedExecutionPlan, PlanDenial>)
    requires StepsAdmitted(plan, registry)
    requires IndexesSteps(stepIndexById, plan.steps) && totalTimeoutBudgetMs == TimeoutSum(plan.steps)
    ensures r.Success? <==>
              BudgetClause(plan) && FallbackPolicyClause(plan) && FallbacksClause(plan) && HashClause(plan, digest)
    ensures r.Success? ==> r.value == ValidatedExecutionPlan(plan, digest(CanonicalForm(plan)))
    ensures r.Failure? ==> DenialIsGrounded(r.error, plan, registry, digest) && r.error != UnregisteredStepCapability
  {
    if totalTimeoutBudgetMs > plan.maxDurationBudgetMs {
      return Failure(TimeoutSumExceedsBudget);
    }
    if plan.fallbackReferences != [] && plan.completionPolicy != AllowDeclaredFallbackCompletion {
      return Failure(FallbackNeedsFallbackPolicy);
    }
    var denial := CheckFallbacks(plan, stepIndexById);
    if denial.Some? {
      ReferenceFaultIsGrounded(denial.value, plan, registry, digest);
      return Failure(denial.value);
    }
    var stablePlanHash := ComputeStablePlanHash(plan, digest);
    if plan.stablePlanHash != stablePlanHash {
      return Failure(PlanHashMismatch);
    }
    r := Success(ValidatedExecutionPlan(plan, stablePlanHash));
  }

  /** The validator accepts exactly the plans the declarative clauses admit, over unbounded
      integers, and every denial it issues is grounded in the plan. */
  method Validate(plan: ExecutionPlan, registry: CapabilityRegistry, digest: Digest)
    returns (r: Result<ValidatedExecutionPlan, PlanDenial>)
    ensures r.Success? <==> ValidPlan(plan, registry, digest)
    ensures r.Success? ==> r.value.plan == plan && IsValidatedPlan(r.value, registry, digest)
    ensures r.Failure? ==> DenialIsGrounded(r.error, plan, registry, digest)
    ensures r != Failure(UnregisteredStepCapability)
  {
    if plan.steps == [] {
      return Failure(NoSteps);
    }
    if |plan.steps| > plan.declaredMaxStepCount {
      return Failure(TooManySteps);
    }
    var denial := CheckReferencedCapabilities(plan, registry);
    if denial.Some? {
      CapabilityFaultIsGrounded(denial.value, plan, registry, digest);
      return Failure(denial.value);
    }
    var stepIndexById, totalTimeoutBudgetMs;
    denial, stepIndexById, totalTimeoutBudgetMs := CheckSteps(plan, registry);
    if denial.Some? {
      StepsFaultIsGrounded(denial.value, plan, registry, digest);
      assert !(StepsClause(plan, registry) && BudgetClause(plan));
      return Failure(denial.value);
    }
    r := ValidateAdmittedSteps(plan, registry, digest, stepIndexById, totalTimeoutBudgetMs);
  }

  // ---- What admission guarantees execution ----------------------------------------------

  /** What delivery relies on: step ids are unique and fallbacks point strictly forward. */
  predicate SoundPlan(plan: ExecutionPlan) {
    && 0 < |plan.steps| < U32_BOUND
    && NoDuplicates(StepIds(plan.steps))
    && FallbacksClause(plan)
  }

  /** A walk along declared fallback references. */
  predicate FallbackWalk(walk: seq<string>, references: seq<FallbackReference>) {
    forall k :: 0 <= k < |walk| - 1 ==> FallbackReference(walk[k], walk[k + 1]) in references
  }

  /** The position of a declared step; plans have at most one. */
  function StepIndex(steps: seq<ExecutionPlanStep>, id: string): (i: nat)
    requires id in StepIds(steps)
    ensures i < |steps| && steps[i].stepId == id
    ensures forall k :: 0 <= k < i ==> steps[k].stepId != id
  {
    if steps[0].stepId == id then 0
    else
      assert id in StepIds(steps[1..]) by {
        var k :| 0 <= k < |steps| && StepIds(steps)[k] == id;
        assert StepIds(steps[1..])[k - 1] == id;
      }
      1 + StepIndex(steps[1..], id)
  }

  lemma StepIndexIsUnique(steps: seq<ExecutionPlanStep>, k: nat)
    requires NoDuplicates(StepIds(steps)) && k < |steps|
    ensures steps[k].stepId in StepIds(steps) && StepIndex(steps, steps[k].stepId) == k
  {
    var ids := StepIds(steps);
    assert ids[k] == steps[k].stepId;
    OneIndexHasTheId(steps, StepIndex(steps, ids[k]), k);
  }

  lemma OneIndexHasTheId(steps: seq<ExecutionPlanStep>, i: nat, k: nat)
    requires NoDuplicates(StepIds(steps)) && i < |steps| && k < |steps| && steps[i].stepId == steps[k].stepId
    ensures i == k
  {
    assert StepIds(steps)[i] == StepIds(steps)[k];
  }

  lemma FallbackIsLater(plan: ExecutionPlan, reference: FallbackReference)
    requires SoundPlan(plan) && reference in plan.fallbackReferences
    ensures reference.stepId in StepIds(plan.steps) && reference.fallbackStepId in StepIds(plan.steps)
    ensures StepIndex(plan.steps, reference.stepId) < StepIndex(plan.steps, reference.fallbackStepId)
  {
    assert ForwardClause(reference, plan.steps);
    var i, j :| 0 <= i < j < |plan.steps| && plan.steps[i].stepId == reference.stepId &&
                plan.steps[j].stepId == reference.fallbackStepId;
    StepIndexIsUnique(plan.steps, i);
    StepIndexIsUnique(plan.steps, j);
  }

  lemma {:induction false} FallbackWalkAdvances(plan: ExecutionPlan, walk: seq<string>)
    requires SoundPlan(plan) && |walk| >= 2 && FallbackWalk(walk, plan.fallbackReferences)
    ensures walk[0] in StepIds(plan.steps) && walk[|walk| - 1] in StepIds(plan.steps)
    ensures StepIndex(plan.steps, walk[0]) < StepIndex(plan.steps, walk[|walk| - 1])
  {
    FallbackIsLater(plan, FallbackReference(walk[0], walk[1]));
    if |walk| > 2 {
      var rest := walk[1..];
      forall k | 0 <= k < |rest| - 1
        ensures FallbackReference(rest[k], rest[k + 1]) in plan.fallbackReferences
      {
        assert rest[k] == walk[k + 1] && rest[k + 1] == walk[(k + 1) + 1];
      }
      FallbackWalkAdvances(plan, rest);
    }
  }

  /** An admitted plan is sound, and its fallback graph has no cycle. */
  lemma ValidPlanIsSoundAndAcyclic(plan: ExecutionPlan, registry: CapabilityRegistry, digest: Digest, walk: seq<string>)
    requires ValidPlan(plan, registry, digest)
    ensures SoundPlan(plan)
    ensures |walk| >= 2 && FallbackWalk(walk, plan.fallbackReferences) ==> walk[0] != walk[|walk| - 1]
  {
    if |walk| >= 2 && FallbackWalk(walk, plan.fallbackReferences) {
      FallbackWalkAdvances(plan, walk);
    }
  }
}

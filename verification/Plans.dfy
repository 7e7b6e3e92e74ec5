/** Execution plans and the capability registry they are checked against. */
module Plans {
  import opened Wrappers
  import opened Text
  import opened Vocabulary

  datatype CancellationPolicy = CancelRemainingSteps | FinishInFlightOnly

  datatype CompletionPolicy = AllStepsMustSucceed | AllowDeclaredFallbackCompletion

  datatype ExecutionPlanStep = ExecutionPlanStep(
    stepId: string,
    capabilityId: CapabilityId,
    declaredSideEffectClass: SideEffectClass,
    timeoutBudgetMs: u64)

  datatype FallbackReference = FallbackReference(stepId: string, fallbackStepId: string)

  datatype ExecutionPlan = ExecutionPlan(
    executionPlanId: ExecutionPlanId,
    correlationId: CorrelationId,
    originatingRequestId: RequestId,
    steps: seq<ExecutionPlanStep>,
    referencedCapabilities: seq<CapabilityId>,
    declaredMaxStepCount: u32,
    declaredSideEffectClasses: seq<SideEffectClass>,
    fallbackReferences: seq<FallbackReference>,
    cancellationPolicy: CancellationPolicy,
    completionPolicy: CompletionPolicy,
    maxDurationBudgetMs: u64,
    stablePlanHash: string,
    plannedAtUtc: Timestamp)

  datatype ValidatedExecutionPlan = ValidatedExecutionPlan(plan: ExecutionPlan, stablePlanHash: string)

  datatype CapabilityRegistry = CapabilityRegistry(registryVersion: string, capabilities: seq<CapabilityRecord>)

  function FindCapability(entries: seq<CapabilityRecord>, id: CapabilityId): (r: Option<CapabilityRecord>)
    ensures r.Some? ==> r.value in entries && r.value.capabilityId == id
    ensures r.None? ==> forall entry :: entry in entries ==> entry.capabilityId != id
  {
    if entries == [] then None
    else if entries[0].capabilityId == id then Some(entries[0])
    else FindCapability(entries[1..], id)
  }

  function CapabilityFor(registry: CapabilityRegistry, id: CapabilityId): Option<CapabilityRecord> {
    FindCapability(registry.capabilities, id)
  }

  function StepIds(steps: seq<ExecutionPlanStep>): (ids: seq<string>)
    ensures |ids| == |steps|
    ensures forall i :: 0 <= i < |steps| ==> ids[i] == steps[i].stepId
  {
    seq(|steps|, i requires 0 <= i < |steps| => steps[i].stepId)
  }

  function TimeoutSum(steps: seq<ExecutionPlanStep>): nat {
    if steps == [] then 0 else TimeoutSum(steps[..|steps| - 1]) + steps[|steps| - 1].timeoutBudgetMs
  }
}

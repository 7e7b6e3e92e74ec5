/** The canonical form of a plan, and what two plans with one canonical form share. */
module CanonicalPlans {
  import opened Orders
  import opened ArraySort
  import opened Text
  import opened Vocabulary
  import opened Plans

  datatype CanonicalStep = CanonicalStep(
    stepId: string,
    capabilityText: string,
    sideEffectLabel: string,
    timeoutBudgetMs: u64)

  /** What the stable plan hash digests: sorted collections, no ids, no timestamps. */
  datatype CanonicalPlan = CanonicalPlan(
    steps: seq<CanonicalStep>,
    referencedCapabilities: seq<string>,
    declaredMaxStepCount: u32,
    declaredSideEffectClasses: seq<string>,
    fallbackReferences: seq<FallbackReference>,
    cancellationPolicy: CancellationPolicy,
    completionPolicy: CompletionPolicy,
    maxDurationBudgetMs: u64)

  /** Serialisation followed by SHA-256, as one function chosen by the environment. */
  type Digest = CanonicalPlan -> string

  function CapabilityText(id: CapabilityId): string {
    id
  }

  function CanonicalStepOf(step: ExecutionPlanStep): CanonicalStep {
    CanonicalStep(step.stepId, CapabilityText(step.capabilityId),
                  SideEffectLabel(step.declaredSideEffectClass), step.timeoutBudgetMs)
  }

  predicate ReferenceAtMost(a: FallbackReference, b: FallbackReference) {
    LexLess(a.stepId, b.stepId) ||
    (a.stepId == b.stepId && LexAtMost(a.fallbackStepId, b.fallbackStepId))
  }

  function CanonicalForm(plan: ExecutionPlan): CanonicalPlan {
    CanonicalPlan(
      MapSeq(CanonicalStepOf, plan.steps),
      SortBy(MapSeq(CapabilityText, plan.referencedCapabilities), LexAtMost),
      plan.declaredMaxStepCount,
      SortBy(MapSeq(SideEffectLabel, plan.declaredSideEffectClasses), LexAtMost),
      SortBy(plan.fallbackReferences, ReferenceAtMost),
      plan.cancellationPolicy,
      plan.completionPolicy,
      plan.maxDurationBudgetMs)
  }

  /** The same logical plan: everything execution governs, up to the order of the three
      collections whose order the plan contract gives no meaning. */
  predicate SameLogicalPlan(p: ExecutionPlan, q: ExecutionPlan) {
    && p.steps == q.steps
    && p.declaredMaxStepCount == q.declaredMaxStepCount
    && p.cancellationPolicy == q.cancellationPolicy
    && p.completionPolicy == q.completionPolicy
    && p.maxDurationBudgetMs == q.maxDurationBudgetMs
    && multiset(p.referencedCapabilities) == multiset(q.referencedCapabilities)
    && multiset(p.declaredSideEffectClasses) == multiset(q.declaredSideEffectClasses)
    && multiset(p.fallbackReferences) == multiset(q.fallbackReferences)
  }

  lemma ReferenceOrderIsTotal()
    ensures TotalOrder(ReferenceAtMost)
  {
    LexAtMostIsTotalOrder();
    forall a, b ensures ReferenceAtMost(a, b) || ReferenceAtMost(b, a) {
      LexLessConnects(a.stepId, b.stepId);
      assert LexAtMost(a.fallbackStepId, b.fallbackStepId) || LexAtMost(b.fallbackStepId, a.fallbackStepId);
    }
    forall a, b | ReferenceAtMost(a, b) && ReferenceAtMost(b, a) ensures a == b {
      ReferenceOrderIsAntisymmetric(a, b);
    }
    forall a, b, c | ReferenceAtMost(a, b) && ReferenceAtMost(b, c) ensures ReferenceAtMost(a, c) {
      ReferenceOrderIsTransitive(a, b, c);
    }
  }

  lemma ReferenceOrderIsAntisymmetric(a: FallbackReference, b: FallbackReference)
    requires ReferenceAtMost(a, b) && ReferenceAtMost(b, a)
    ensures a == b
  {
    if LexLess(a.stepId, b.stepId) {
      LexLessIsAsymmetric(a.stepId, b.stepId);
    } else if LexLess(b.stepId, a.stepId) {
      LexLessIsAsymmetric(b.stepId, a.stepId);
    } else if LexLess(a.fallbackStepId, b.fallbackStepId) {
      LexLessIsAsymmetric(a.fallbackStepId, b.fallbackStepId);
    }
  }

  lemma ReferenceOrderIsTransitive(a: FallbackReference, b: FallbackReference, c: FallbackReference)
    requires ReferenceAtMost(a, b) && ReferenceAtMost(b, c)
    ensures ReferenceAtMost(a, c)
  {
    if LexLess(a.stepId, b.stepId) && LexLess(b.stepId, c.stepId) {
      LexLessIsTransitive(a.stepId, b.stepId, c.stepId);
    } else if a.stepId == b.stepId == c.stepId {
      if a.fallbackStepId != b.fallbackStepId && b.fallbackStepId != c.fallbackStepId {
        LexLessIsTransitive(a.fallbackStepId, b.fallbackStepId, c.fallbackStepId);
      }
    }
  }

  lemma CanonicalStepsReflectSteps(a: seq<ExecutionPlanStep>, b: seq<ExecutionPlanStep>)
    ensures MapSeq(CanonicalStepOf, a) == MapSeq(CanonicalStepOf, b) <==> a == b
  {
    var left, right := MapSeq(CanonicalStepOf, a), MapSeq(CanonicalStepOf, b);
    if left == right {
      forall i | 0 <= i < |a| ensures a[i] == b[i] {
        assert left[i] == right[i];
        SideEffectLabelsAreDistinct(a[i].declaredSideEffectClass, b[i].declaredSideEffectClass);
      }
    }
  }

  /** Two plans share a canonical form exactly when they are the same logical plan. */
  lemma CanonicalFormIsCompleteInvariant(p: ExecutionPlan, q: ExecutionPlan)
    ensures CanonicalForm(p) == CanonicalForm(q) <==> SameLogicalPlan(p, q)
  {
    LexAtMostIsTotalOrder();
    ReferenceOrderIsTotal();
    CanonicalStepsReflectSteps(p.steps, q.steps);
    SortForgetsOrder(MapSeq(CapabilityText, p.referencedCapabilities),
                     MapSeq(CapabilityText, q.referencedCapabilities), LexAtMost);
    MapReflectsMultiset(CapabilityText, p.referencedCapabilities, q.referencedCapabilities);
    forall a, b | SideEffectLabel(a) == SideEffectLabel(b) ensures a == b {
      SideEffectLabelsAreDistinct(a, b);
    }
    SortForgetsOrder(MapSeq(SideEffectLabel, p.declaredSideEffectClasses),
                     MapSeq(SideEffectLabel, q.declaredSideEffectClasses), LexAtMost);
    MapReflectsMultiset(SideEffectLabel, p.declaredSideEffectClasses, q.declaredSideEffectClasses);
    SortForgetsOrder(p.fallbackReferences, q.fallbackReferences, ReferenceAtMost);
  }

  /** Sorts a copy of a collection in place. Equivalent members are equal, so the outcome is the
      one sorted list there is. */
  method Sorted<T(!new)>(s: seq<T>, le: (T, T) -> bool) returns (sorted: seq<T>)
    requires TotalOrder(le)
    ensures SortedBy(sorted, le) && multiset(sorted) == multiset(s)
    ensures sorted == SortBy(s, le)
  {
    var a := ToArray(s);
    SortInPlace(a, le);
    sorted := a[..];
    SortByIsSorted(s, le);
    SortedPermutationIsUnique(sorted, SortBy(s, le), le);
  }

  /** The hash digests the canonical form: its collections are sorted in place, and any way of
      sorting them gives the same digest. */
  method ComputeStablePlanHash(plan: ExecutionPlan, digest: Digest) returns (hash: string)
    ensures hash == digest(CanonicalForm(plan))
  {
    LexAtMostIsTotalOrder();
    ReferenceOrderIsTotal();
    var referencedCapabilities := Sorted(MapSeq(CapabilityText, plan.referencedCapabilities), LexAtMost);
    var declaredSideEffectClasses := Sorted(MapSeq(SideEffectLabel, plan.declaredSideEffectClasses), LexAtMost);
    var fallbackReferences := Sorted(plan.fallbackReferences, ReferenceAtMost);
    hash := digest(CanonicalPlan(
      MapSeq(CanonicalStepOf, plan.steps), referencedCapabilities, plan.declaredMaxStepCount,
      declaredSideEffectClasses, fallbackReferences, plan.cancellationPolicy,
      plan.completionPolicy, plan.maxDurationBudgetMs));
  }

  /** Two plans have one hash exactly when they are the same logical plan, so long as the digest
      does not collide on their two canonical forms. */
  lemma HashIdentifiesLogicalPlan(p: ExecutionPlan, q: ExecutionPlan, digest: Digest)
    requires digest(CanonicalForm(p)) == digest(CanonicalForm(q)) ==> CanonicalForm(p) == CanonicalForm(q)
    ensures digest(CanonicalForm(p)) == digest(CanonicalForm(q)) <==> SameLogicalPlan(p, q)
  {
    CanonicalFormIsCompleteInvariant(p, q);
  }
}

/** The service's shared vocabulary of identifiers and closed enumerations. */
module Vocabulary {
  import opened Text

  type RequestId = Uuid
  type CorrelationId = Uuid
  type RequesterId = Uuid
  type CapabilityId = Uuid
  type RouteDecisionId = Uuid
  type ExecutionPlanId = Uuid
  type ReviewPackageId = Uuid

  /** An instant; only the order of instants matters to the contracts. */
  type Timestamp = int

  const SERVICE_ID := "fa-local"

  datatype EnvironmentMode = Dev | Test | Staging | Prod | Airgapped | TestHarness

  datatype RequesterClass =
    | TrustedAppSurface
    | TrustedInternalService
    | ReviewSurface
    | DevelopmentTestSurface
    | UntrustedUnknown

  datatype ApprovalPosture =
    | Denied
    | ReviewRequired
    | ExplicitOperatorApproval
    | PolicyPreapproved
    | ExecuteAllowed
  {
    predicate IsAdmitted() {
      PolicyPreapproved? || ExecuteAllowed?
    }
  }

  datatype ExecutionState =
    | StateDenied
    | StateReviewRequired
    | WaitingExplicitApproval
    | AdmittedNotStarted
    | InProgress
    | Degraded
    | PartialSuccess
    | CompletedWithConstraints
    | Completed
    | Failed
    | Canceled
  {
    predicate IsPreExecution() {
      StateDenied? || StateReviewRequired? || WaitingExplicitApproval?
    }
  }

  datatype DegradedSubtype =
    | DegradedPreStart
    | DegradedInFlight
    | DegradedFallbackEquivalent
    | DegradedFallbackLimited
    | DegradedPartial
    | UnavailableDependencyBlock
  {
    predicate IsExplicitFallback() {
      DegradedFallbackEquivalent? || DegradedFallbackLimited?
    }
  }

  datatype SideEffectClass =
    | NoSideEffect
    | LocalFileWrite
    | LocalDbMutation
    | LocalProcessSpawn
    | ExternalNetworkDeniedByDefault
    | OtherGoverned

  datatype RevocationState = Active | RevocationDisabled | Revoked

  datatype EnabledState = Enabled | Disabled

  datatype ReviewClass = NoReview | OperatorReview

  /** One registered capability; provenance and resource budgets never decide anything here. */
  datatype CapabilityRecord = CapabilityRecord(
    capabilityId: CapabilityId,
    ownerService: string,
    sideEffectClass: SideEffectClass,
    approvalPosture: ApprovalPosture,
    allowedRequesterClasses: seq<RequesterClass>,
    timeoutBudgetMs: u64,
    enabledState: EnabledState,
    reviewClass: ReviewClass,
    revocationState: RevocationState)

  function SideEffectLabel(sideEffect: SideEffectClass): string {
    match sideEffect
    case NoSideEffect => "none"
    case LocalFileWrite => "local_file_write"
    case LocalDbMutation => "local_db_mutation"
    case LocalProcessSpawn => "local_process_spawn"
    case ExternalNetworkDeniedByDefault => "external_network_denied_by_default"
    case OtherGoverned => "other_governed"
  }

  lemma SideEffectLabelsAreDistinct(a: SideEffectClass, b: SideEffectClass)
    requires SideEffectLabel(a) == SideEffectLabel(b)
    ensures a == b
  {
    assert |SideEffectLabel(NoSideEffect)| == 4;
    assert |SideEffectLabel(LocalFileWrite)| == 16;
    assert |SideEffectLabel(LocalDbMutation)| == 17;
    assert |SideEffectLabel(LocalProcessSpawn)| == 19;
    assert |SideEffectLabel(ExternalNetworkDeniedByDefault)| == 34;
    assert |SideEffectLabel(OtherGoverned)| == 14;
  }
}

/** From a request to a route decision: trust, policy, capability admission and posture. */
module Admission {
  import opened Wrappers
  import opened Text
  import opened Characters
  import opened Vocabulary
  import opened Plans
  import opened Routing

  datatype UserIntentBasis = ExplicitUserAction | OperatorApproval

  datatype ExecutionRequest = ExecutionRequest(
    requestId: RequestId,
    correlationId: CorrelationId,
    requesterId: RequesterId,
    environmentMode: EnvironmentMode,
    requestedCapabilityId: CapabilityId,
    requestedSideEffectClass: SideEffectClass)

  datatype RequesterTrustEnvelope = RequesterTrustEnvelope(
    requesterId: RequesterId,
    requesterClass: RequesterClass,
    environmentMode: EnvironmentMode,
    userIntentBasis: Option<UserIntentBasis>,
    requestNonceOrToken: string,
    issuedAt: Timestamp,
    expiresAt: Timestamp)

  datatype CapabilityRule = CapabilityRule(
    capabilityId: CapabilityId,
    allowed: bool,
    allowedRequesterClasses: seq<RequesterClass>,
    allowedSideEffectClasses: seq<SideEffectClass>,
    requiredApprovalPosture: ApprovalPosture)

  datatype SideEffectRule = SideEffectRule(sideEffectClass: SideEffectClass, allowed: bool)

  datatype ApprovalRule = ApprovalRule(requesterClass: RequesterClass, maxPosture: ApprovalPosture)

  datatype PolicyArtifact = PolicyArtifact(
    scopeServiceId: string,
    scopeEnvironmentModes: seq<EnvironmentMode>,
    capabilityRules: seq<CapabilityRule>,
    sideEffectRules: seq<SideEffectRule>,
    approvalRules: seq<ApprovalRule>,
    environmentConditions: seq<EnvironmentMode>)

  /** Why a request is denied. The two load faults repeat what the loader said of the document. */
  datatype Denial =
    | EnvelopeUnusable(reason: string)
    | PolicyUnusable(reason: string)
    | UnknownRequester
    | TrustEnvironmentMismatch
    | InvalidTimeWindow
    | InvalidNonce
    | ExpiredNonce
    | PrerequisiteUnavailable
    | UnregisteredCapability
    | CapabilityDisabled
    | CapabilityRevoked
    | CapabilityNotOwned
    | RequesterClassNotAdmitted
    | SideEffectMismatch
    | CapabilityMissingFromPolicy
    | PolicyDeniesCapability
    | PolicyDeniesEnvironment
    | PolicyDeniesRequesterClass
    | PolicyDeniesSideEffectForCapability
    | RequesterMismatch
    | RequesterEnvironmentMismatch
    | PolicyScopeMismatch
    | CapabilityMismatch
    | NoApprovalRule
    | SideEffectClassDenied
    | PostureDenied

  // ---- Requester trust ------------------------------------------------------------------

  predicate IsNonceByte(c: char) {
    'a' <= c <= 'z' || 'A' <= c <= 'Z' || '0' <= c <= '9' || c == '.' || c == '_' || c == ':' || c == '-'
  }

  predicate IsValidNonce(s: string) {
    16 <= |s| <= 128 && forall i :: 0 <= i < |s| ==> IsNonceByte(s[i])
  }

  predicate TrustHolds(envelope: RequesterTrustEnvelope, expected: EnvironmentMode, now: Timestamp) {
    && envelope.requesterClass != UntrustedUnknown
    && envelope.environmentMode == expected
    && envelope.issuedAt < envelope.expiresAt
    && IsValidNonce(envelope.requestNonceOrToken)
    && now < envelope.expiresAt
  }

  function EvaluateTrust(envelope: RequesterTrustEnvelope, expected: EnvironmentMode, now: Timestamp)
    : (denial: Option<Denial>)
    ensures denial.None? <==> TrustHolds(envelope, expected, now)
  {
    if envelope.requesterClass == UntrustedUnknown then Some(UnknownRequester)
    else if envelope.environmentMode != expected then Some(TrustEnvironmentMismatch)
    else if envelope.issuedAt >= envelope.expiresAt then Some(InvalidTimeWindow)
    else if !IsValidNonce(envelope.requestNonceOrToken) then Some(InvalidNonce)
    else if now >= envelope.expiresAt then Some(ExpiredNonce)
    else None
  }

  /** The checks of an ordered list up to and including the first that fails: the failing one. */
  ghost predicate IsFirstFault(checks: seq<Denial>, faulty: Denial -> bool, denial: Denial) {
    exists k :: 0 <= k < |checks| && checks[k] == denial && faulty(denial) &&
      forall j :: 0 <= j < k ==> !faulty(checks[j])
  }

  const TRUST_CHECKS: seq<Denial> :=
    [UnknownRequester, TrustEnvironmentMismatch, InvalidTimeWindow, InvalidNonce, ExpiredNonce]

  predicate TrustFault(denial: Denial, envelope: RequesterTrustEnvelope, expected: EnvironmentMode, now: Timestamp) {
    match denial
    case UnknownRequester => envelope.requesterClass == UntrustedUnknown
    case TrustEnvironmentMismatch => envelope.environmentMode != expected
    case InvalidTimeWindow => envelope.issuedAt >= envelope.expiresAt
    case InvalidNonce => !IsValidNonce(envelope.requestNonceOrToken)
    case ExpiredNonce => now >= envelope.expiresAt
    case _ => false
  }

  /** Trust is denied for the first check that fails, and granted exactly when none does. */
  lemma TrustIsDeniedForFirstFault(envelope: RequesterTrustEnvelope, expected: EnvironmentMode, now: Timestamp)
    ensures var faulty := (denial: Denial) => TrustFault(denial, envelope, expected, now);
            match EvaluateTrust(envelope, expected, now)
            case None => forall denial :: denial in TRUST_CHECKS ==> !faulty(denial)
            case Some(denial) => IsFirstFault(TRUST_CHECKS, faulty, denial)
  {
    var faulty := (denial: Denial) => TrustFault(denial, envelope, expected, now);
    var outcome := EvaluateTrust(envelope, expected, now);
    if outcome.Some? {
      var k := match outcome.value
        case UnknownRequester => 0
        case TrustEnvironmentMismatch => 1
        case InvalidTimeWindow => 2
        case InvalidNonce => 3
        case _ => 4;
      assert TRUST_CHECKS[k] == outcome.value;
      assert forall j :: 0 <= j < k ==> !faulty(TRUST_CHECKS[j]);
    }
  }

  // ---- Policy lookups --------------------------------------------------------------------

  function CapabilityRuleIn(rules: seq<CapabilityRule>, id: CapabilityId): (r: Option<CapabilityRule>)
    ensures r.Some? ==> r.value in rules && r.value.capabilityId == id
    ensures r.None? ==> forall rule :: rule in rules ==> rule.capabilityId != id
  {
    if rules == [] then None
    else if rules[0].capabilityId == id then Some(rules[0])
    else CapabilityRuleIn(rules[1..], id)
  }

  function ApprovalRuleIn(rules: seq<ApprovalRule>, requesterClass: RequesterClass): (r: Option<ApprovalRule>)
    ensures r.Some? ==> r.value in rules && r.value.requesterClass == requesterClass
    ensures r.None? ==> forall rule :: rule in rules ==> rule.requesterClass != requesterClass
  {
    if rules == [] then None
    else if rules[0].requesterClass == requesterClass then Some(rules[0])
    else ApprovalRuleIn(rules[1..], requesterClass)
  }

  function SideEffectRuleIn(rules: seq<SideEffectRule>, sideEffect: SideEffectClass): (r: Option<SideEffectRule>)
    ensures r.Some? ==> r.value in rules && r.value.sideEffectClass == sideEffect
    ensures r.None? ==> forall rule :: rule in rules ==> rule.sideEffectClass != sideEffect
  {
    if rules == [] then None
    else if rules[0].sideEffectClass == sideEffect then Some(rules[0])
    else SideEffectRuleIn(rules[1..], sideEffect)
  }

  predicate PolicyAdmitsEnvironment(policy: PolicyArtifact, mode: EnvironmentMode) {
    mode in policy.scopeEnvironmentModes && mode in policy.environmentConditions
  }

  predicate SideEffectAllowed(policy: PolicyArtifact, sideEffect: SideEffectClass) {
    var rule := SideEffectRuleIn(policy.sideEffectRules, sideEffect);
    rule.Some? && rule.value.allowed
  }

  // ---- Capability admission --------------------------------------------------------------

  predicate RecordAdmits(capability: CapabilityRecord, requester: RequesterTrustEnvelope, request: ExecutionRequest) {
    && capability.enabledState != Disabled
    && capability.revocationState != Revoked
    && capability.ownerService == SERVICE_ID
    && requester.requesterClass in capability.allowedRequesterClasses
    && capability.sideEffectClass == request.requestedSideEffectClass
  }

  predicate RuleAdmits(rule: CapabilityRule, requester: RequesterTrustEnvelope, request: ExecutionRequest) {
    && rule.allowed
    && requester.requesterClass in rule.allowedRequesterClasses
    && request.requestedSideEffectClass in rule.allowedSideEffectClasses
  }

  predicate CapabilityAdmitted(registry: CapabilityRegistry, policy: PolicyArtifact, requester: RequesterTrustEnvelope,
                               request: ExecutionRequest)
  {
    var capability := CapabilityFor(registry, request.requestedCapabilityId);
    var rule := CapabilityRuleIn(policy.capabilityRules, request.requestedCapabilityId);
    && capability.Some? && RecordAdmits(capability.value, requester, request)
    && rule.Some? && RuleAdmits(rule.value, requester, request)
    && PolicyAdmitsEnvironment(policy, request.environmentMode)
  }

  function AdmitExecutionRequest(registry: CapabilityRegistry, policy: PolicyArtifact,
                                 requester: RequesterTrustEnvelope, request: ExecutionRequest)
    : (r: Result<CapabilityRecord, Denial>)
    ensures r.Success? <==> CapabilityAdmitted(registry, policy, requester, request)
    ensures r.Success? ==> CapabilityFor(registry, request.requestedCapabilityId) == Some(r.value)
  {
    match CapabilityFor(registry, request.requestedCapabilityId)
    case None => Failure(UnregisteredCapability)
    case Some(capability) =>
      if capability.enabledState == Disabled then Failure(CapabilityDisabled)
      else if capability.revocationState == Revoked then Failure(CapabilityRevoked)
      else if capability.ownerService != SERVICE_ID then Failure(CapabilityNotOwned)
      else if requester.requesterClass !in capability.allowedRequesterClasses then Failure(RequesterClassNotAdmitted)
      else if capability.sideEffectClass != request.requestedSideEffectClass then Failure(SideEffectMismatch)
      else match CapabilityRuleIn(policy.capabilityRules, capability.capabilityId)
        case None => Failure(CapabilityMissingFromPolicy)
        case Some(rule) =>
          if !rule.allowed then Failure(PolicyDeniesCapability)
          else if !PolicyAdmitsEnvironment(policy, request.environmentMode) then Failure(PolicyDeniesEnvironment)
          else if requester.requesterClass !in rule.allowedRequesterClasses then Failure(PolicyDeniesRequesterClass)
          else if request.requestedSideEffectClass !in rule.allowedSideEffectClasses then
            Failure(PolicyDeniesSideEffectForCapability)
          else Success(capability)
  }

  const ADMISSION_CHECKS: seq<Denial> := [
    UnregisteredCapability, CapabilityDisabled, CapabilityRevoked, CapabilityNotOwned, RequesterClassNotAdmitted,
    SideEffectMismatch, CapabilityMissingFromPolicy, PolicyDeniesCapability, PolicyDeniesEnvironment,
    PolicyDeniesRequesterClass, PolicyDeniesSideEffectForCapability]

  predicate AdmissionFault(denial: Denial, registry: CapabilityRegistry, policy: PolicyArtifact,
                           requester: RequesterTrustEnvelope, request: ExecutionRequest)
  {
    var capability := CapabilityFor(registry, request.requestedCapabilityId);
    var rule := CapabilityRuleIn(policy.capabilityRules, request.requestedCapabilityId);
    match denial
    case UnregisteredCapability => capability.None?
    case CapabilityDisabled => capability.Some? && capability.value.enabledState == Disabled
    case CapabilityRevoked => capability.Some? && capability.value.revocationState == Revoked
    case CapabilityNotOwned => capability.Some? && capability.value.ownerService != SERVICE_ID
    case RequesterClassNotAdmitted =>
      capability.Some? && requester.requesterClass !in capability.value.allowedRequesterClasses
    case SideEffectMismatch => capability.Some? && capability.value.sideEffectClass != request.requestedSideEffectClass
    case CapabilityMissingFromPolicy => rule.None?
    case PolicyDeniesCapability => rule.Some? && !rule.value.allowed
    case PolicyDeniesEnvironment => !PolicyAdmitsEnvironment(policy, request.environmentMode)
    case PolicyDeniesRequesterClass => rule.Some? && requester.requesterClass !in rule.value.allowedRequesterClasses
    case PolicyDeniesSideEffectForCapability =>
      rule.Some? && request.requestedSideEffectClass !in rule.value.allowedSideEffectClasses
    case _ => false
  }

  /** A request is refused for the first check that fails, and admitted exactly when none does. */
  lemma RequestIsRefusedForFirstFault(registry: CapabilityRegistry, policy: PolicyArtifact,
                                      requester: RequesterTrustEnvelope, request: ExecutionRequest)
    ensures var faulty := (denial: Denial) => AdmissionFault(denial, registry, policy, requester, request);
            match AdmitExecutionRequest(registry, policy, requester, request)
            case Success(_) => forall denial :: denial in ADMISSION_CHECKS ==> !faulty(denial)
            case Failure(denial) => IsFirstFault(ADMISSION_CHECKS, faulty, denial)
  {
    var faulty := (denial: Denial) => AdmissionFault(denial, registry, policy, requester, request);
    var outcome := AdmitExecutionRequest(registry, policy, requester, request);
    if outcome.Failure? {
      var k := AdmissionIndex(outcome.error);
      EarlierChecksPass(registry, policy, requester, request);
      assert ADMISSION_CHECKS[k] == outcome.error;
    }
  }

  /** The place of a check among those of capability admission. */
  function AdmissionIndex(denial: Denial): (k: nat)
    ensures k < |ADMISSION_CHECKS|
  {
    match denial
    case UnregisteredCapability => 0
    case CapabilityDisabled => 1
    case CapabilityRevoked => 2
    case CapabilityNotOwned => 3
    case RequesterClassNotAdmitted => 4
    case SideEffectMismatch => 5
    case CapabilityMissingFromPolicy => 6
    case PolicyDeniesCapability => 7
    case PolicyDeniesEnvironment => 8
    case PolicyDeniesRequesterClass => 9
    case _ => 10
  }

  lemma EarlierChecksPass(registry: CapabilityRegistry, policy: PolicyArtifact, requester: RequesterTrustEnvelope,
                          request: ExecutionRequest)
    ensures var outcome := AdmitExecutionRequest(registry, policy, requester, request);
            outcome.Failure? ==>
              && ADMISSION_CHECKS[AdmissionIndex(outcome.error)] == outcome.error
              && AdmissionFault(outcome.error, registry, policy, requester, request)
              && forall j :: 0 <= j < AdmissionIndex(outcome.error) ==>
                   !AdmissionFault(ADMISSION_CHECKS[j], registry, policy, requester, request)
  {
  }

  // ---- Posture ---------------------------------------------------------------------------

  function Rank(posture: ApprovalPosture): nat {
    match posture
    case Denied => 0
    case ReviewRequired => 1
    case ExplicitOperatorApproval => 2
    case PolicyPreapproved => 3
    case ExecuteAllowed => 4
  }

  function SideEffectMinimum(sideEffect: SideEffectClass): ApprovalPosture {
    match sideEffect
    case NoSideEffect => ExecuteAllowed
    case LocalFileWrite | LocalDbMutation => PolicyPreapproved
    case LocalProcessSpawn | OtherGoverned => ExplicitOperatorApproval
    case ExternalNetworkDeniedByDefault => Denied
  }

  function ReviewClassMinimum(reviewClass: ReviewClass): ApprovalPosture {
    match reviewClass
    case NoReview => ExecuteAllowed
    case OperatorReview => ExplicitOperatorApproval
  }

  function UserIntentMinimum(basis: Option<UserIntentBasis>): ApprovalPosture {
    if basis.Some? then ExecuteAllowed else ReviewRequired
  }

  /** The least of several postures. */
  function MinPosture(postures: seq<ApprovalPosture>): (m: ApprovalPosture)
    requires postures != []
    ensures m in postures
    ensures forall k :: 0 <= k < |postures| ==> Rank(m) <= Rank(postures[k])
  {
    if |postures| == 1 then postures[0]
    else
      var rest := MinPosture(postures[1..]);
      if Rank(postures[0]) <= Rank(rest) then postures[0] else rest
  }

  /** The six factors that decide a posture. */
  function Factors(approval: ApprovalRule, rule: CapabilityRule, capability: CapabilityRecord,
                   requester: RequesterTrustEnvelope, request: ExecutionRequest): (factors: seq<ApprovalPosture>)
    ensures |factors| == 6
  {
    [approval.maxPosture, rule.requiredApprovalPosture, capability.approvalPosture,
     ReviewClassMinimum(capability.reviewClass), SideEffectMinimum(request.requestedSideEffectClass),
     UserIntentMinimum(requester.userIntentBasis)]
  }

  /** Lowering any factor never raises the result. */
  lemma LoweringNeverRaises(lower: seq<ApprovalPosture>, higher: seq<ApprovalPosture>)
    requires |lower| == |higher| > 0
    requires forall k :: 0 <= k < |lower| ==> Rank(lower[k]) <= Rank(higher[k])
    ensures Rank(MinPosture(lower)) <= Rank(MinPosture(higher))
  {
    var k :| 0 <= k < |higher| && higher[k] == MinPosture(higher);
    assert Rank(MinPosture(lower)) <= Rank(lower[k]) <= Rank(higher[k]);
  }

  /** The result admits execution exactly when every factor does. */
  lemma AdmittedExactlyWhenEveryFactorAdmits(factors: seq<ApprovalPosture>)
    requires factors != []
    ensures MinPosture(factors).IsAdmitted() <==>
            forall k :: 0 <= k < |factors| ==> Rank(factors[k]) >= Rank(PolicyPreapproved)
  {
    var k :| 0 <= k < |factors| && factors[k] == MinPosture(factors);
    assert Rank(factors[k]) >= Rank(PolicyPreapproved) <==> factors[k].IsAdmitted();
  }

  // ---- Resolution ------------------------------------------------------------------------

  /** The clauses checked again once trust, policy and capability are all in hand. */
  predicate ConsistencyFault(denial: Denial, request: ExecutionRequest, requester: RequesterTrustEnvelope,
                             policy: PolicyArtifact, capability: CapabilityRecord)
  {
    match denial
    case RequesterMismatch => request.requesterId != requester.requesterId
    case RequesterEnvironmentMismatch => request.environmentMode != requester.environmentMode
    case PolicyScopeMismatch => policy.scopeServiceId != SERVICE_ID
    case PolicyDeniesEnvironment => !PolicyAdmitsEnvironment(policy, request.environmentMode)
    case CapabilityMismatch => capability.capabilityId != request.requestedCapabilityId
    case CapabilityNotOwned => capability.ownerService != SERVICE_ID
    case SideEffectMismatch => capability.sideEffectClass != request.requestedSideEffectClass
    case CapabilityMissingFromPolicy => CapabilityRuleIn(policy.capabilityRules, capability.capabilityId).None?
    case NoApprovalRule => ApprovalRuleIn(policy.approvalRules, requester.requesterClass).None?
    case SideEffectClassDenied => !SideEffectAllowed(policy, request.requestedSideEffectClass)
    case _ => false
  }

  /** The consistency clauses, in the order they are checked. */
  const CONSISTENCY_CLAUSES: seq<Denial> := [
    RequesterMismatch, RequesterEnvironmentMismatch, PolicyScopeMismatch, PolicyDeniesEnvironment, CapabilityMismatch,
    CapabilityNotOwned, SideEffectMismatch, CapabilityMissingFromPolicy, NoApprovalRule, SideEffectClassDenied]

  /** The clauses of a list that fail, in order. */
  function Failing(clauses: seq<Denial>, faulty: Denial -> bool): (denials: seq<Denial>)
    ensures forall denial :: denial in denials <==> denial in clauses && faulty(denial)
  {
    if clauses == [] then []
    else
      var rest := Failing(clauses[1..], faulty);
      assert forall denial :: denial in clauses <==> denial == clauses[0] || denial in clauses[1..];
      if faulty(clauses[0]) then [clauses[0]] + rest else rest
  }

  lemma EveryClauseIsListed(denial: Denial)
    requires denial.RequesterMismatch? || denial.RequesterEnvironmentMismatch? || denial.PolicyScopeMismatch? ||
             denial.PolicyDeniesEnvironment? || denial.CapabilityMismatch? || denial.CapabilityNotOwned? ||
             denial.SideEffectMismatch? || denial.CapabilityMissingFromPolicy? || denial.NoApprovalRule? ||
             denial.SideEffectClassDenied?
    ensures denial in CONSISTENCY_CLAUSES
  {
  }

  function Violated(request: ExecutionRequest, requester: RequesterTrustEnvelope, policy: PolicyArtifact,
                    capability: CapabilityRecord): Denial -> bool
  {
    denial => ConsistencyFault(denial, request, requester, policy, capability)
  }

  /** Every violated clause, and nothing else. */
  function ValidateConsistency(request: ExecutionRequest, requester: RequesterTrustEnvelope, policy: PolicyArtifact,
                               capability: CapabilityRecord): (denials: seq<Denial>)
    ensures forall denial :: denial in denials <==> ConsistencyFault(denial, request, requester, policy, capability)
  {
    var faulty := Violated(request, requester, policy, capability);
    assert forall denial :: faulty(denial) ==> denial in CONSISTENCY_CLAUSES by {
      forall denial | faulty(denial) ensures denial in CONSISTENCY_CLAUSES {
        EveryClauseIsListed(denial);
      }
    }
    Failing(CONSISTENCY_CLAUSES, faulty)
  }

  /** The place of a consistency clause among those checked. */
  function ClauseIndex(denial: Denial): nat {
    match denial
    case RequesterMismatch => 0
    case RequesterEnvironmentMismatch => 1
    case PolicyScopeMismatch => 2
    case PolicyDeniesEnvironment => 3
    case CapabilityMismatch => 4
    case CapabilityNotOwned => 5
    case SideEffectMismatch => 6
    case CapabilityMissingFromPolicy => 7
    case NoApprovalRule => 8
    case SideEffectClassDenied => 9
    case _ => 10
  }

  ghost predicate InClauseOrder(denials: seq<Denial>) {
    forall i, j :: 0 <= i < j < |denials| ==> ClauseIndex(denials[i]) < ClauseIndex(denials[j])
  }

  lemma {:induction false} FailingKeepsOrder(clauses: seq<Denial>, faulty: Denial -> bool)
    requires InClauseOrder(clauses)
    ensures InClauseOrder(Failing(clauses, faulty))
  {
    if clauses != [] {
      var rest := Failing(clauses[1..], faulty);
      FailingKeepsOrder(clauses[1..], faulty);
      forall j | 0 <= j < |rest| ensures ClauseIndex(clauses[0]) < ClauseIndex(rest[j]) {
        assert rest[j] in rest;
        var m :| 0 <= m < |clauses[1..]| && clauses[1..][m] == rest[j];
      }
    }
  }

  lemma ClausesAreInOrder()
    ensures InClauseOrder(CONSISTENCY_CLAUSES)
  {
  }

  /** The violated clauses are listed once each, in the order they are checked, so the first
      one decides what the operator reads. */
  lemma ViolationsAreListedInOrder(request: ExecutionRequest, requester: RequesterTrustEnvelope, policy: PolicyArtifact,
                                   capability: CapabilityRecord)
    ensures InClauseOrder(ValidateConsistency(request, requester, policy, capability))
  {
    ClausesAreInOrder();
    FailingKeepsOrder(CONSISTENCY_CLAUSES, Violated(request, requester, policy, capability));
  }

  datatype ResolutionInput = ResolutionInput(
    request: ExecutionRequest,
    trust: Result<RequesterTrustEnvelope, Denial>,
    policy: Result<PolicyArtifact, Denial>,
    admission: Result<CapabilityRecord, Denial>)

  /** Every prerequisite succeeded and no consistency clause fails. */
  ghost predicate Undenied(input: ResolutionInput) {
    && input.trust.Success? && input.policy.Success? && input.admission.Success?
    && forall denial ::
       !ConsistencyFault(denial, input.request, input.trust.value, input.policy.value, input.admission.value)
  }

  /** Both rules that judge a posture are found on every undenied input. */
  lemma RuleLookupsCannotFail(input: ResolutionInput)
    requires Undenied(input)
    ensures CapabilityRuleIn(input.policy.value.capabilityRules, input.admission.value.capabilityId).Some?
    ensures ApprovalRuleIn(input.policy.value.approvalRules, input.trust.value.requesterClass).Some?
  {
    var policy, capability, requester := input.policy.value, input.admission.value, input.trust.value;
    assert !ConsistencyFault(CapabilityMissingFromPolicy, input.request, requester, policy, capability);
    assert !ConsistencyFault(NoApprovalRule, input.request, requester, policy, capability);
  }

  /** The rules an undenied input is judged by. */
  ghost function JudgedFactors(input: ResolutionInput): (factors: seq<ApprovalPosture>)
    requires Undenied(input)
    ensures |factors| == 6
  {
    var policy, capability, requester := input.policy.value, input.admission.value, input.trust.value;
    RuleLookupsCannotFail(input);
    Factors(ApprovalRuleIn(policy.approvalRules, requester.requesterClass).value,
            CapabilityRuleIn(policy.capabilityRules, capability.capabilityId).value, capability, requester,
            input.request)
  }

  datatype Resolution = Resolution(decision: RouteDecision, denials: seq<Denial>)

  // ---- What the operator reads ---------------------------------------------------------------

  function DenialText(denial: Denial, sideEffect: SideEffectClass): (text: string)
    ensures denial.EnvelopeUnusable? || denial.PolicyUnusable? || |text| <= 80
  {
    match denial
    case EnvelopeUnusable(reason) => reason
    case PolicyUnusable(reason) => reason
    case UnknownRequester => "unknown requester denied"
    case TrustEnvironmentMismatch => "environment mismatch"
    case InvalidTimeWindow => "request token or nonce has an invalid time window"
    case InvalidNonce => "request token or nonce is invalid"
    case ExpiredNonce => "request token or nonce is expired"
    case PrerequisiteUnavailable => "capability admission requires successful requester trust and policy evaluation"
    case _ => CapabilityDenialText(denial, sideEffect)
  }

  function CapabilityDenialText(denial: Denial, sideEffect: SideEffectClass): (text: string)
    ensures |text| <= 80
  {
    match denial
    case UnregisteredCapability => "unregistered capability"
    case CapabilityDisabled => "capability is disabled"
    case CapabilityRevoked => "capability is revoked"
    case CapabilityNotOwned => "capability owner does not match fa-local"
    case RequesterClassNotAdmitted => "requester class is not admitted for capability"
    case SideEffectMismatch => "policy/capability mismatch: requested side effect does not match capability"
    case CapabilityMissingFromPolicy => "policy/capability mismatch: capability missing from policy"
    case PolicyDeniesCapability => "policy denies capability"
    case PolicyDeniesEnvironment => "policy does not admit this environment"
    case PolicyDeniesRequesterClass => "policy/capability mismatch: requester class not allowed"
    case PolicyDeniesSideEffectForCapability => "policy/capability mismatch: side effect class not allowed"
    case _ => ResolutionDenialText(denial, sideEffect)
  }

  function ResolutionDenialText(denial: Denial, sideEffect: SideEffectClass): (text: string)
    ensures |text| <= 80
  {
    match denial
    case RequesterMismatch => "requester envelope does not match execution request"
    case RequesterEnvironmentMismatch => "requester environment does not match execution request"
    case CapabilityMismatch => "capability decision does not match execution request"
    case PolicyScopeMismatch => "policy service scope does not match fa-local"
    case NoApprovalRule => "policy lacks requester approval rule"
    case SideEffectClassDenied => "policy denies requested side effect class"
    case _ => PostureDenialText(sideEffect)
  }

  /** What is said when the posture itself denies. */
  function PostureDenialText(sideEffect: SideEffectClass): (text: string)
    ensures |text| <= 80
  {
    if sideEffect.ExternalNetworkDeniedByDefault? then "requested side effect is denied by bounded doctrine"
    else "approval posture resolution denied request"
  }

  const DENIAL_PREFIX := "request denied: "

  /** The summary before it is bounded: the first denial's text, or the posture. */
  function OperatorText(request: ExecutionRequest, posture: ApprovalPosture, denials: seq<Denial>): string {
    match posture
    case Denied =>
      DENIAL_PREFIX + if denials == [] then "request denied"
        else DenialText(denials[0], request.requestedSideEffectClass)
    case ReviewRequired => "request requires review for capability " + request.requestedCapabilityId
    case ExplicitOperatorApproval =>
      "request requires explicit operator approval for capability " + request.requestedCapabilityId
    case PolicyPreapproved => "request is policy preapproved for capability " + request.requestedCapabilityId
    case ExecuteAllowed => "request is execute allowed for capability " + request.requestedCapabilityId
  }

  /** The first denial repeats what a loader said. */
  predicate RepeatsLoader(denials: seq<Denial>) {
    denials != [] && (denials[0].EnvelopeUnusable? || denials[0].PolicyUnusable?)
  }

  /** A text that repeats no loader is kept whole. */
  lemma FixedTextIsKept(request: ExecutionRequest, posture: ApprovalPosture, denials: seq<Denial>)
    requires !(posture.Denied? && RepeatsLoader(denials))
    ensures IsBoundedSummary(OperatorText(request, posture, denials))
    ensures BoundedSummary(OperatorText(request, posture, denials)) == Some(OperatorText(request, posture, denials))
  {
    assert |DENIAL_PREFIX| == 16 && |"request denied"| == 14;
    if posture.Denied? && denials != [] {
      assert |DenialText(denials[0], request.requestedSideEffectClass)| <= 80;
    }
    ShortTextIsKept(OperatorText(request, posture, denials));
  }

  function DecisionFor(request: ExecutionRequest, decisionId: RouteDecisionId, posture: ApprovalPosture,
                       summary: string)
    : (decision: RouteDecision)
    ensures ConsistentSurface(decision)
  {
    RouteDecision(decisionId, request.correlationId, request.requestId, posture, posture.IsAdmitted(),
                  posture == ReviewRequired, posture == ExplicitOperatorApproval, request.requestedCapabilityId,
                  summary)
  }

  /** The denial comes from a failed stage, or from a clause that fails when no stage did. */
  ghost predicate IsGround(input: ResolutionInput, denial: Denial) {
    || input.trust == Failure(denial) || input.policy == Failure(denial) || input.admission == Failure(denial)
    || (input.trust.Success? && input.policy.Success? && input.admission.Success? &&
        ConsistencyFault(denial, input.request, input.trust.value, input.policy.value, input.admission.value))
  }

  function StageDenial<T>(stage: Result<T, Denial>): seq<Denial> {
    if stage.Failure? then [stage.error] else []
  }

  function InconsistencyDenials(input: ResolutionInput): (denials: seq<Denial>)
    ensures forall denial :: denial in denials <==>
              input.trust.Success? && input.policy.Success? && input.admission.Success? &&
              ConsistencyFault(denial, input.request, input.trust.value, input.policy.value, input.admission.value)
  {
    if input.trust.Success? && input.policy.Success? && input.admission.Success? then
      ValidateConsistency(input.request, input.trust.value, input.policy.value, input.admission.value)
    else []
  }

  /** The denials of every failed stage, then those of the consistency clauses. */
  function Denials(input: ResolutionInput): seq<Denial> {
    StageDenial(input.trust) + StageDenial(input.policy) + StageDenial(input.admission) + InconsistencyDenials(input)
  }

  /** The listed denials are the grounds there are, and no others. */
  lemma DenialsAreTheGrounds(input: ResolutionInput)
    ensures forall denial :: denial in Denials(input) <==> IsGround(input, denial)
    ensures Denials(input) == [] <==> Undenied(input)
  {
    var inconsistent := InconsistencyDenials(input);
    forall denial ensures denial in Denials(input) <==> IsGround(input, denial) {
      var stages := StageDenial(input.trust) + StageDenial(input.policy) + StageDenial(input.admission);
      assert denial in stages <==>
             input.trust == Failure(denial) || input.policy == Failure(denial) || input.admission == Failure(denial);
      assert denial in Denials(input) <==> denial in stages || denial in inconsistent;
    }
    assert inconsistent != [] ==> inconsistent[0] in inconsistent;
  }

  method CollectDenials(input: ResolutionInput) returns (denials: seq<Denial>)
    ensures denials == Denials(input)
  {
    denials := [];
    if input.trust.Failure? {
      denials := denials + [input.trust.error];
    }
    if input.policy.Failure? {
      denials := denials + [input.policy.error];
    }
    if input.admission.Failure? {
      denials := denials + [input.admission.error];
    }
    if input.trust.Success? && input.policy.Success? && input.admission.Success? {
      denials := denials +
        ValidateConsistency(input.request, input.trust.value, input.policy.value, input.admission.value);
    }
  }

  /** The posture of an undenied input; both rule lookups succeed. */
  method JudgePosture(input: ResolutionInput) returns (posture: ApprovalPosture)
    requires Undenied(input)
    ensures posture == MinPosture(JudgedFactors(input))
  {
    var requester, policy, capability := input.trust.value, input.policy.value, input.admission.value;
    RuleLookupsCannotFail(input);
    var rule := CapabilityRuleIn(policy.capabilityRules, capability.capabilityId).value;
    var approval := ApprovalRuleIn(policy.approvalRules, requester.requesterClass).value;
    posture := MinPosture(Factors(approval, rule, capability, requester, input.request));
  }

  ghost function ResolvedPosture(input: ResolutionInput): ApprovalPosture {
    if Undenied(input) then MinPosture(JudgedFactors(input)) else Denied
  }

  /** The grounds, or the posture itself where nothing else denies. */
  ghost function ResolvedDenials(input: ResolutionInput): seq<Denial> {
    if Denials(input) == [] && ResolvedPosture(input) == Denied then [PostureDenied] else Denials(input)
  }

  function Resolved(request: ExecutionRequest, decisionId: RouteDecisionId, posture: ApprovalPosture,
                    denials: seq<Denial>)
    : (resolution: Option<Resolution>)
    ensures resolution.Some? ==> ConsistentSurface(resolution.value.decision)
  {
    match BoundedSummary(OperatorText(request, posture, denials))
    case None => None
    case Some(summary) => Some(Resolution(DecisionFor(request, decisionId, posture, summary), denials))
  }

  /** Resolves a posture: the least factor when nothing is denied, and denied otherwise. There is
      no resolution when bounding the operator's summary would cut inside a character. */
  method Resolve(input: ResolutionInput, decisionId: RouteDecisionId) returns (resolution: Option<Resolution>)
    ensures resolution == Resolved(input.request, decisionId, ResolvedPosture(input), ResolvedDenials(input))
    ensures ResolvedPosture(input) == Denied <==> ResolvedDenials(input) != []
    ensures forall denial :: denial in ResolvedDenials(input) <==>
              IsGround(input, denial) || (denial == PostureDenied && ResolvedDenials(input) == [PostureDenied])
  {
    DenialsAreTheGrounds(input);
    var denials := CollectDenials(input);
    if denials != [] {
      return Resolved(input.request, decisionId, Denied, denials);
    }
    var posture := JudgePosture(input);
    if posture == Denied {
      denials := [PostureDenied];
    }
    resolution := Resolved(input.request, decisionId, posture, denials);
  }

  // ---- End to end ------------------------------------------------------------------------

  /** Everything that must hold for a request to be executed without a human in the loop. A
      document that could not be read is a failure with the loader's words. */
  predicate ExecutionPermitted(request: ExecutionRequest, envelope: Result<RequesterTrustEnvelope, string>,
                               policy: Result<PolicyArtifact, string>, registry: CapabilityRegistry, now: Timestamp)
  {
    && envelope.Success? && policy.Success?
    && TrustHolds(envelope.value, request.environmentMode, now)
    && request.requesterId == envelope.value.requesterId
    && policy.value.scopeServiceId == SERVICE_ID
    && CapabilityAdmitted(registry, policy.value, envelope.value, request)
    && SideEffectAllowed(policy.value, request.requestedSideEffectClass)
    && var approval := ApprovalRuleIn(policy.value.approvalRules, envelope.value.requesterClass);
       var rule := CapabilityRuleIn(policy.value.capabilityRules, request.requestedCapabilityId).value;
       var capability := CapabilityFor(registry, request.requestedCapabilityId).value;
       && approval.Some?
       && forall k :: 0 <= k < 6 ==>
            Rank(Factors(approval.value, rule, capability, envelope.value, request)[k]) >= Rank(PolicyPreapproved)
  }

  /** The loader's words, where the operator's summary repeats them. */
  function LoaderReason(request: ExecutionRequest, envelope: Result<RequesterTrustEnvelope, string>,
                        policy: Result<PolicyArtifact, string>, now: Timestamp): Option<string>
  {
    if envelope.Failure? then Some(envelope.error)
    else if policy.Failure? && TrustHolds(envelope.value, request.environmentMode, now) then Some(policy.error)
    else None
  }

  /** Bounding the summary would cut the loader's words inside a character. */
  predicate SummaryIsCut(request: ExecutionRequest, envelope: Result<RequesterTrustEnvelope, string>,
                         policy: Result<PolicyArtifact, string>, now: Timestamp)
  {
    var reason := LoaderReason(request, envelope, policy, now);
    reason.Some? && IsCutInsideCharacter(DENIAL_PREFIX + reason.value)
  }

  /** The loader's words, if they are repeated, either keep the byte bound or are cut to it. */
  predicate SummaryFits(request: ExecutionRequest, envelope: Result<RequesterTrustEnvelope, string>,
                        policy: Result<PolicyArtifact, string>, now: Timestamp)
  {
    var reason := LoaderReason(request, envelope, policy, now);
    reason.Some? ==>
      |DENIAL_PREFIX + reason.value| <= SUMMARY_BOUND || CharCount(DENIAL_PREFIX + reason.value) > SUMMARY_BOUND
  }

  /** What the loading stages hand to resolution. */
  ghost predicate IsStaged(input: ResolutionInput, envelope: Result<RequesterTrustEnvelope, string>,
                           policy: Result<PolicyArtifact, string>, registry: CapabilityRegistry, now: Timestamp)
  {
    && input.trust == (match envelope
                       case Failure(reason) => Failure(EnvelopeUnusable(reason))
                       case Success(read) => Trusted(read, input.request.environmentMode, now))
    && input.policy == (match policy
                        case Failure(reason) => Failure(PolicyUnusable(reason))
                        case Success(read) => Success(read))
    && input.admission == if input.trust.Success? && input.policy.Success?
                          then AdmitExecutionRequest(registry, input.policy.value, input.trust.value, input.request)
                          else Failure(PrerequisiteUnavailable)
  }

  function Trusted(envelope: RequesterTrustEnvelope, expected: EnvironmentMode, now: Timestamp)
    : Result<RequesterTrustEnvelope, Denial>
  {
    match EvaluateTrust(envelope, expected, now)
    case None => Success(envelope)
    case Some(denial) => Failure(denial)
  }

  lemma TrustNeverRepeatsLoader(envelope: RequesterTrustEnvelope, expected: EnvironmentMode, now: Timestamp)
    ensures Trusted(envelope, expected, now).Failure? <==> !TrustHolds(envelope, expected, now)
    ensures Trusted(envelope, expected, now).Failure? ==> !RepeatsLoader([Trusted(envelope, expected, now).error])
  {
  }

  lemma AdmissionNeverRepeatsLoader(registry: CapabilityRegistry, policy: PolicyArtifact,
                                    requester: RequesterTrustEnvelope, request: ExecutionRequest)
    ensures var r := AdmitExecutionRequest(registry, policy, requester, request);
            r.Failure? ==> !r.error.EnvelopeUnusable? && !r.error.PolicyUnusable?
  {
  }

  lemma LaterGroundsRepeatNoLoader(input: ResolutionInput, denial: Denial)
    requires input.trust.Success? && input.policy.Success? && IsGround(input, denial)
    requires input.admission.Failure? ==>
               !input.admission.error.EnvelopeUnusable? && !input.admission.error.PolicyUnusable?
    ensures !denial.EnvelopeUnusable? && !denial.PolicyUnusable?
  {
  }

  lemma LaterDenialsRepeatNoLoader(input: ResolutionInput, registry: CapabilityRegistry)
    requires input.trust.Success? && input.policy.Success? && ResolvedDenials(input) != []
    requires input.admission == AdmitExecutionRequest(registry, input.policy.value, input.trust.value, input.request)
    ensures !RepeatsLoader(ResolvedDenials(input))
  {
    AdmissionNeverRepeatsLoader(registry, input.policy.value, input.trust.value, input.request);
    if Denials(input) != [] {
      DenialsAreTheGrounds(input);
      assert Denials(input)[0] in Denials(input);
      LaterGroundsRepeatNoLoader(input, Denials(input)[0]);
    }
  }

  /** The summary repeats the loader exactly when an unread document is the first ground. */
  lemma FirstDenialIsTheLoaders(input: ResolutionInput, envelope: Result<RequesterTrustEnvelope, string>,
                                policy: Result<PolicyArtifact, string>, registry: CapabilityRegistry, now: Timestamp)
    requires IsStaged(input, envelope, policy, registry, now)
    ensures var reason := LoaderReason(input.request, envelope, policy, now);
            && (RepeatsLoader(ResolvedDenials(input)) <==> reason.Some?)
            && (reason.Some? ==> ResolvedPosture(input) == Denied &&
                                 OperatorText(input.request, Denied, ResolvedDenials(input)) ==
                                   DENIAL_PREFIX + reason.value)
  {
    if envelope.Success? {
      TrustNeverRepeatsLoader(envelope.value, input.request.environmentMode, now);
    }
    if input.trust.Failure? {
      assert Denials(input)[0] == input.trust.error;
    } else if input.policy.Failure? {
      assert Denials(input)[0] == input.policy.error;
    } else if ResolvedDenials(input) != [] {
      LaterDenialsRepeatNoLoader(input, registry);
    }
  }

  lemma SummaryExactly(input: ResolutionInput, envelope: Result<RequesterTrustEnvelope, string>,
                       policy: Result<PolicyArtifact, string>, registry: CapabilityRegistry, now: Timestamp)
    requires IsStaged(input, envelope, policy, registry, now)
    ensures var summary := BoundedSummary(OperatorText(input.request, ResolvedPosture(input), ResolvedDenials(input)));
            && (summary.None? <==> SummaryIsCut(input.request, envelope, policy, now))
            && (summary.Some? ==>
                  (IsBoundedSummary(summary.value) <==> SummaryFits(input.request, envelope, policy, now)))
  {
    FirstDenialIsTheLoaders(input, envelope, policy, registry, now);
    var reason := LoaderReason(input.request, envelope, policy, now);
    if reason.Some? {
      BoundedSummaryReturnsExactlyWhen(DENIAL_PREFIX + reason.value);
    } else {
      FixedTextIsKept(input.request, ResolvedPosture(input), ResolvedDenials(input));
    }
  }

  predicate DecisionSpeaksOf(decision: RouteDecision, request: ExecutionRequest, decisionId: RouteDecisionId) {
    && decision.routeDecisionId == decisionId
    && decision.requestId == request.requestId && decision.correlationId == request.correlationId
    && decision.requestedCapabilityId == request.requestedCapabilityId
  }

  /** The decision a request comes to, if it comes to one. */
  ghost predicate DecidesExactly(resolution: Option<Resolution>, request: ExecutionRequest,
                                 envelope: Result<RequesterTrustEnvelope, string>,
                                 policy: Result<PolicyArtifact, string>, registry: CapabilityRegistry, now: Timestamp,
                                 decisionId: RouteDecisionId)
  {
    && (resolution.None? <==> SummaryIsCut(request, envelope, policy, now))
    && (resolution.Some? ==>
          && (resolution.value.decision.executionAllowed <==>
              ExecutionPermitted(request, envelope, policy, registry, now))
          && (IsBoundedSummary(resolution.value.decision.operatorSummary) <==>
              SummaryFits(request, envelope, policy, now))
          && ConsistentSurface(resolution.value.decision)
          && (resolution.value.decision.resolvedPosture == Denied <==> resolution.value.denials != [])
          && DecisionSpeaksOf(resolution.value.decision, request, decisionId))
  }

  lemma StagedInputDecides(input: ResolutionInput, envelope: Result<RequesterTrustEnvelope, string>,
                           policy: Result<PolicyArtifact, string>, registry: CapabilityRegistry, now: Timestamp,
                           decisionId: RouteDecisionId)
    requires IsStaged(input, envelope, policy, registry, now)
    requires ResolvedPosture(input) == Denied <==> ResolvedDenials(input) != []
    ensures DecidesExactly(Resolved(input.request, decisionId, ResolvedPosture(input), ResolvedDenials(input)),
                           input.request,
                           envelope, policy, registry, now, decisionId)
  {
    SummaryExactly(input, envelope, policy, registry, now);
    PermittedExactlyWhenAdmitted(input, envelope, policy, registry, now);
  }

  /** Evaluates every stage. There is no decision exactly when the operator's summary would be cut
      inside a character; otherwise execution is allowed exactly when every stage passes and all
      six factors rank at least policy-preapproved, and the summary keeps the byte bound exactly
      when no unread document's words leave it. */
  method ResolveRouteDecision(request: ExecutionRequest, envelope: Result<RequesterTrustEnvelope, string>,
                              policy: Result<PolicyArtifact, string>, registry: CapabilityRegistry, now: Timestamp,
                              decisionId: RouteDecisionId) returns (resolution: Option<Resolution>)
    ensures DecidesExactly(resolution, request, envelope, policy, registry, now, decisionId)
  {
    var trust: Result<RequesterTrustEnvelope, Denial>;
    match envelope {
      case Failure(reason) => trust := Failure(EnvelopeUnusable(reason));
      case Success(read) => trust := Trusted(read, request.environmentMode, now);
    }
    var loaded: Result<PolicyArtifact, Denial>;
    match policy {
      case Failure(reason) => loaded := Failure(PolicyUnusable(reason));
      case Success(read) => loaded := Success(read);
    }
    var admission: Result<CapabilityRecord, Denial> := Failure(PrerequisiteUnavailable);
    if trust.Success? && loaded.Success? {
      admission := AdmitExecutionRequest(registry, loaded.value, trust.value, request);
    }
    var input := ResolutionInput(request, trust, loaded, admission);
    resolution := Resolve(input, decisionId);
    StagedInputDecides(input, envelope, policy, registry, now, decisionId);
  }

  lemma UndeniedStages(input: ResolutionInput, envelope: RequesterTrustEnvelope, policy: PolicyArtifact,
                       registry: CapabilityRegistry)
    requires input.trust == Success(envelope) && input.policy == Success(policy)
    requires input.admission == AdmitExecutionRequest(registry, policy, envelope, input.request)
    requires envelope.environmentMode == input.request.environmentMode
    ensures Undenied(input) <==>
            && CapabilityAdmitted(registry, policy, envelope, input.request)
            && input.request.requesterId == envelope.requesterId
            && policy.scopeServiceId == SERVICE_ID
            && ApprovalRuleIn(policy.approvalRules, envelope.requesterClass).Some?
            && SideEffectAllowed(policy, input.request.requestedSideEffectClass)
  {
    if input.admission.Success? {
      var capability := input.admission.value;
      assert ConsistencyFault(RequesterMismatch, input.request, envelope, policy, capability) <==>
             input.request.requesterId != envelope.requesterId;
      assert ConsistencyFault(PolicyScopeMismatch, input.request, envelope, policy, capability) <==>
             policy.scopeServiceId != SERVICE_ID;
      assert ConsistencyFault(NoApprovalRule, input.request, envelope, policy, capability) <==>
             ApprovalRuleIn(policy.approvalRules, envelope.requesterClass).None?;
      assert ConsistencyFault(SideEffectClassDenied, input.request, envelope, policy, capability) <==>
             !SideEffectAllowed(policy, input.request.requestedSideEffectClass);
    }
  }

  lemma PermittedExactlyWhenAdmitted(input: ResolutionInput, envelope: Result<RequesterTrustEnvelope, string>,
                                     policy: Result<PolicyArtifact, string>, registry: CapabilityRegistry,
                                     now: Timestamp)
    requires IsStaged(input, envelope, policy, registry, now)
    ensures ResolvedPosture(input).IsAdmitted() <==> ExecutionPermitted(input.request, envelope, policy, registry, now)
  {
    if envelope.Success? {
      TrustNeverRepeatsLoader(envelope.value, input.request.environmentMode, now);
    }
    if input.trust.Success? && input.policy.Success? {
      UndeniedStages(input, envelope.value, policy.value, registry);
      if Undenied(input) {
        AdmittedExactlyWhenEveryFactorAdmits(JudgedFactors(input));
      }
    }
  }

  /** An envelope is refused with words that repeat what it held. */
  function MalformedEnvelope(error: string): Result<RequesterTrustEnvelope, string> {
    Failure("malformed requester envelope: " + error)
  }

  lemma MalformedEnvelopePrefix()
    ensures var plain := DENIAL_PREFIX + "malformed requester envelope: ";
            |plain| == 46 && forall i :: 0 <= i < |plain| ==> !IsContinuation(plain[i])
  {
  }

  /** So one malformed envelope leaves no decision at all, and another a decision whose summary
      is past the bound every record must keep. */
  lemma MalformedEnvelopeCanPanic(request: ExecutionRequest, policy: Result<PolicyArtifact, string>, now: Timestamp)
    ensures SummaryIsCut(request, MalformedEnvelope(TwoByteText(120)), policy, now)
    ensures !SummaryIsCut(request, MalformedEnvelope(TwoByteText(100)), policy, now)
    ensures !SummaryFits(request, MalformedEnvelope(TwoByteText(100)), policy, now)
  {
    var plain := DENIAL_PREFIX + "malformed requester envelope: ";
    MalformedEnvelopePrefix();
    TwoByteTextBehind(plain);
    forall error: string ensures DENIAL_PREFIX + ("malformed requester envelope: " + error) == plain + error {
    }
  }
}

/** Admission of a Cortex Gnat run, and the forensic contract of its events. */
module GnatNegotiation {
  import opened Wrappers
  import opened Orders
  import opened Text
  import opened Vocabulary
  import opened Characters

  datatype GnatWorkerType =
    | MarkdownSyntax
    | PlainTextSyntax
    | PdfTextSyntax
    | DocxTextSyntax
    | RtfTextSyntax
    | OdtTextSyntax
    | EpubTextSyntax

  function WorkerOrdinal(worker: GnatWorkerType): nat {
    match worker
    case MarkdownSyntax => 0
    case PlainTextSyntax => 1
    case PdfTextSyntax => 2
    case DocxTextSyntax => 3
    case RtfTextSyntax => 4
    case OdtTextSyntax => 5
    case EpubTextSyntax => 6
  }

  predicate WorkerAtMost(a: GnatWorkerType, b: GnatWorkerType) {
    WorkerOrdinal(a) <= WorkerOrdinal(b)
  }

  datatype GnatCancellationPolicy = CancelRemainingShards | FinishShardsInFlight

  datatype GnatRetryPolicy = NoRetry | InfrastructureOnly

  datatype GnatFaLocalState = Ready | FaLocalDegraded | Unavailable

  datatype GnatShard = GnatShard(
    shardId: string,
    ordinal: u16,
    workerType: GnatWorkerType,
    sourceRef: string,
    sourceDigest: string,
    deadlineMs: u64)

  datatype GnatPlan = GnatPlan(
    contractVersion: string,
    runId: string,
    operation: string,
    expectedReceiptSchema: string,
    shardCount: u16,
    shards: seq<GnatShard>,
    requestedConcurrency: u8,
    maxConcurrency: u8,
    serialFallbackAllowed: bool)

  datatype GnatEnvelope = GnatEnvelope(
    contractVersion: string,
    correlationId: CorrelationId,
    requesterService: string,
    plan: GnatPlan,
    requiredContractVersions: seq<string>,
    requiredWorkerTypes: seq<GnatWorkerType>,
    cancellationPolicy: GnatCancellationPolicy,
    deadlineEnforced: bool,
    faLocalOwnsExecutionRouting: bool,
    cortexValidatesReceipts: bool,
    retryPolicy: GnatRetryPolicy)

  datatype GnatFaLocalCapabilityState = GnatFaLocalCapabilityState(
    faLocalState: GnatFaLocalState,
    supportedContractVersions: seq<string>,
    admittedWorkerTypes: seq<GnatWorkerType>,
    maxConcurrency: u8,
    cancellationSupported: bool)

  datatype GnatAdmissionState = ReadyForFaLocalDispatch | SerialFallbackPermitted

  datatype GnatAdmission = GnatAdmission(
    state: GnatAdmissionState,
    correlationId: CorrelationId,
    runId: string,
    effectiveConcurrency: u8,
    admittedWorkerTypes: seq<GnatWorkerType>,
    cancellationPolicy: GnatCancellationPolicy)

  datatype GnatDenial =
    | PlanSurfaceInvalid
    | ContractVersionUnsupported
    | WorkerTypeNotAdmitted
    | CancellationUnsupported
    | DispatchUnavailable

  /** The envelope is internally consistent and asks only for what the contract allows. */
  predicate SoundSurface(envelope: GnatEnvelope) {
    && envelope.contractVersion == "GnatDispatchEnvelope.v1"
    && envelope.requesterService == "cortex"
    && envelope.plan.contractVersion == "GnatRunPlan.v1"
    && envelope.plan.operation == "syntax_extract"
    && envelope.plan.expectedReceiptSchema == "gnat-worker-receipt.schema.json"
    && envelope.plan.shardCount == |envelope.plan.shards|
    && envelope.faLocalOwnsExecutionRouting
    && envelope.cortexValidatesReceipts
    && envelope.retryPolicy == InfrastructureOnly
    && envelope.deadlineEnforced
    && forall shard :: shard in envelope.plan.shards ==> shard.workerType in envelope.requiredWorkerTypes
  }

  function Min(a: u8, b: u8): u8 {
    if a <= b then a else b
  }

  function EffectiveConcurrency(envelope: GnatEnvelope, state: GnatFaLocalCapabilityState): u8 {
    var least := Min(Min(envelope.plan.requestedConcurrency, envelope.plan.maxConcurrency), state.maxConcurrency);
    if least < 1 then 1 else least
  }

  function Negotiate(envelope: GnatEnvelope, state: GnatFaLocalCapabilityState): Result<GnatAdmission, GnatDenial> {
    if !SoundSurface(envelope) then Failure(PlanSurfaceInvalid)
    else if state.faLocalState.Ready? then
      if !(forall v :: v in envelope.requiredContractVersions ==> v in state.supportedContractVersions) then
        Failure(ContractVersionUnsupported)
      else if !(forall w :: w in envelope.requiredWorkerTypes ==> w in state.admittedWorkerTypes) then
        Failure(WorkerTypeNotAdmitted)
      else if !state.cancellationSupported then Failure(CancellationUnsupported)
      else
        Success(GnatAdmission(ReadyForFaLocalDispatch, envelope.correlationId, envelope.plan.runId,
                              EffectiveConcurrency(envelope, state),
                              SortedUnique(envelope.requiredWorkerTypes, WorkerAtMost), envelope.cancellationPolicy))
    else if envelope.plan.serialFallbackAllowed then
      Success(GnatAdmission(SerialFallbackPermitted, envelope.correlationId, envelope.plan.runId, 1, [],
                            envelope.cancellationPolicy))
    else
      Failure(DispatchUnavailable)
  }

  predicate WithinBounds(envelope: GnatEnvelope, state: GnatFaLocalCapabilityState, concurrency: u8) {
    && concurrency <= envelope.plan.requestedConcurrency
    && concurrency <= envelope.plan.maxConcurrency
    && concurrency <= state.maxConcurrency
  }

  /** Everything the envelope requires of this service, the service has. */
  predicate RequirementsMet(envelope: GnatEnvelope, state: GnatFaLocalCapabilityState) {
    && (forall v :: v in envelope.requiredContractVersions ==> v in state.supportedContractVersions)
    && (forall w :: w in envelope.requiredWorkerTypes ==> w in state.admittedWorkerTypes)
    && state.cancellationSupported
  }

  /** A run is dispatched exactly when the surface is sound, the service is ready and meets every
      requirement; it is left to its serial fallback exactly when the surface is sound, the
      service is not ready and the plan allows that; and otherwise it is denied. */
  lemma NegotiationAdmitsExactlyWhen(envelope: GnatEnvelope, state: GnatFaLocalCapabilityState)
    ensures var r := Negotiate(envelope, state);
            && (r.Success? && r.value.state.ReadyForFaLocalDispatch? <==>
                  SoundSurface(envelope) && state.faLocalState.Ready? && RequirementsMet(envelope, state))
            && (r.Success? && r.value.state.SerialFallbackPermitted? <==>
                  SoundSurface(envelope) && !state.faLocalState.Ready? && envelope.plan.serialFallbackAllowed)
  {
  }

  /** A run admitted for dispatch uses exactly the workers it requires, all of them admitted by
      this service and enough for every shard, and the highest concurrency within the three
      bounds, or one where a bound is zero. */
  lemma AdmissionStaysWithinBounds(envelope: GnatEnvelope, state: GnatFaLocalCapabilityState)
    requires Negotiate(envelope, state).Success?
    requires Negotiate(envelope, state).value.state.ReadyForFaLocalDispatch?
    ensures var admission := Negotiate(envelope, state).value;
            && StrictlySortedBy(admission.admittedWorkerTypes, WorkerAtMost)
            && (forall w :: w in admission.admittedWorkerTypes <==> w in envelope.requiredWorkerTypes)
            && (forall w :: w in admission.admittedWorkerTypes ==> w in state.admittedWorkerTypes)
            && (forall shard :: shard in envelope.plan.shards ==> shard.workerType in admission.admittedWorkerTypes)
            && 1 <= admission.effectiveConcurrency
            && (admission.effectiveConcurrency == 1 || WithinBounds(envelope, state, admission.effectiveConcurrency))
            && forall c: u8 :: WithinBounds(envelope, state, c) ==> c <= admission.effectiveConcurrency
  {
    SortedUniqueIsStrict(envelope.requiredWorkerTypes, WorkerAtMost);
  }

  // ---- Events ----------------------------------------------------------------------------

  datatype GnatEventType = GnatDispatchNegotiated | GnatShardDispatched

  datatype GnatNegotiationOutcome = OutcomeDenied | OutcomeSerialFallback | OutcomeReady

  datatype GnatShardOutcome = ShardCompleted | ShardNotCompleted | ShardDispatchUnavailable

  datatype GnatReceiptState = ReceiptComplete | ReceiptDenied | ReceiptStale | ReceiptFailed

  datatype GnatEvent = GnatEvent(
    correlationId: CorrelationId,
    runId: string,
    eventType: GnatEventType,
    negotiationOutcome: GnatNegotiationOutcome,
    shardId: Option<string>,
    workerType: Option<GnatWorkerType>,
    shardOutcome: Option<GnatShardOutcome>,
    receiptState: Option<GnatReceiptState>,
    timestampUtc: Timestamp,
    summary: string,
    payloadMinimized: bool)
  {
    predicate Valid() {
      && 0 < |summary| && CharCount(summary) <= SUMMARY_BOUND
      && 0 < |runId| <= 120
      && payloadMinimized
      && match eventType
         case GnatDispatchNegotiated =>
           shardId.None? && workerType.None? && shardOutcome.None? && receiptState.None?
         case GnatShardDispatched =>
           && negotiationOutcome.OutcomeReady?
           && shardId.Some? && workerType.Some? && shardOutcome.Some?
           && (shardOutcome.value.ShardDispatchUnavailable? <==> receiptState.None?)
    }
  }

  // ---- Summaries bounded by characters, not bytes ------------------------------------------

  const ELLIPSIS := ['\U{E2}', '\U{80}', '\U{A6}']

  function BoundedGnatSummary(text: string): string {
    if text == "" then "(no summary provided)"
    else if CharCount(text) <= SUMMARY_BOUND then text
    else TakeChars(text, SUMMARY_BOUND - 1) + ELLIPSIS
  }

  /** Whatever an upstream process wrote, its bounded form passes the event's summary check;
      text that already fits is kept, and longer text is cut between characters. */
  lemma BoundedSummaryAlwaysFits(text: string)
    ensures var summary := BoundedGnatSummary(text);
            && 0 < |summary| && CharCount(summary) <= SUMMARY_BOUND
            && (text != "" && CharCount(text) <= SUMMARY_BOUND ==> summary == text)
            && (CharCount(text) > SUMMARY_BOUND ==>
                  CharCount(summary) == SUMMARY_BOUND && |summary| >= 3 && summary[..|summary| - 3] <= text)
  {
    CharCountIsAtMostLength("(no summary provided)");
    if CharCount(text) > SUMMARY_BOUND {
      var prefix := TakeChars(text, SUMMARY_BOUND - 1);
      assert prefix + ELLIPSIS == prefix + [ELLIPSIS[0]] + [ELLIPSIS[1]] + [ELLIPSIS[2]];
      CharCountAppend(prefix, ELLIPSIS[0]);
      CharCountAppend(prefix + [ELLIPSIS[0]], ELLIPSIS[1]);
      CharCountAppend(prefix + [ELLIPSIS[0]] + [ELLIPSIS[1]], ELLIPSIS[2]);
      assert (prefix + ELLIPSIS)[..|prefix|] == prefix;
    }
  }
}

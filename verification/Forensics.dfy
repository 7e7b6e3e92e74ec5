/** Forensic events: their contract, and when a status can be recorded as one. */
module Forensics {
  import opened Wrappers
  import opened Text
  import opened Vocabulary
  import opened Status
  import opened Routing
  import opened Delivery
  import opened ReservedWords

  datatype ForensicEventType = DenialIssued | RouteDecisionResolved | ReviewPackagePrepared | ExecutionStatusObserved

  datatype RedactionLevel = NoRedaction | SensitiveFieldsRedacted | LinkageOnly

  datatype ForensicFault =
    | UnacceptableRecord
    | UntruthfulSummary
    | InvalidEvent
    | ExportRefused

  datatype ForensicEvent = ForensicEvent(
    correlationId: CorrelationId,
    requestId: RequestId,
    eventType: ForensicEventType,
    routeDecisionId: Option<RouteDecisionId>,
    executionPlanId: Option<ExecutionPlanId>,
    stablePlanHash: Option<string>,
    reviewPackageId: Option<ReviewPackageId>,
    timestampUtc: Timestamp,
    currentPosture: ApprovalPosture,
    executionState: ExecutionState,
    degradedSubtype: Option<DegradedSubtype>,
    summary: string,
    redactionLevel: RedactionLevel,
    payloadMinimized: bool)
  {
    predicate PostureMatchesState() {
      match executionState
      case StateDenied => currentPosture.Denied?
      case StateReviewRequired => currentPosture.ReviewRequired?
      case WaitingExplicitApproval => currentPosture.ExplicitOperatorApproval?
      case _ => currentPosture.IsAdmitted()
    }

    predicate SubtypeMatchesState() {
      if eventType.ReviewPackagePrepared? then degradedSubtype.Some? ==> degradedSubtype.value.IsExplicitFallback()
      else match executionState
        case Degraded | PartialSuccess => degradedSubtype.Some?
        case CompletedWithConstraints => degradedSubtype.Some? && degradedSubtype.value.IsExplicitFallback()
        case _ => degradedSubtype.None?
    }

    predicate LinkageMatchesType() {
      match eventType
      case DenialIssued =>
        && currentPosture.Denied? && executionState.StateDenied?
        && routeDecisionId.None? && executionPlanId.None? && stablePlanHash.None? && reviewPackageId.None?
      case RouteDecisionResolved =>
        && routeDecisionId.Some? && executionPlanId.None? && stablePlanHash.None? && reviewPackageId.None?
        && (executionState.IsPreExecution() || executionState.AdmittedNotStarted?)
      case ReviewPackagePrepared =>
        && routeDecisionId.Some? && executionPlanId.Some? && stablePlanHash.Some? && reviewPackageId.Some?
        && currentPosture.ExplicitOperatorApproval? && executionState.WaitingExplicitApproval?
      case ExecutionStatusObserved =>
        && executionPlanId.Some? && stablePlanHash.Some?
        && !executionState.IsPreExecution() && currentPosture.IsAdmitted()
    }

    /** Every check that does not read the text of the summary. */
    predicate WellLinked() {
      && (executionPlanId.Some? <==> stablePlanHash.Some?)
      && (reviewPackageId.Some? ==> routeDecisionId.Some? && executionPlanId.Some? && stablePlanHash.Some?)
      && PostureMatchesState()
      && SubtypeMatchesState()
      && payloadMinimized
      && (stablePlanHash.Some? ==> IsValidHash(stablePlanHash.value))
      && LinkageMatchesType()
    }

    predicate Valid() {
      IsBoundedSummary(summary) && WellLinked() && !MentionsNarration(summary)
    }
  }

  // ---- What a summary may claim -----------------------------------------------------------

  predicate MentionsNarration(text: string) {
    MentionsAny(text, NARRATION_WORDS)
  }

  predicate MentionsSuccess(text: string) {
    MentionsAny(text, SUCCESS_WORDS)
  }

  predicate MentionsFailure(text: string) {
    MentionsAny(text, FAILURE_WORDS)
  }

  predicate MentionsCancellation(text: string) {
    MentionsAny(text, CANCELLATION_WORDS)
  }

  predicate MentionsDegradation(text: string) {
    MentionsAny(text, DEGRADATION_WORDS)
  }

  predicate TruthfulSummary(text: string, state: ExecutionState, subtype: Option<DegradedSubtype>) {
    && IsBoundedSummary(text)
    && (MentionsSuccess(text) ==> state.Completed? || state.CompletedWithConstraints? || state.PartialSuccess?)
    && (MentionsFailure(text) ==> state.Failed?)
    && (MentionsCancellation(text) ==> state.Canceled?)
    && (MentionsDegradation(text) ==> subtype.Some?)
  }

  // ---- Records ---------------------------------------------------------------------------

  datatype RecordKind =
    | DenialRecord(decision: RouteDecision)
    | DecisionRecord(decision: RouteDecision)
    | StatusRecord(decision: RouteDecision, status: ExecutionStatus)

  /** A status speaks of the decision it is recorded under. */
  predicate StatusBelongsTo(status: ExecutionStatus, decision: RouteDecision) {
    && status.requestId == decision.requestId
    && status.correlationId == decision.correlationId
    && status.currentPosture == decision.resolvedPosture
  }

  predicate RecordAcceptable(kind: RecordKind) {
    && ConsistentSurface(kind.decision)
    && match kind
       case DenialRecord(decision) => decision.resolvedPosture.Denied?
       case DecisionRecord(_) => true
       case StatusRecord(decision, status) =>
         && status.Valid()
         && decision.resolvedPosture.IsAdmitted()
         && StatusBelongsTo(status, decision)
         && !status.state.IsPreExecution()
  }

  function PreExecutionState(posture: ApprovalPosture): ExecutionState {
    match posture
    case Denied => StateDenied
    case ReviewRequired => StateReviewRequired
    case ExplicitOperatorApproval => WaitingExplicitApproval
    case PolicyPreapproved | ExecuteAllowed => AdmittedNotStarted
  }

  function EventOf(kind: RecordKind, redaction: RedactionLevel, at: Timestamp): ForensicEvent {
    match kind
    case DenialRecord(decision) =>
      ForensicEvent(decision.correlationId, decision.requestId, DenialIssued, None, None, None, None, at, Denied,
                    StateDenied, None, decision.operatorSummary, redaction, true)
    case DecisionRecord(decision) =>
      ForensicEvent(decision.correlationId, decision.requestId, RouteDecisionResolved, Some(decision.routeDecisionId),
                    None, None, None, at, decision.resolvedPosture, PreExecutionState(decision.resolvedPosture), None,
                    decision.operatorSummary, redaction, true)
    case StatusRecord(decision, status) =>
      ForensicEvent(decision.correlationId, decision.requestId, ExecutionStatusObserved, Some(decision.routeDecisionId),
                    status.executionPlanId, status.stablePlanHash, None, at, status.currentPosture, status.state,
                    status.degradedSubtype, status.truthfulSummary, redaction, true)
  }

  function RecordEvent(kind: RecordKind, redaction: RedactionLevel, at: Timestamp): Result<ForensicEvent, ForensicFault>
  {
    var event := EventOf(kind, redaction, at);
    if !RecordAcceptable(kind) then Failure(UnacceptableRecord)
    else if !TruthfulSummary(event.summary, event.executionState, event.degradedSubtype) then Failure(UntruthfulSummary)
    else if !event.Valid() then Failure(InvalidEvent)
    else Success(event)
  }

  /** The two contracts agree: a valid status of an admitted state, recorded under its own
      decision, yields an event that passes every check not about text. */
  lemma ValidStatusIsWellLinked(decision: RouteDecision, status: ExecutionStatus, redaction: RedactionLevel,
                                at: Timestamp)
    requires status.Valid() && !status.state.IsPreExecution() && StatusBelongsTo(status, decision)
    ensures status.currentPosture.IsAdmitted()
    ensures EventOf(StatusRecord(decision, status), redaction, at).WellLinked()
  {
  }

  /** The text of a status suits its state. */
  predicate TextSuits(status: ExecutionStatus) {
    TruthfulSummary(status.truthfulSummary, status.state, status.degradedSubtype) &&
      !MentionsNarration(status.truthfulSummary)
  }

  /** Such a status is recorded exactly when its text suits its state; its event then repeats
      the status's state, subtype, posture, plan link and summary. */
  lemma StatusIsRecordedExactlyWhenTextSuits(decision: RouteDecision, status: ExecutionStatus,
                                             redaction: RedactionLevel, at: Timestamp)
    requires status.Valid() && !status.state.IsPreExecution() && StatusBelongsTo(status, decision)
    requires ConsistentSurface(decision)
    ensures RecordEvent(StatusRecord(decision, status), redaction, at).Success? <==> TextSuits(status)
    ensures TextSuits(status) ==>
              Mirrors(RecordEvent(StatusRecord(decision, status), redaction, at).value, status, decision)
  {
    ValidStatusIsWellLinked(decision, status, redaction, at);
  }

  /** The event says what the status said, under the decision it belongs to. */
  predicate Mirrors(event: ForensicEvent, status: ExecutionStatus, decision: RouteDecision) {
    && event.eventType == ExecutionStatusObserved
    && event.requestId == status.requestId && event.correlationId == status.correlationId
    && event.routeDecisionId == Some(decision.routeDecisionId)
    && event.executionPlanId == status.executionPlanId && event.stablePlanHash == status.stablePlanHash
    && event.currentPosture == status.currentPosture && event.executionState == status.state
    && event.degradedSubtype == status.degradedSubtype
    && event.summary == status.truthfulSummary
    && event.Valid()
  }

  /** A decision under which nothing runs is recorded exactly when its own text allows it. */
  lemma DecisionIsRecordedExactlyWhenTextSuits(decision: RouteDecision, redaction: RedactionLevel, at: Timestamp)
    requires ConsistentSurface(decision) && !decision.resolvedPosture.IsAdmitted()
    ensures var kind := if decision.resolvedPosture.Denied? then DenialRecord(decision) else DecisionRecord(decision);
            RecordEvent(kind, redaction, at).Success? <==>
            TruthfulSummary(decision.operatorSummary, PreExecutionState(decision.resolvedPosture), None) &&
            !MentionsNarration(decision.operatorSummary)
  {
  }

  // ---- Step ids are part of the recorded text ----------------------------------------------

  /** The reserved words a summary may not use in this state. */
  function ForbiddenWords(state: ExecutionState, subtype: Option<DegradedSubtype>): seq<string> {
    NARRATION_WORDS
    + (if state.Completed? || state.CompletedWithConstraints? || state.PartialSuccess? then [] else SUCCESS_WORDS)
    + (if state.Failed? then [] else FAILURE_WORDS)
    + (if state.Canceled? then [] else CANCELLATION_WORDS)
    + (if subtype.Some? then [] else DEGRADATION_WORDS)
  }

  lemma MentionsEither(text: string, a: seq<string>, b: seq<string>)
    ensures MentionsAny(text, a + b) <==> MentionsAny(text, a) || MentionsAny(text, b)
  {
    MentionsAnyMember(text, a);
    MentionsAnyMember(text, b);
    MentionsAnyMember(text, a + b);
  }

  /** A text suits exactly when it is bounded and uses no word its state forbids. */
  lemma TextSuitsExactlyWhenFree(status: ExecutionStatus)
    ensures TextSuits(status) <==>
            && IsBoundedSummary(status.truthfulSummary)
            && !MentionsAny(status.truthfulSummary, ForbiddenWords(status.state, status.degradedSubtype))
  {
    var text, state := status.truthfulSummary, status.state;
    var success := if state.Completed? || state.CompletedWithConstraints? || state.PartialSuccess? then []
      else SUCCESS_WORDS;
    var failure := if state.Failed? then [] else FAILURE_WORDS;
    var cancellation := if state.Canceled? then [] else CANCELLATION_WORDS;
    var degradation := if status.degradedSubtype.Some? then [] else DEGRADATION_WORDS;
    MentionsEither(text, NARRATION_WORDS, success);
    MentionsEither(text, NARRATION_WORDS + success, failure);
    MentionsEither(text, NARRATION_WORDS + success + failure, cancellation);
    MentionsEither(text, NARRATION_WORDS + success + failure + cancellation, degradation);
  }

  lemma StepPrefixIsLowerCase()
    ensures IsLowerCase(STEP_PREFIX)
  {
  }

  lemma StepPrefixIsPlain(stem: string)
    requires stem in STEMS
    ensures forall i: nat :: !ShowsAt(STEP_PREFIX, stem, i)
  {
  }

  lemma StepPrefixIsFree()
    ensures FreeOfReservedWords(STEP_PREFIX)
  {
    StepPrefixIsLowerCase();
    forall stem | stem in STEMS ensures ShowsNowhere(STEP_PREFIX, stem) {
      StepPrefixIsPlain(stem);
    }
    PlainTextIsFree(STEP_PREFIX);
  }

  /** The summary of a started step mentions a reserved word exactly when the step's id does. */
  lemma ReservedWordComesFromId(stepId: string, word: string)
    requires word in RESERVED_WORDS
    ensures Mentions(STEP_PREFIX + stepId, word) <==> Mentions(stepId, word)
  {
    StepPrefixIsFree();
    FreeTextMentionsNothing(STEP_PREFIX, word);
    SealedTextSplits(STEP_PREFIX, stepId, word);
  }

  lemma StepSummaryIsFreeExactlyWhenIdIs(stepId: string)
    ensures FreeOfReservedWords(STEP_PREFIX + stepId) <==> FreeOfReservedWords(stepId)
  {
    forall k | 0 <= k < |RESERVED_WORDS|
      ensures Mentions(STEP_PREFIX + stepId, RESERVED_WORDS[k]) <==> Mentions(stepId, RESERVED_WORDS[k])
    {
      ReservedWordComesFromId(stepId, RESERVED_WORDS[k]);
    }
  }

  /** A started step's text suits exactly when its id contains no reserved word. */
  lemma AnnouncementSuitsExactlyWhenIdIsFree(route: SelectedExecutionRoute, stepId: string, context: RunContext)
    requires InProgressStatus(route, stepId, context).Valid()
    ensures TextSuits(InProgressStatus(route, stepId, context)) <==> FreeOfReservedWords(stepId)
  {
    TextSuitsExactlyWhenFree(InProgressStatus(route, stepId, context));
    assert ForbiddenWords(InProgress, None) == RESERVED_WORDS;
    StepSummaryIsFreeExactlyWhenIdIs(stepId);
  }

  /** A started step is recorded exactly when its id contains no reserved word. */
  lemma StartedStepIsRecordedExactlyWhenIdIsFree(route: SelectedExecutionRoute, decision: RouteDecision, stepId: string,
                                                 context: RunContext, redaction: RedactionLevel, at: Timestamp)
    requires InProgressStatus(route, stepId, context).Valid() && ConsistentSurface(decision)
    requires StatusBelongsTo(InProgressStatus(route, stepId, context), decision)
    ensures RecordEvent(StatusRecord(decision, InProgressStatus(route, stepId, context)), redaction, at).Success? <==>
            FreeOfReservedWords(stepId)
  {
    var status := InProgressStatus(route, stepId, context);
    StatusIsRecordedExactlyWhenTextSuits(decision, status, redaction, at);
    AnnouncementSuitsExactlyWhenIdIsFree(route, stepId, context);
  }

  /** So a step that an admitted route starts, under the well-formed id "failed", is not recorded. */
  lemma StartedButNotRecorded(route: SelectedExecutionRoute, decision: RouteDecision, context: RunContext,
                              redaction: RedactionLevel, at: Timestamp)
    requires AdmittedStatus(route, context).Valid() && ConsistentSurface(decision)
    requires StatusBelongsTo(AdmittedStatus(route, context), decision)
    ensures IsValidStepId("failed") && InProgressStatus(route, "failed", context).Valid()
    ensures RecordEvent(StatusRecord(decision, InProgressStatus(route, "failed", context)), redaction, at).Failure?
  {
    assert |STEP_PREFIX| == 36 && |"failed"| == 6;
    assert InProgressStatus(route, "failed", context).Valid();
    StartedStepIsRecordedExactlyWhenIdIsFree(route, decision, "failed", context, redaction, at);
    assert ToAsciiLowercase("failed") == "failed";
    assert OccursAt(ToAsciiLowercase("failed"), "failed", 0);
    assert Mentions("failed", RESERVED_WORDS[7]);
  }

  // ---- Export receipts -------------------------------------------------------------------

  datatype ExportResult = Exported(reference: string) | ExportUnavailable | ExportUnsupported

  /** A receipt is kept only from a properly named sink with a bounded reference. */
  function MapExportResult(adapterId: string, reply: ExportResult): Result<string, ForensicFault> {
    if !(0 < |adapterId| <= 64) then Failure(ExportRefused)
    else match reply
      case Exported(reference) => if IsBoundedSummary(reference) then Success(reference) else Failure(ExportRefused)
      case ExportUnavailable | ExportUnsupported => Failure(ExportRefused)
  }
}

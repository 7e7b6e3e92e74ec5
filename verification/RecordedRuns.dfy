/** When a delivered trace can be recorded: only step ids and text from outside decide. */
module RecordedRuns {
  import opened Wrappers
  import opened Text
  import opened Vocabulary
  import opened CanonicalPlans
  import opened Plans
  import opened Status
  import opened Routing
  import opened Delivery
  import opened Traces
  import opened PerStepRun
  import opened DeliveryLedger
  import opened DeliveryTheorems
  import opened Aggregation
  import opened DeliveryTraces
  import opened ReservedWords
  import opened Forensics
  import opened WholeRoute

  // ---- The fixed texts ---------------------------------------------------------------------

  /** A text of two halves that shows none of the stems but those excepted. */
  ghost predicate IsPlainBut(text: string, excepted: seq<string>) {
    exists a, b :: text == a + b && Seals(a) && ShowsOnly(a, excepted) && ShowsOnly(b, excepted)
  }

  /** The word is not one of those whose stems are excepted. */
  predicate IsLookedFor(word: string, excepted: seq<string>) {
    && word in RESERVED_WORDS
    && (excepted == [] || (excepted == SUCCESS_STEMS && word !in SUCCESS_WORDS) ||
        (excepted == CANCELLATION_STEMS && word !in CANCELLATION_WORDS))
  }

  lemma TextMentionsOnlyExcepted(text: string, excepted: seq<string>, word: string)
    requires ShowsOnly(text, excepted) && IsLookedFor(word, excepted)
    ensures !Mentions(text, word)
  {
    var stem, k := WordShowsStem(word);
    StemlessTextMentionsNothing(text, excepted, word, stem, k);
  }

  lemma PlainTextMentionsOnlyExcepted(text: string, excepted: seq<string>, word: string)
    requires IsPlainBut(text, excepted) && IsLookedFor(word, excepted)
    ensures !Mentions(text, word)
  {
    var a, b :| text == a + b && Seals(a) && ShowsOnly(a, excepted) && ShowsOnly(b, excepted);
    SealedTextSplits(a, b, word);
    TextMentionsOnlyExcepted(a, excepted, word);
    TextMentionsOnlyExcepted(b, excepted, word);
  }

  lemma AdmissionTextStems(stem: string)
    requires stem in STEMS
    ensures forall i: nat :: !ShowsAt("execution admitted for ", stem, i)
    ensures forall i: nat :: !ShowsAt("external bounded delivery", stem, i)
  {
  }

  lemma AdmissionTextJoins()
    ensures ADMISSION_SUMMARY == "execution admitted for " + "external bounded delivery" &&
            Seals("execution admitted for ")
  {
  }

  lemma AdmissionTextIsLowerCase()
    ensures IsLowerCase("execution admitted for ") && IsLowerCase("external bounded delivery")
  {
  }

  lemma AdmissionTextIsPlain()
    ensures IsPlainBut(ADMISSION_SUMMARY, [])
  {
    var a, b := "execution admitted for ", "external bounded delivery";
    AdmissionTextIsLowerCase();
    forall stem | stem in STEMS ensures ShowsNowhere(a, stem) && ShowsNowhere(b, stem) {
      AdmissionTextStems(stem);
    }
    AdmissionTextJoins();
  }

  lemma CompletionTextStems(stem: string)
    requires stem in STEMS && stem !in SUCCESS_STEMS
    ensures forall i: nat :: !ShowsAt("external delivery completed ", stem, i)
    ensures forall i: nat :: !ShowsAt("for all declared plan steps", stem, i)
  {
  }

  lemma CompletionTextJoins()
    ensures COMPLETION_SUMMARY == "external delivery completed " + "for all declared plan steps" &&
            Seals("external delivery completed ")
  {
  }

  lemma CompletionTextIsLowerCase()
    ensures IsLowerCase("external delivery completed ") && IsLowerCase("for all declared plan steps")
  {
  }

  lemma CompletionTextIsPlain()
    ensures IsPlainBut(COMPLETION_SUMMARY, SUCCESS_STEMS)
  {
    var a, b := "external delivery completed ", "for all declared plan steps";
    CompletionTextIsLowerCase();
    forall stem | stem in STEMS && stem !in SUCCESS_STEMS ensures ShowsNowhere(a, stem) && ShowsNowhere(b, stem) {
      CompletionTextStems(stem);
    }
    CompletionTextJoins();
  }

  lemma CancellationTextStems(stem: string)
    requires stem in STEMS && stem !in CANCELLATION_STEMS
    ensures forall i: nat :: !ShowsAt("external delivery canceled ", stem, i)
    ensures forall i: nat :: !ShowsAt("during declared step ", stem, i)
  {
  }

  lemma CancellationTextJoins()
    ensures CANCELLATION_PREFIX == "external delivery canceled " + "during declared step " &&
            Seals("external delivery canceled ")
  {
  }

  lemma CancellationTextIsLowerCase()
    ensures IsLowerCase("external delivery canceled ") && IsLowerCase("during declared step ")
  {
  }

  lemma CancellationTextIsPlain()
    ensures IsPlainBut(CANCELLATION_PREFIX, CANCELLATION_STEMS)
  {
    var a, b := "external delivery canceled ", "during declared step ";
    CancellationTextIsLowerCase();
    forall stem | stem in STEMS && stem !in CANCELLATION_STEMS ensures ShowsNowhere(a, stem) && ShowsNowhere(b, stem) {
      CancellationTextStems(stem);
    }
    CancellationTextJoins();
  }

  lemma RescueTextHeadStems(stem: string)
    requires stem in STEMS && stem !in SUCCESS_STEMS
    ensures forall i: nat :: !ShowsAt("all declared plan steps completed; ", stem, i)
  {
  }

  lemma RescueTextTailStems(stem: string)
    requires stem in STEMS && stem !in SUCCESS_STEMS
    ensures forall i: nat :: !ShowsAt("used declared fallback for: ", stem, i)
  {
  }

  lemma RescueTextJoins()
    ensures FALLBACK_SUMMARY_PREFIX == "all declared plan steps completed; " + "used declared fallback for: " &&
            Seals("all declared plan steps completed; ")
  {
  }

  lemma RescueTextIsLowerCase()
    ensures IsLowerCase("all declared plan steps completed; ") && IsLowerCase("used declared fallback for: ")
  {
  }

  lemma RescueTextIsPlain()
    ensures IsPlainBut(FALLBACK_SUMMARY_PREFIX, SUCCESS_STEMS)
  {
    var a, b := "all declared plan steps completed; ", "used declared fallback for: ";
    RescueTextIsLowerCase();
    forall stem | stem in STEMS && stem !in SUCCESS_STEMS ensures ShowsNowhere(a, stem) && ShowsNowhere(b, stem) {
      RescueTextHeadStems(stem);
      RescueTextTailStems(stem);
    }
    RescueTextJoins();
  }

  lemma UnavailableTextStems(stem: string)
    requires stem in STEMS
    ensures forall i: nat :: !ShowsAt("no delivery adapter registered ", stem, i)
    ensures forall i: nat :: !ShowsAt("for any declared step", stem, i)
  {
  }

  lemma UnavailableTextJoins()
    ensures UNAVAILABLE_SUMMARY == "no delivery adapter registered " + "for any declared step" &&
            Seals("no delivery adapter registered ")
  {
  }

  lemma UnavailableTextIsLowerCase()
    ensures IsLowerCase("no delivery adapter registered ") && IsLowerCase("for any declared step")
  {
  }

  lemma UnavailableTextIsPlain()
    ensures IsPlainBut(UNAVAILABLE_SUMMARY, [])
  {
    var a, b := "no delivery adapter registered ", "for any declared step";
    UnavailableTextIsLowerCase();
    forall stem | stem in STEMS ensures ShowsNowhere(a, stem) && ShowsNowhere(b, stem) {
      UnavailableTextStems(stem);
    }
    UnavailableTextJoins();
  }

  lemma CountTextStems(stem: string)
    requires stem in STEMS && stem !in SUCCESS_STEMS
    ensures forall i: nat :: !ShowsAt(COUNT_SUFFIX, stem, i)
  {
  }

  lemma CountTextIsPlain()
    ensures ShowsOnly(COUNT_SUFFIX, SUCCESS_STEMS)
  {
    forall stem | stem in STEMS && stem !in SUCCESS_STEMS ensures ShowsNowhere(COUNT_SUFFIX, stem) {
      CountTextStems(stem);
    }
  }

  lemma NumberSplits(n: nat, rest: string, word: string)
    requires word in RESERVED_WORDS
    ensures Mentions(Decimal(n) + rest, word) <==> Mentions(rest, word)
  {
    var digits := Decimal(n);
    assert IsDigit(digits[|digits| - 1]);
    SealedTextSplits(digits, rest, word);
    DigitsMentionNothing(digits, word);
  }

  lemma CountTextClaimsSuccessOnly(completed: nat, total: nat, word: string)
    requires word in RESERVED_WORDS && word !in SUCCESS_WORDS
    ensures !Mentions(CompletionCountSummary(completed, total), word)
  {
    var tail := Decimal(total) + COUNT_SUFFIX;
    assert CompletionCountSummary(completed, total) == Decimal(completed) + (" of " + tail);
    NumberSplits(completed, " of " + tail, word);
    SealedTextSplits(" of ", tail, word);
    ShortTextMentionsNothing(" of ", word);
    NumberSplits(total, COUNT_SUFFIX, word);
    CountTextIsPlain();
    TextMentionsOnlyExcepted(COUNT_SUFFIX, SUCCESS_STEMS, word);
  }

  // ---- The list of rescues -----------------------------------------------------------------

  /** No rescued step and no rescuer has a reserved word in its id. */
  predicate RescuesAreFree(outcomes: seq<StepRecord>) {
    forall k :: 0 <= k < |outcomes| && outcomes[k].outcome.CompletedViaFallback? ==>
      FreeOfReservedWords(outcomes[k].stepId) && FreeOfReservedWords(outcomes[k].outcome.fallbackStepId)
  }

  lemma PairMentionsNothing(id: string, rescuer: string, word: string)
    requires FreeOfReservedWords(id) && FreeOfReservedWords(rescuer) && word in RESERVED_WORDS
    ensures !Mentions(id + " -> " + rescuer, word)
  {
    SealedTextSplits(id + " -> ", rescuer, word);
    SeparatedTextSplits(id, " -> ", word);
    FreeTextMentionsNothing(id, word);
    FreeTextMentionsNothing(rescuer, word);
  }

  lemma ListSplits(pair: string, rest: string, word: string)
    requires word in RESERVED_WORDS && !Mentions(pair, word) && !Mentions(rest, word)
    ensures !Mentions(pair + ", " + rest, word)
  {
    SealedTextSplits(pair + ", ", rest, word);
    SeparatedTextSplits(pair, ", ", word);
  }

  lemma {:induction false} ListMentionsNothing(outcomes: seq<StepRecord>, word: string)
    requires RescuesAreFree(outcomes) && word in RESERVED_WORDS
    ensures !Mentions(FallbackPairs(outcomes), word)
  {
    if outcomes == [] {
      ShortTextMentionsNothing("", word);
    } else {
      var rest := FallbackPairs(outcomes[1..]);
      ListMentionsNothing(outcomes[1..], word);
      match outcomes[0].outcome
      case CompletedViaFallback(rescuer) =>
        PairMentionsNothing(outcomes[0].stepId, rescuer, word);
        ListSplits(outcomes[0].stepId + " -> " + rescuer, rest, word);
      case _ =>
    }
  }

  // ---- The statuses of a run ---------------------------------------------------------------

  /** The word is one the status may not use. */
  lemma SuitsWhenNothingIsMentioned(status: ExecutionStatus)
    requires IsBoundedSummary(status.truthfulSummary)
    requires forall word :: word in ForbiddenWords(status.state, status.degradedSubtype) ==>
               !Mentions(status.truthfulSummary, word)
    ensures TextSuits(status)
  {
    TextSuitsExactlyWhenFree(status);
    MentionsAnyMember(status.truthfulSummary, ForbiddenWords(status.state, status.degradedSubtype));
  }

  lemma ForbiddenWordsAreReserved(state: ExecutionState, subtype: Option<DegradedSubtype>, word: string)
    requires word in ForbiddenWords(state, subtype)
    ensures word in RESERVED_WORDS
    ensures state.Completed? || state.CompletedWithConstraints? || state.PartialSuccess? ==> word !in SUCCESS_WORDS
    ensures state.Canceled? ==> word !in CANCELLATION_WORDS
  {
    WordGroupsAreApart(word);
  }

  lemma WordGroupsAreApart(word: string)
    ensures word in SUCCESS_WORDS ==>
              word !in NARRATION_WORDS && word !in FAILURE_WORDS && word !in CANCELLATION_WORDS &&
              word !in DEGRADATION_WORDS
    ensures word in CANCELLATION_WORDS ==>
              word !in NARRATION_WORDS && word !in FAILURE_WORDS && word !in DEGRADATION_WORDS
  {
  }

  lemma AdmissionSuits(route: SelectedExecutionRoute, context: RunContext)
    requires AdmittedStatus(route, context).Valid()
    ensures TextSuits(AdmittedStatus(route, context))
  {
    AdmissionTextIsPlain();
    forall word | word in ForbiddenWords(AdmittedNotStarted, None) ensures !Mentions(ADMISSION_SUMMARY, word) {
      ForbiddenWordsAreReserved(AdmittedNotStarted, None, word);
      PlainTextMentionsOnlyExcepted(ADMISSION_SUMMARY, [], word);
    }
    SuitsWhenNothingIsMentioned(AdmittedStatus(route, context));
  }

  lemma CompletionSuits(route: SelectedExecutionRoute, context: RunContext)
    requires CompletedStatus(route, context).Valid()
    ensures TextSuits(CompletedStatus(route, context))
  {
    CompletionTextIsPlain();
    forall word | word in ForbiddenWords(Completed, None) ensures !Mentions(COMPLETION_SUMMARY, word) {
      ForbiddenWordsAreReserved(Completed, None, word);
      PlainTextMentionsOnlyExcepted(COMPLETION_SUMMARY, SUCCESS_STEMS, word);
    }
    SuitsWhenNothingIsMentioned(CompletedStatus(route, context));
  }

  lemma RescueSuits(route: SelectedExecutionRoute, outcomes: seq<StepRecord>, context: RunContext)
    requires RescuesAreFree(outcomes)
    requires ConstrainedStatus(route, DegradedFallbackLimited, FALLBACK_SUMMARY_PREFIX + FallbackPairs(outcomes),
                               context).Valid()
    ensures TextSuits(ConstrainedStatus(route, DegradedFallbackLimited,
                                        FALLBACK_SUMMARY_PREFIX + FallbackPairs(outcomes), context))
  {
    var text := FALLBACK_SUMMARY_PREFIX + FallbackPairs(outcomes);
    RescueTextIsPlain();
    forall word | word in ForbiddenWords(CompletedWithConstraints, Some(DegradedFallbackLimited))
      ensures !Mentions(text, word)
    {
      ForbiddenWordsAreReserved(CompletedWithConstraints, Some(DegradedFallbackLimited), word);
      PlainTextMentionsOnlyExcepted(FALLBACK_SUMMARY_PREFIX, SUCCESS_STEMS, word);
      ListMentionsNothing(outcomes, word);
      SealedTextSplits(FALLBACK_SUMMARY_PREFIX, FallbackPairs(outcomes), word);
    }
    SuitsWhenNothingIsMentioned(ConstrainedStatus(route, DegradedFallbackLimited, text, context));
  }

  lemma PartialSuccessSuits(route: SelectedExecutionRoute, completed: nat, total: nat, stepId: string, detail: string,
                            context: RunContext)
    requires PartialSuccessStatus(route, completed, total, stepId, detail, context).Valid()
    ensures TextSuits(PartialSuccessStatus(route, completed, total, stepId, detail, context))
  {
    var text := CompletionCountSummary(completed, total);
    forall word | word in ForbiddenWords(PartialSuccess, Some(DegradedPartial)) ensures !Mentions(text, word) {
      ForbiddenWordsAreReserved(PartialSuccess, Some(DegradedPartial), word);
      CountTextClaimsSuccessOnly(completed, total, word);
    }
    SuitsWhenNothingIsMentioned(PartialSuccessStatus(route, completed, total, stepId, detail, context));
  }

  lemma CancellationSuits(route: SelectedExecutionRoute, stepId: string, context: RunContext)
    requires CanceledStatus(route, stepId, context).Valid() && FreeOfReservedWords(stepId)
    ensures TextSuits(CanceledStatus(route, stepId, context))
  {
    CancellationTextIsPlain();
    forall word | word in ForbiddenWords(Canceled, None) ensures !Mentions(CANCELLATION_PREFIX + stepId, word) {
      ForbiddenWordsAreReserved(Canceled, None, word);
      PlainTextMentionsOnlyExcepted(CANCELLATION_PREFIX, CANCELLATION_STEMS, word);
      FreeTextMentionsNothing(stepId, word);
      SealedTextSplits(CANCELLATION_PREFIX, stepId, word);
    }
    SuitsWhenNothingIsMentioned(CanceledStatus(route, stepId, context));
  }

  lemma DegradationSuits(route: SelectedExecutionRoute, context: RunContext)
    requires UnavailableStatus(route, UNAVAILABLE_SUMMARY, context).Valid()
    ensures TextSuits(UnavailableStatus(route, UNAVAILABLE_SUMMARY, context))
  {
    UnavailableTextIsPlain();
    forall word | word in ForbiddenWords(Degraded, Some(UnavailableDependencyBlock))
      ensures !Mentions(UNAVAILABLE_SUMMARY, word)
    {
      ForbiddenWordsAreReserved(Degraded, Some(UnavailableDependencyBlock), word);
      PlainTextMentionsOnlyExcepted(UNAVAILABLE_SUMMARY, [], word);
    }
    SuitsWhenNothingIsMentioned(UnavailableStatus(route, UNAVAILABLE_SUMMARY, context));
  }

  // ---- A whole trace -----------------------------------------------------------------------

  /** Every id the records name, as a step that was attempted or as its rescuer, is free. */
  predicate NamedIdsAreFree(outcomes: seq<StepRecord>) {
    && RescuesAreFree(outcomes)
    && forall k :: 0 <= k < |outcomes| && !outcomes[k].outcome.Skipped? ==> FreeOfReservedWords(outcomes[k].stepId)
  }

  /** Whatever a run closes with suits its state, except a failure, which repeats an adapter's words. */
  lemma ClosingSuits(route: SelectedExecutionRoute, outcomes: seq<StepRecord>, context: RunContext)
    requires NamedIdsAreFree(outcomes) && PlanOutcomeStatus(route, outcomes, context).Valid()
    requires !PlanOutcomeStatus(route, outcomes, context).state.Failed?
    ensures TextSuits(PlanOutcomeStatus(route, outcomes, context))
  {
    AggregationReportsDeclaredState(route, outcomes, context);
    match DeclaredState(outcomes)
    case Completed =>
      CompleteOutcomesChoose(route, outcomes, context);
      CompletionSuits(route, context);
    case CompletedWithConstraints =>
      CompleteOutcomesChoose(route, outcomes, context);
      RescueSuits(route, outcomes, context);
    case PartialSuccess =>
      var k := PartialSuccessNamesFirstIncomplete(route, outcomes, context);
      PartialSuccessSuits(route, CompletedCount(outcomes), |outcomes|, outcomes[k].stepId,
                          CulpritDetail(outcomes[k].outcome),
                          context);
    case Canceled =>
      var k := CancellationNamesFirstCanceled(route, outcomes, context);
      CancellationSuits(route, outcomes[k].stepId, context);
    case Degraded =>
      DegradedOutcomesChoose(route, outcomes, context);
      DegradationSuits(route, context);
  }

  predicate AllFree(ids: seq<string>) {
    forall id :: id in ids ==> FreeOfReservedWords(id)
  }

  lemma NamedIdsWereStarted(job: Assignment, capabilities: CapabilityRegistry, digest: Digest)
    requires Admitted(job, capabilities, digest) && CompletedRun(job).fault.None?
    requires AllFree(Attempts(CompletedRun(job)))
    ensures NamedIdsAreFree(CompletedRun(job).outcomes)
  {
    var outcomes := CompletedRun(job).outcomes;
    RescuesAreSound(job, capabilities, digest);
    OutcomesConservePlan(job, capabilities, digest);
    forall k | 0 <= k < |outcomes| && !outcomes[k].outcome.Skipped? ensures FreeOfReservedWords(outcomes[k].stepId) {
      SkipsHaveAnEarlierCause(job, capabilities, digest, |job.Steps()|, k);
    }
    forall k: nat | k < |outcomes| && outcomes[k].outcome.CompletedViaFallback?
      ensures FreeOfReservedWords(outcomes[k].outcome.fallbackStepId)
    {
      var j: nat :| IsRescue(job, outcomes, k, j);
      SkipsHaveAnEarlierCause(job, capabilities, digest, |job.Steps()|, j);
    }
  }

  /** Every status of the trace has a text that suits it. */
  predicate EveryTextSuits(statuses: seq<ExecutionStatus>) {
    forall k :: 0 <= k < |statuses| ==> TextSuits(statuses[k])
  }

  lemma OneAnnouncementSuits(route: SelectedExecutionRoute, context: RunContext, statuses: seq<ExecutionStatus>, k: nat)
    requires Announced(route, context, statuses) && 1 <= k < |statuses|
    ensures |StartedSteps(statuses)| == |statuses| - 1
    ensures TextSuits(statuses[k]) <==> FreeOfReservedWords(StartedSteps(statuses)[k - 1])
  {
    AttemptsAreAnnouncements(route, context, statuses);
    assert IsAnnouncement(route, context, statuses[k]);
    AnnouncementSuitsExactlyWhenIdIsFree(route, StartedSteps(statuses)[k - 1], context);
  }

  lemma AnnouncementsSuitExactlyWhenIdsAreFree(route: SelectedExecutionRoute, context: RunContext,
                                               statuses: seq<ExecutionStatus>)
    requires Announced(route, context, statuses)
    ensures EveryTextSuits(statuses) <==> AllFree(StartedSteps(statuses))
  {
    var started := StartedSteps(statuses);
    AttemptsAreAnnouncements(route, context, statuses);
    AdmissionSuits(route, context);
    if EveryTextSuits(statuses) {
      forall id | id in started ensures FreeOfReservedWords(id) {
        var k :| 0 <= k < |started| && started[k] == id;
        OneAnnouncementSuits(route, context, statuses, k + 1);
      }
    }
    if AllFree(started) {
      forall k | 0 <= k < |statuses| ensures TextSuits(statuses[k]) {
        if k > 0 {
          OneAnnouncementSuits(route, context, statuses, k);
          assert started[k - 1] in started;
        }
      }
    }
  }

  lemma ClosedTraceSuits(statuses: seq<ExecutionStatus>, closing: ExecutionStatus)
    ensures EveryTextSuits(statuses + [closing]) <==> EveryTextSuits(statuses) && TextSuits(closing)
  {
    var trace := statuses + [closing];
    assert forall k :: 0 <= k < |statuses| ==> trace[k] == statuses[k];
    if EveryTextSuits(trace) {
      assert TextSuits(trace[|statuses|]);
      forall k | 0 <= k < |statuses| ensures TextSuits(statuses[k]) {
        assert TextSuits(trace[k]);
      }
    }
  }

  /** A delivered trace can be recorded, status by status, exactly when no step it started has a
      reserved word in its id and, for a failed run, the reported failure suits: no other closing
      text stands in the way. */
  lemma TraceSuitsExactlyWhenStartedIdsAreFree(job: Assignment, capabilities: CapabilityRegistry, digest: Digest)
    requires Admitted(job, capabilities, digest) && Conclude(job, CompletedRun(job)).Success?
    ensures var trace := Conclude(job, CompletedRun(job)).value.statuses;
            var closing := trace[|trace| - 1];
            EveryTextSuits(trace) <==> AllFree(StartedSteps(trace)) && (closing.state.Failed? ==> TextSuits(closing))
  {
    var run := CompletedRun(job);
    var closing := PlanOutcomeStatus(job.route, run.outcomes, job.context);
    DeliveredTraceGrammar(job, capabilities, digest);
    FaultsPersist(job, 0, |job.Steps()|);
    RunAnnounces(job, |job.Steps()|);
    AnnouncementsSuitExactlyWhenIdsAreFree(job.route, job.context, run.statuses);
    ClosedTraceSuits(run.statuses, closing);
    if AllFree(Attempts(run)) && !closing.state.Failed? {
      NamedIdsWereStarted(job, capabilities, digest);
      ClosingSuits(job.route, run.outcomes, job.context);
    }
  }

  // ---- Whole-route traces --------------------------------------------------------------------

  lemma FallbackTextStems(stem: string)
    requires stem in STEMS && stem !in SUCCESS_STEMS
    ensures forall i: nat :: !ShowsAt("external delivery completed ", stem, i)
    ensures forall i: nat :: !ShowsAt("with declared fallback path", stem, i)
  {
  }

  lemma FallbackTextJoins()
    ensures FALLBACK_COMPLETION_SUMMARY == "external delivery completed " + "with declared fallback path" &&
            Seals("external delivery completed ")
  {
  }

  lemma FallbackTextIsLowerCase()
    ensures IsLowerCase("external delivery completed ") && IsLowerCase("with declared fallback path")
  {
  }

  lemma FallbackTextIsPlain()
    ensures IsPlainBut(FALLBACK_COMPLETION_SUMMARY, SUCCESS_STEMS)
  {
    var a, b := "external delivery completed ", "with declared fallback path";
    FallbackTextIsLowerCase();
    forall stem | stem in STEMS && stem !in SUCCESS_STEMS ensures ShowsNowhere(a, stem) && ShowsNowhere(b, stem) {
      FallbackTextStems(stem);
    }
    FallbackTextJoins();
  }

  lemma FallbackCompletionSuits(route: SelectedExecutionRoute, subtype: DegradedSubtype, context: RunContext)
    requires ConstrainedStatus(route, subtype, FALLBACK_COMPLETION_SUMMARY, context).Valid()
    ensures TextSuits(ConstrainedStatus(route, subtype, FALLBACK_COMPLETION_SUMMARY, context))
  {
    FallbackTextIsPlain();
    forall word | word in ForbiddenWords(CompletedWithConstraints, Some(subtype))
      ensures !Mentions(FALLBACK_COMPLETION_SUMMARY, word)
    {
      ForbiddenWordsAreReserved(CompletedWithConstraints, Some(subtype), word);
      PlainTextMentionsOnlyExcepted(FALLBACK_COMPLETION_SUMMARY, SUCCESS_STEMS, word);
    }
    SuitsWhenNothingIsMentioned(ConstrainedStatus(route, subtype, FALLBACK_COMPLETION_SUMMARY, context));
  }

  lemma AssembledTraceSuits(route: SelectedExecutionRoute, stepIds: seq<string>, closing: ExecutionStatus,
                            context: RunContext)
    requires Assemble(route, stepIds, closing, context).Success?
    requires !closing.state.InProgress?
    ensures var trace := Assemble(route, stepIds, closing, context).value.statuses;
            && closing.Valid() && trace != [] && trace[|trace| - 1] == closing && StartedSteps(trace) == stepIds
            && (EveryTextSuits(trace) <==> AllFree(stepIds) && TextSuits(closing))
  {
    var announced := Announcements(route, stepIds, context);
    var statuses := [AdmittedStatus(route, context)] + announced;
    forall k | 1 <= k < |statuses| ensures IsAnnouncement(route, context, statuses[k]) {
      assert statuses[k] == announced[k - 1];
    }
    StartedAnnouncements(route, stepIds, context);
    AnnouncementsSuitExactlyWhenIdsAreFree(route, context, statuses);
    ClosedTraceSuits(statuses, closing);
    StartedStepsAppend(statuses, closing);
  }

  /** A trace is recordable exactly when its started ids are free and, where its closing text is
      an adapter's own or names a capability, that text suits. */
  predicate RecordableExactly(statuses: seq<ExecutionStatus>) {
    statuses != [] &&
    var closing := statuses[|statuses| - 1];
    EveryTextSuits(statuses) <==>
      AllFree(StartedSteps(statuses)) && (closing.state.Failed? || closing.state.Degraded? ==> TextSuits(closing))
  }

  lemma AssembledTraceIsRecordableExactly(route: SelectedExecutionRoute, stepIds: seq<string>,
                                          closing: ExecutionStatus, context: RunContext)
    requires Assemble(route, stepIds, closing, context).Success? && !closing.state.InProgress?
    requires AllFree(stepIds) && !closing.state.Failed? && !closing.state.Degraded? ==> TextSuits(closing)
    ensures RecordableExactly(Assemble(route, stepIds, closing, context).value.statuses)
  {
    AssembledTraceSuits(route, stepIds, closing, context);
  }

  lemma ReplyTraceIsRecordableExactly(route: SelectedExecutionRoute, reply: AdapterDeliveryResult, context: RunContext)
    requires TraceOfReply(route, reply, context).Success?
    ensures RecordableExactly(TraceOfReply(route, reply, context).value.statuses)
  {
    match reply
    case DeliveredAllSteps =>
      CompletionSuits(route, context);
      AssembledTraceIsRecordableExactly(route, route.declaredStepIds, CompletedStatus(route, context), context);
    case CompletedWithDeclaredFallback(_, fallbackStepId, subtype) =>
      FallbackCompletionSuits(route, subtype, context);
      AssembledTraceIsRecordableExactly(route, StepsThrough(route.declaredStepIds, fallbackStepId).value,
                                        ConstrainedStatus(route, subtype, FALLBACK_COMPLETION_SUMMARY, context),
                                        context);
    case FailedAtDeclaredStep(stepId, summary) =>
      AssembledTraceIsRecordableExactly(route, StepsThrough(route.declaredStepIds, stepId).value,
                                        FailedStatus(route, summary, context), context);
    case CanceledAtDeclaredStep(stepId) =>
      var stepIds := StepsThrough(route.declaredStepIds, stepId).value;
      if AllFree(stepIds) {
        assert stepIds[|stepIds| - 1] in stepIds;
        CancellationSuits(route, stepId, context);
      }
      AssembledTraceIsRecordableExactly(route, stepIds, CanceledStatus(route, stepId, context), context);
    case DependencyUnavailable(summary) =>
      AssembledTraceIsRecordableExactly(route, [], UnavailableStatus(route, summary, context), context);
  }

  /** Whole-route traces, too: only started ids, and text that is not the coordinator's own, stand
      in the way of recording one. */
  lemma RouteTraceIsRecordableExactly(route: SelectedExecutionRoute, registry: map<CapabilityId, AdapterId>,
                                      adapters: AdapterOracle, context: RunContext)
    requires DeliverWholeRoute(route, registry, adapters, context).trace.Success?
    ensures RecordableExactly(DeliverWholeRoute(route, registry, adapters, context).trace.value.statuses)
  {
    var adapterId := Lookup(registry, route.requestedCapabilityId);
    if adapterId.None? {
      AssembledTraceIsRecordableExactly(
        route, [], UnavailableStatus(route, MissingAdapterSummary(route.requestedCapabilityId), context), context);
    } else {
      ReplyTraceIsRecordableExactly(route, adapters([], RouteCall(route, adapterId.value)), context);
    }
  }

  /** The same of per-step traces; what they close with when nothing was available always suits. */
  lemma RunTraceIsRecordableExactly(job: Assignment, capabilities: CapabilityRegistry, digest: Digest)
    requires Admitted(job, capabilities, digest) && Conclude(job, CompletedRun(job)).Success?
    ensures RecordableExactly(Conclude(job, CompletedRun(job)).value.statuses)
  {
    DeliveredTraceGrammar(job, capabilities, digest);
    TraceSuitsExactlyWhenStartedIdsAreFree(job, capabilities, digest);
  }
}

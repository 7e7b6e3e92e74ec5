/** The invariants of per-step delivery, kept by every turn of every run. */
module DeliveryInvariants {
  import opened Wrappers
  import opened Orders
  import opened Plans
  import opened PlanValidation
  import opened Status
  import opened Delivery
  import opened PerStepRun
  import opened DeliveryLedger
  import opened DeliveryTurns

  // ---- Attempts and calls ---------------------------------------------------------------

  lemma TurnKeepsLedger(job: Assignment, i: nat, run: Run, next: Run, turn: Turn)
    requires SoundPlan(job.validated.plan) && i < |job.Steps()| && Ledger(job, i, run)
    requires !turn.Faulted? && Guard(job, i, run, turn)
    requires BooksAfter(job, i, run, next, turn) && AttemptsAfter(job, i, run, next, turn)
    ensures Ledger(job, i + 1, next)
  {
    var ids := Ids(job);
    match turn
    case Reused =>
      ReuseKeepsBalance(ids, i, Attempts(run), run.outcomes, run.fallbackResults);
    case PassedOver =>
      SkipKeepsBalance(ids, i, Attempts(run), run.outcomes, run.fallbackResults);
    case OwnOnly(own) =>
      DispatchKeepsBalance(ids, i, Attempts(run), run.outcomes, run.fallbackResults, own);
    case WithFallback(own, j, fallback) =>
      FallbackKeepsBalance(ids, i, Attempts(run), run.outcomes, run.fallbackResults,
                           RescuedOutcome(own, ids[j], fallback),
                           j, fallback);
  }

  lemma AppendKeepsDistinct(s: seq<string>, x: string)
    requires NoDuplicates(s) && x !in s
    ensures NoDuplicates(s + [x])
  {
  }

  lemma FaultedTurnIsSafe(job: Assignment, i: nat, run: Run, next: Run)
    requires SoundPlan(job.validated.plan) && i < |job.Steps()|
    requires Ledger(job, i, run)
    requires FaultedTurn(job, i, run, next)
    ensures SafeLog(job, next)
  {
    var ids, done := Ids(job), Attempts(run);
    assert ids[i] !in done;
    AppendKeepsDistinct(done, ids[i]);
    if Attempts(next) != done && Attempts(next) != done + [ids[i]] {
      var j: nat :| MayUseFallback(job, i, j, run.fallbackResults) && Attempts(next) == done + [ids[i], ids[j]];
      assert ids[j] !in done && ids[j] != ids[i];
      AppendKeepsDistinct(done + [ids[i]], ids[j]);
      assert done + [ids[i], ids[j]] == done + [ids[i]] + [ids[j]];
    }
  }

  // ---- Truthful outcomes ----------------------------------------------------------------

  /** A recorded outcome is what the log shows: the step's own report, or a rescue in which
      the step's own attempt failed and the fallback's attempt completed. */
  ghost predicate Explained(job: Assignment, calls: seq<AdapterCall>, record: StepRecord) {
    match record.outcome
    case Skipped => true
    case CompletedViaFallback(fallbackStepId) =>
      && Reports(job, calls, fallbackStepId, StepCompleted)
      && exists own: StepDeliveryOutcome :: own.IsCause() && Reports(job, calls, record.stepId, own)
    case own => Reports(job, calls, record.stepId, own)
  }

  ghost predicate Truthful(job: Assignment, run: Run) {
    && (forall k :: 0 <= k < |run.outcomes| ==> Explained(job, run.calls, run.outcomes[k]))
    && (forall id :: id in run.fallbackResults ==> Reports(job, run.calls, id, run.fallbackResults[id]))
  }

  lemma ExplanationSurvivesGrowth(job: Assignment, calls: seq<AdapterCall>, more: seq<AdapterCall>, record: StepRecord)
    requires Explained(job, calls, record) && calls <= more
    ensures Explained(job, more, record)
  {
    match record.outcome
    case Skipped =>
    case CompletedViaFallback(fallbackStepId) =>
      ReportsSurviveGrowth(job, calls, more, fallbackStepId, StepCompleted);
      var own: StepDeliveryOutcome :| own.IsCause() && Reports(job, calls, record.stepId, own);
      ReportsSurviveGrowth(job, calls, more, record.stepId, own);
    case own =>
      ReportsSurviveGrowth(job, calls, more, record.stepId, own);
  }

  lemma TruthSurvivesGrowth(job: Assignment, run: Run, more: seq<AdapterCall>)
    requires Truthful(job, run) && run.calls <= more
    ensures Truthful(job, run.(calls := more))
  {
    forall k | 0 <= k < |run.outcomes| ensures Explained(job, more, run.outcomes[k]) {
      ExplanationSurvivesGrowth(job, run.calls, more, run.outcomes[k]);
    }
    forall id | id in run.fallbackResults ensures Reports(job, more, id, run.fallbackResults[id]) {
      ReportsSurviveGrowth(job, run.calls, more, id, run.fallbackResults[id]);
    }
  }

  lemma TurnKeepsTruth(job: Assignment, i: nat, run: Run, next: Run, turn: Turn)
    requires i < |job.Steps()| && Truthful(job, run)
    requires !turn.Faulted? && Guard(job, i, run, turn)
    requires BooksAfter(job, i, run, next, turn) && ReportsAfter(job, i, run, next, turn)
    ensures Truthful(job, next)
  {
    var id := Ids(job)[i];
    match turn
    case Reused =>
      assert Explained(job, next.calls, StepRecord(id, run.fallbackResults[id]));
    case PassedOver =>
    case OwnOnly(own) =>
      TruthSurvivesGrowth(job, run, next.calls);
      assert Explained(job, next.calls, StepRecord(id, own));
    case WithFallback(own, j, fallback) =>
      TruthSurvivesGrowth(job, run, next.calls);
      assert Explained(job, next.calls, StepRecord(id, RescuedOutcome(own, Ids(job)[j], fallback)));
  }

  // ---- Rescues --------------------------------------------------------------------------

  /** Step `k` was rescued by step `j`: `j` is its first declared fallback, strictly later,
      and `j`'s own result is a completion, recorded or still waiting. */
  ghost predicate RescuedBy(job: Assignment, run: Run, k: nat, j: nat)
    requires k < |run.outcomes| <= |job.Steps()|
  {
    var ids := Ids(job);
    && k < j < |ids|
    && run.outcomes[k].outcome == CompletedViaFallback(ids[j])
    && FirstReference(job.validated.plan.fallbackReferences, ids[k]) == Some(FallbackReference(ids[k], ids[j]))
    && if j < |run.outcomes| then run.outcomes[j].outcome == StepCompleted
       else ids[j] in run.fallbackResults && run.fallbackResults[ids[j]] == StepCompleted
  }

  ghost predicate RescuesSound(job: Assignment, run: Run)
    requires |run.outcomes| <= |job.Steps()|
  {
    && (forall k: nat :: k < |run.outcomes| && run.outcomes[k].outcome.CompletedViaFallback? ==>
          exists j: nat :: RescuedBy(job, run, k, j))
    && (forall k, m :: 0 <= k < m < |run.outcomes| && run.outcomes[k].outcome.CompletedViaFallback? &&
                       run.outcomes[m].outcome.CompletedViaFallback? ==>
          run.outcomes[k].outcome.fallbackStepId != run.outcomes[m].outcome.fallbackStepId)
  }

  lemma RescuersAreAttempted(job: Assignment, run: Run, k: nat, j: nat)
    requires |run.outcomes| <= |job.Steps()| && k < |run.outcomes|
    requires Ledger(job, |run.outcomes|, run) && RescuedBy(job, run, k, j)
    ensures Ids(job)[j] in Attempts(run)
  {
  }

  lemma TurnKeepsOneRescue(job: Assignment, i: nat, run: Run, next: Run, turn: Turn, k: nat, j: nat)
    requires SoundPlan(job.validated.plan) && k < i < |job.Steps()| && Ledger(job, i, run)
    requires !turn.Faulted? && Guard(job, i, run, turn) && BooksAfter(job, i, run, next, turn)
    requires RescuedBy(job, run, k, j)
    ensures |next.outcomes| == i + 1 && RescuedBy(job, next, k, j)
  {
    var ids := Ids(job);
    RescuersAreAttempted(job, run, k, j);
    if j >= i {
      assert ids[j] in run.fallbackResults;
      if turn.PassedOver? || turn.OwnOnly? || turn.WithFallback? {
        assert j != i;
      }
    }
  }

  lemma TurnKeepsRescues(job: Assignment, i: nat, run: Run, next: Run, turn: Turn)
    requires SoundPlan(job.validated.plan) && i < |job.Steps()| && Ledger(job, i, run) && RescuesSound(job, run)
    requires !turn.Faulted? && Guard(job, i, run, turn) && BooksAfter(job, i, run, next, turn)
    ensures |next.outcomes| == i + 1 && RescuesSound(job, next)
  {
    var ids := Ids(job);
    assert next.outcomes[..i] == run.outcomes;
    forall k: nat | k < i + 1 && next.outcomes[k].outcome.CompletedViaFallback?
      ensures exists j: nat :: RescuedBy(job, next, k, j)
    {
      if k < i {
        assert next.outcomes[k] == run.outcomes[k];
        var j: nat :| RescuedBy(job, run, k, j);
        TurnKeepsOneRescue(job, i, run, next, turn, k, j);
      } else {
        assert turn.WithFallback?;
        assert RescuedBy(job, next, k, turn.fallbackIndex);
      }
    }
    forall k, m | 0 <= k < m < i + 1 && next.outcomes[k].outcome.CompletedViaFallback? &&
                  next.outcomes[m].outcome.CompletedViaFallback?
      ensures next.outcomes[k].outcome.fallbackStepId != next.outcomes[m].outcome.fallbackStepId
    {
      assert next.outcomes[k] == run.outcomes[k];
      if m < i {
        assert next.outcomes[m] == run.outcomes[m];
      } else {
        assert turn.WithFallback?;
        var j: nat :| RescuedBy(job, run, k, j);
        RescuersAreAttempted(job, run, k, j);
        assert ids[turn.fallbackIndex] !in Attempts(run);
      }
    }
  }

  // ---- No rescue is missed --------------------------------------------------------------

  predicate PointsTo(job: Assignment, k: nat, j: nat) {
    && k < j < |job.Steps()|
    && FirstReference(job.validated.plan.fallbackReferences, Ids(job)[k]) ==
       Some(FallbackReference(Ids(job)[k], Ids(job)[j]))
  }

  /** Step `j`'s attempt ended without completing, in its turn or ahead of it. */
  predicate EndedIncomplete(job: Assignment, run: Run, j: nat)
    requires j < |job.Steps()|
  {
    if j < |run.outcomes| then run.outcomes[j].outcome.IsCause()
    else Ids(job)[j] in run.fallbackResults && run.fallbackResults[Ids(job)[j]].IsCause()
  }

  /** Why step `k` may stay a cause: it declares no fallback; its fallback `j` did not complete
      either; `j` had already rescued an earlier step `m`; or it was itself spent as the
      fallback of an earlier step `m`. */
  ghost predicate Exhausted(job: Assignment, run: Run, k: nat, j: nat, m: nat)
    requires k < |run.outcomes| <= |job.Steps()|
  {
    || FirstReference(job.validated.plan.fallbackReferences, Ids(job)[k]).None?
    || (PointsTo(job, k, j) && EndedIncomplete(job, run, j))
    || (PointsTo(job, k, j) && m < k && RescuedBy(job, run, m, j))
    || (m < k && PointsTo(job, m, k) && run.outcomes[m].outcome.IsCause())
  }

  ghost predicate BeyondRescue(job: Assignment, run: Run, k: nat)
    requires k < |run.outcomes| <= |job.Steps()|
  {
    exists j: nat, m: nat :: Exhausted(job, run, k, j, m)
  }

  /** A waiting result belongs to the first fallback of a step whose turn is over. */
  ghost predicate WaitsFor(job: Assignment, run: Run, id: string, m: nat, j: nat)
    requires |run.outcomes| <= |job.Steps()| && id in run.fallbackResults
  {
    && m < |run.outcomes| <= j && PointsTo(job, m, j) && Ids(job)[j] == id
    && if run.fallbackResults[id].StepCompleted? then run.outcomes[m].outcome == CompletedViaFallback(id)
       else run.outcomes[m].outcome.IsCause()
  }

  ghost predicate NoMissedRescue(job: Assignment, run: Run)
    requires |run.outcomes| <= |job.Steps()|
  {
    && (forall k: nat :: k < |run.outcomes| && run.outcomes[k].outcome.IsCause() ==> BeyondRescue(job, run, k))
    && (forall id :: id in run.fallbackResults ==> exists m: nat, j: nat :: WaitsFor(job, run, id, m, j))
  }

  lemma FirstReferenceIsAhead(job: Assignment, k: nat) returns (j: nat)
    requires SoundPlan(job.validated.plan) && k < |job.Steps()|
    ensures FirstReference(job.validated.plan.fallbackReferences, Ids(job)[k]).Some? ==> PointsTo(job, k, j)
  {
    j := 0;
    var plan := job.validated.plan;
    var reference := FirstReference(plan.fallbackReferences, Ids(job)[k]);
    if reference.Some? {
      FallbackIsLater(plan, reference.value);
      StepIndexIsUnique(plan.steps, k);
      j := StepIndex(plan.steps, reference.value.fallbackStepId);
    }
  }

  lemma TurnKeepsEndedIncomplete(job: Assignment, i: nat, run: Run, next: Run, turn: Turn, j: nat)
    requires SoundPlan(job.validated.plan) && i < |job.Steps()| && j < |job.Steps()| && |run.outcomes| == i
    requires !turn.Faulted? && Guard(job, i, run, turn) && BooksAfter(job, i, run, next, turn)
    requires EndedIncomplete(job, run, j)
    ensures EndedIncomplete(job, next, j)
  {
    if j >= i {
      assert Ids(job)[j] in run.fallbackResults;
      assert j == i ==> turn.Reused?;
    }
  }

  lemma TurnKeepsExhausted(job: Assignment, i: nat, run: Run, next: Run, turn: Turn, k: nat, j: nat, m: nat)
    requires SoundPlan(job.validated.plan) && k < i < |job.Steps()| && Ledger(job, i, run)
    requires !turn.Faulted? && Guard(job, i, run, turn) && BooksAfter(job, i, run, next, turn)
    requires Exhausted(job, run, k, j, m)
    ensures |next.outcomes| == i + 1 && Exhausted(job, next, k, j, m)
  {
    if PointsTo(job, k, j) && EndedIncomplete(job, run, j) {
      TurnKeepsEndedIncomplete(job, i, run, next, turn, j);
    } else if PointsTo(job, k, j) && m < k && RescuedBy(job, run, m, j) {
      TurnKeepsOneRescue(job, i, run, next, turn, m, j);
    }
  }

  lemma WaitingCauseIsSpent(job: Assignment, i: nat, run: Run, next: Run, m: nat, j: nat)
    requires NoDuplicates(Ids(job)) && i < |job.Steps()| && |run.outcomes| == i && Ids(job)[i] in run.fallbackResults
    requires WaitsFor(job, run, Ids(job)[i], m, j) && run.fallbackResults[Ids(job)[i]].IsCause()
    requires |next.outcomes| == i + 1 && next.outcomes[..i] == run.outcomes
    ensures Exhausted(job, next, i, 0, m)
  {
    assert j == i && next.outcomes[m] == run.outcomes[m];
  }

  lemma ReusedCauseIsExhausted(job: Assignment, i: nat, run: Run, next: Run) returns (m: nat)
    requires SoundPlan(job.validated.plan) && i < |job.Steps()| && |run.outcomes| == i && NoMissedRescue(job, run)
    requires Guard(job, i, run, Reused) && BooksAfter(job, i, run, next, Reused)
    requires run.fallbackResults[Ids(job)[i]].IsCause()
    ensures |next.outcomes| == i + 1 && Exhausted(job, next, i, 0, m)
  {
    var n: nat, j: nat :| WaitsFor(job, run, Ids(job)[i], n, j);
    WaitingCauseIsSpent(job, i, run, next, n, j);
    m := n;
  }

  lemma SpentTargetIsExhausted(job: Assignment, i: nat, run: Run, next: Run, j: nat, m: nat)
    requires i < |job.Steps()| && |run.outcomes| == i && PointsTo(job, i, j)
    requires Ids(job)[j] in run.fallbackResults && run.fallbackResults[Ids(job)[j]].IsDirect()
    requires WaitsFor(job, run, Ids(job)[j], m, j)
    requires next.fallbackResults == run.fallbackResults
    requires |next.outcomes| == i + 1 && next.outcomes[..i] == run.outcomes
    ensures Exhausted(job, next, i, j, m)
  {
    assert next.outcomes[m] == run.outcomes[m];
    if run.fallbackResults[Ids(job)[j]].StepCompleted? {
      assert RescuedBy(job, next, m, j);
    } else {
      assert EndedIncomplete(job, next, j);
    }
  }

  lemma OwnCauseIsExhausted(job: Assignment, i: nat, run: Run, next: Run, own: StepDeliveryOutcome)
    returns (j: nat, m: nat)
    requires SoundPlan(job.validated.plan) && i < |job.Steps()| && Ledger(job, i, run) && NoMissedRescue(job, run)
    requires own.IsCause() && Guard(job, i, run, OwnOnly(own)) && BooksAfter(job, i, run, next, OwnOnly(own))
    ensures |next.outcomes| == i + 1 && Exhausted(job, next, i, j, m)
  {
    m := 0;
    j := FirstReferenceIsAhead(job, i);
    if PointsTo(job, i, j) {
      var id := Ids(job)[j];
      assert id in run.fallbackResults by {
        assert !MayUseFallback(job, i, j, run.fallbackResults);
      }
      var n: nat, l: nat :| WaitsFor(job, run, id, n, l);
      SpentTargetIsExhausted(job, i, run, next, l, n);
      j, m := l, n;
    }
  }

  lemma FailedRescueIsExhausted(job: Assignment, i: nat, run: Run, next: Run, turn: Turn)
    requires SoundPlan(job.validated.plan) && i < |job.Steps()| && |run.outcomes| == i
    requires turn.WithFallback? && Guard(job, i, run, turn) && BooksAfter(job, i, run, next, turn)
    requires TurnOutcome(job, i, run, turn).IsCause()
    ensures |next.outcomes| == i + 1 && Exhausted(job, next, i, turn.fallbackIndex, 0)
  {
  }

  lemma TurnLeavesNoRescueMissed(job: Assignment, i: nat, run: Run, next: Run, turn: Turn) returns (j: nat, m: nat)
    requires SoundPlan(job.validated.plan) && i < |job.Steps()| && Ledger(job, i, run) && NoMissedRescue(job, run)
    requires !turn.Faulted? && Guard(job, i, run, turn) && BooksAfter(job, i, run, next, turn)
    requires TurnOutcome(job, i, run, turn).IsCause()
    ensures |next.outcomes| == i + 1 && Exhausted(job, next, i, j, m)
  {
    j, m := 0, 0;
    match turn
    case Reused =>
      m := ReusedCauseIsExhausted(job, i, run, next);
    case WithFallback(own, l, fallback) =>
      FailedRescueIsExhausted(job, i, run, next, turn);
      j := l;
    case OwnOnly(own) =>
      j, m := OwnCauseIsExhausted(job, i, run, next, own);
  }

  lemma TurnKeepsWaitsFor(job: Assignment, i: nat, run: Run, next: Run, turn: Turn, id: string, m: nat, j: nat)
    requires SoundPlan(job.validated.plan) && i < |job.Steps()| && |run.outcomes| == i
    requires !turn.Faulted? && Guard(job, i, run, turn) && BooksAfter(job, i, run, next, turn)
    requires id in run.fallbackResults && WaitsFor(job, run, id, m, j)
    requires id in next.fallbackResults && next.fallbackResults[id] == run.fallbackResults[id]
    ensures |next.outcomes| == i + 1 && WaitsFor(job, next, id, m, j)
  {
    if j == i {
      assert false;
    }
  }

  lemma TurnKeepsWaitingExplained(job: Assignment, i: nat, run: Run, next: Run, turn: Turn, id: string)
    requires SoundPlan(job.validated.plan) && i < |job.Steps()| && |run.outcomes| == i && NoMissedRescue(job, run)
    requires !turn.Faulted? && Guard(job, i, run, turn) && BooksAfter(job, i, run, next, turn)
    requires id in next.fallbackResults
    ensures |next.outcomes| == i + 1 && exists m: nat, j: nat :: WaitsFor(job, next, id, m, j)
  {
    if turn.WithFallback? && id == Ids(job)[turn.fallbackIndex] {
      assert WaitsFor(job, next, id, i, turn.fallbackIndex);
    } else {
      var m: nat, j: nat :| WaitsFor(job, run, id, m, j);
      TurnKeepsWaitsFor(job, i, run, next, turn, id, m, j);
    }
  }

  lemma TurnKeepsNoMissedRescue(job: Assignment, i: nat, run: Run, next: Run, turn: Turn)
    requires SoundPlan(job.validated.plan) && i < |job.Steps()| && Ledger(job, i, run)
    requires NoMissedRescue(job, run)
    requires !turn.Faulted? && Guard(job, i, run, turn) && BooksAfter(job, i, run, next, turn)
    ensures |next.outcomes| == i + 1 && NoMissedRescue(job, next)
  {
    forall k: nat | k < i + 1 && next.outcomes[k].outcome.IsCause() ensures BeyondRescue(job, next, k) {
      if k < i {
        assert next.outcomes[..i] == run.outcomes;
        assert next.outcomes[k] == run.outcomes[k];
        var j: nat, m: nat :| Exhausted(job, run, k, j, m);
        TurnKeepsExhausted(job, i, run, next, turn, k, j, m);
      } else {
        var j, m := TurnLeavesNoRescueMissed(job, i, run, next, turn);
      }
    }
    forall id | id in next.fallbackResults ensures exists m: nat, j: nat :: WaitsFor(job, next, id, m, j) {
      TurnKeepsWaitingExplained(job, i, run, next, turn, id);
    }
  }

  // ---- Stopping -------------------------------------------------------------------------

  predicate SomeCause(outcomes: seq<StepRecord>) {
    exists k :: 0 <= k < |outcomes| && outcomes[k].outcome.IsCause()
  }

  /** Dispatch is stopped exactly when the policy cancels the rest and some step is a cause;
      only then is a step skipped, and its cause comes first. */
  ghost predicate StopDiscipline(job: Assignment, run: Run) {
    && (run.stopDispatching <==> CancelsRest(job) && SomeCause(run.outcomes))
    && (forall k :: 0 <= k < |run.outcomes| && run.outcomes[k].outcome.Skipped? ==>
          CancelsRest(job) && SomeCause(run.outcomes[..k]))
    && (CancelsRest(job) ==>
        forall id :: id in run.fallbackResults && run.fallbackResults[id].IsCause() ==> run.stopDispatching)
  }

  lemma CauseExtends(outcomes: seq<StepRecord>, record: StepRecord)
    ensures SomeCause(outcomes + [record]) <==> SomeCause(outcomes) || record.outcome.IsCause()
  {
    var longer := outcomes + [record];
    if SomeCause(outcomes) {
      var k :| 0 <= k < |outcomes| && outcomes[k].outcome.IsCause();
      assert longer[k].outcome.IsCause();
    }
    if record.outcome.IsCause() {
      assert longer[|outcomes|].outcome.IsCause();
    }
  }

  lemma TurnKeepsStopDiscipline(job: Assignment, i: nat, run: Run, next: Run, turn: Turn)
    requires i < |job.Steps()| && Ledger(job, i, run) && StopDiscipline(job, run)
    requires !turn.Faulted? && Guard(job, i, run, turn) && BooksAfter(job, i, run, next, turn)
    ensures StopDiscipline(job, next)
  {
    assert next.outcomes == run.outcomes + [next.outcomes[i]];
    CauseExtends(run.outcomes, next.outcomes[i]);
    forall k | 0 <= k < i + 1 && next.outcomes[k].outcome.Skipped?
      ensures CancelsRest(job) && SomeCause(next.outcomes[..k])
    {
      assert next.outcomes[..k] == run.outcomes[..k];
      if k == i {
        assert run.outcomes[..i] == run.outcomes;
        assert turn.PassedOver?;
      } else {
        assert next.outcomes[k] == run.outcomes[k];
      }
    }
  }

  // ---- All of it, for every run ---------------------------------------------------------

  ghost predicate Invariant(job: Assignment, i: nat, run: Run) {
    && Ledger(job, i, run) && LogMatches(job, run) && Truthful(job, run)
    && RescuesSound(job, run) && NoMissedRescue(job, run) && StopDiscipline(job, run)
  }

  lemma FreshRunIsSafe(job: Assignment, run: Run)
    requires Attempts(run) == [] && run.outcomes == [] && run.calls == [] && !run.stopDispatching &&
             run.fallbackResults == map[]
    ensures SafeLog(job, run) && Invariant(job, 0, run)
  {
  }

  lemma StartIsSafe(job: Assignment)
    ensures SafeLog(job, StartRun(job))
    ensures StartRun(job).fault.None? ==> Invariant(job, 0, StartRun(job))
  {
    var run := StartRun(job);
    if run.fault.None? {
      StartedStepsAppend([], AdmittedStatus(job.route, job.context));
      assert run.statuses == [] + [AdmittedStatus(job.route, job.context)];
    }
    FreshRunIsSafe(job, run);
  }

  lemma TurnKeepsInvariant(job: Assignment, i: nat, run: Run, next: Run, turn: Turn)
    requires SoundPlan(job.validated.plan) && i < |job.Steps()|
    requires Invariant(job, i, run) && TurnIs(job, i, run, next, turn) && !turn.Faulted?
    ensures Invariant(job, i + 1, next)
  {
    TurnKeepsLedger(job, i, run, next, turn);
    TurnKeepsTruth(job, i, run, next, turn);
    TurnKeepsRescues(job, i, run, next, turn);
    TurnKeepsNoMissedRescue(job, i, run, next, turn);
    TurnKeepsStopDiscipline(job, i, run, next, turn);
  }

  /** Every step of a run that is still going is one classified turn. */
  lemma NextRun(job: Assignment, i: nat) returns (turn: Turn)
    requires SoundPlan(job.validated.plan) && i < |job.Steps()|
    requires RunAfter(job, i).fault.None? && LogMatches(job, RunAfter(job, i))
    ensures TurnIs(job, i, RunAfter(job, i), RunAfter(job, i + 1), turn)
    ensures turn.Faulted? <==> RunAfter(job, i + 1).fault.Some?
  {
    turn := ClassifyTurn(job, i, RunAfter(job, i));
  }

  lemma FaultStays(job: Assignment, i: nat)
    requires i < |job.Steps()| && RunAfter(job, i).fault.Some?
    ensures RunAfter(job, i + 1) == RunAfter(job, i)
  {
  }

  /** Every reachable run: the invariant while it goes on, a safe log once it has faulted. */
  lemma {:induction false} EveryRunIsSafe(job: Assignment, n: nat)
    requires SoundPlan(job.validated.plan) && n <= |job.Steps()|
    ensures SafeLog(job, RunAfter(job, n))
    ensures RunAfter(job, n).fault.None? ==> Invariant(job, n, RunAfter(job, n))
  {
    if n == 0 {
      StartIsSafe(job);
    } else {
      var i := n - 1;
      EveryRunIsSafe(job, i);
      if RunAfter(job, i).fault.Some? {
        FaultStays(job, i);
      } else {
        var turn := NextRun(job, i);
        if turn.Faulted? {
          FaultedTurnIsSafe(job, i, RunAfter(job, i), RunAfter(job, n));
        } else {
          TurnKeepsInvariant(job, i, RunAfter(job, i), RunAfter(job, n), turn);
        }
      }
    }
  }
}

/** One turn of the coordinator, described by what it did instead of how. */
module DeliveryTurns {
  import opened Wrappers
  import opened Orders
  import opened Plans
  import opened PlanValidation
  import opened Delivery
  import opened PerStepRun
  import opened DeliveryLedger

  datatype Turn =
    | Reused
    | PassedOver
    | OwnOnly(own: StepDeliveryOutcome)
    | WithFallback(own: StepDeliveryOutcome, fallbackIndex: nat, fallback: StepDeliveryOutcome)
    | Faulted

  /** The log backs the claim that `stepId`'s own attempt ended as `outcome`. */
  ghost predicate Reports(job: Assignment, calls: seq<AdapterCall>, stepId: string, outcome: StepDeliveryOutcome) {
    match FindStep(job.Steps(), stepId)
    case None => false
    case Some(step) =>
      match Lookup(job.registry, step.capabilityId)
      case None => outcome == StepUnavailable(MissingAdapterSummary(step.capabilityId))
      case Some(adapterId) =>
        exists n :: 0 <= n < |calls| && calls[n] == StepCall(job, step, adapterId) && ReplyReads(job, calls, n, outcome)
  }

  predicate ReplyReads(job: Assignment, calls: seq<AdapterCall>, n: nat, outcome: StepDeliveryOutcome) {
    n < |calls| && OutcomeOfReply(job.adapters(calls[..n], calls[n])) == Success(outcome)
  }

  lemma ReportsSurviveGrowth(job: Assignment, calls: seq<AdapterCall>, more: seq<AdapterCall>, stepId: string,
                             outcome: StepDeliveryOutcome)
    requires Reports(job, calls, stepId, outcome) && calls <= more
    ensures Reports(job, more, stepId, outcome)
  {
    var step := FindStep(job.Steps(), stepId).value;
    var adapterId := Lookup(job.registry, step.capabilityId);
    if adapterId.Some? {
      var n :| 0 <= n < |calls| && calls[n] == StepCall(job, step, adapterId.value) &&
        ReplyReads(job, calls, n, outcome);
      assert calls[..n] == more[..n];
      assert ReplyReads(job, more, n, outcome);
    }
  }

  lemma AttemptReports(job: Assignment, run: Run, k: nat)
    requires NoDuplicates(Ids(job)) && k < |job.Steps()|
    ensures var step := job.Steps()[k];
            var attempted := Attempt(job, run, step);
            run.calls <= attempted.run.calls &&
            (attempted.Attempted? ==> Reports(job, attempted.run.calls, step.stepId, attempted.outcome))
  {
    var step := job.Steps()[k];
    FindStepFindsIndex(job.Steps(), k);
    var adapterId := Lookup(job.registry, step.capabilityId);
    if adapterId.Some? {
      var call := StepCall(job, step, adapterId.value);
      var calls := run.calls + [call];
      assert calls[..|run.calls|] == run.calls;
      var outcome := OutcomeOfReply(job.adapters(run.calls, call));
      if outcome.Success? {
        assert ReplyReads(job, calls, |run.calls|, outcome.value);
      }
    }
  }

  ghost predicate AttemptFacts(job: Assignment, run: Run, k: nat, attempted: Attempted)
    requires k < |job.Steps()|
  {
    && SameBooks(run, attempted.run) && LogMatches(job, attempted.run) && run.calls <= attempted.run.calls
    && match attempted
       case Attempted(after, outcome) =>
         && after.fault == run.fault && outcome.IsDirect()
         && Attempts(after) == Attempts(run) + [Ids(job)[k]]
         && Reports(job, after.calls, Ids(job)[k], outcome)
       case Halted(halted) =>
         && halted.fault.Some?
         && (Attempts(halted) == Attempts(run) || Attempts(halted) == Attempts(run) + [Ids(job)[k]])
  }

  lemma AttemptHasFacts(job: Assignment, run: Run, k: nat)
    requires NoDuplicates(Ids(job)) && k < |job.Steps()| && LogMatches(job, run)
    ensures AttemptFacts(job, run, k, Attempt(job, run, job.Steps()[k]))
  {
    AttemptEffect(job, run, k);
    AttemptReports(job, run, k);
  }

  /** The fallback a failing step may use: its first reference, strictly later, not waiting. */
  predicate MayUseFallback(job: Assignment, i: nat, j: nat, waiting: map<string, StepDeliveryOutcome>) {
    && i < j < |job.Steps()|
    && FirstReference(job.validated.plan.fallbackReferences, Ids(job)[i]) ==
       Some(FallbackReference(Ids(job)[i], Ids(job)[j]))
    && Ids(job)[j] !in waiting
  }

  lemma ChosenFallbackIsLater(job: Assignment, i: nat, waiting: map<string, StepDeliveryOutcome>)
    returns (j: nat)
    requires SoundPlan(job.validated.plan) && i < |job.Steps()|
    ensures var chosen := DeclaredFallbackStep(job.validated.plan, Ids(job)[i], waiting);
            chosen.Some? ==> MayUseFallback(job, i, j, waiting) && chosen.value == job.Steps()[j]
    ensures var chosen := DeclaredFallbackStep(job.validated.plan, Ids(job)[i], waiting);
            chosen.None? ==> forall m: nat :: !MayUseFallback(job, i, m, waiting)
  {
    var ids, plan := Ids(job), job.validated.plan;
    j := 0;
    var reference := FirstReference(plan.fallbackReferences, ids[i]);
    if reference.Some? {
      FallbackIsLater(plan, reference.value);
      j := StepIndex(plan.steps, reference.value.fallbackStepId);
      StepIndexIsUnique(plan.steps, i);
      FindStepFindsIndex(plan.steps, j);
    }
  }

  ghost predicate CancelsRest(job: Assignment) {
    job.validated.plan.cancellationPolicy == CancelRemainingSteps
  }

  // ---- What a turn does, seen from the books, the attempts and the log --------------------

  /** When a turn of this kind is taken. */
  ghost predicate Guard(job: Assignment, i: nat, run: Run, turn: Turn)
    requires i < |job.Steps()|
  {
    var id := Ids(job)[i];
    match turn
    case Reused => id in run.fallbackResults
    case PassedOver => id !in run.fallbackResults && run.stopDispatching
    case OwnOnly(own) =>
      && id !in run.fallbackResults && !run.stopDispatching && own.IsDirect()
      && (own.IsCause() ==> forall j: nat :: !MayUseFallback(job, i, j, run.fallbackResults))
    case WithFallback(own, j, fallback) =>
      && id !in run.fallbackResults && !run.stopDispatching && own.IsDirect()
      && own.IsCause() && MayUseFallback(job, i, j, run.fallbackResults) && fallback.IsDirect()
    case Faulted => id !in run.fallbackResults && !run.stopDispatching
  }

  function TurnOutcome(job: Assignment, i: nat, run: Run, turn: Turn): StepDeliveryOutcome
    requires i < |job.Steps()| && !turn.Faulted?
    requires turn.Reused? ==> Ids(job)[i] in run.fallbackResults
    requires turn.WithFallback? ==> turn.fallbackIndex < |job.Steps()|
  {
    match turn
    case Reused => run.fallbackResults[Ids(job)[i]]
    case PassedOver => Skipped
    case OwnOnly(own) => own
    case WithFallback(own, j, fallback) => RescuedOutcome(own, Ids(job)[j], fallback)
  }

  function WaitingAfter(job: Assignment, i: nat, run: Run, turn: Turn): map<string, StepDeliveryOutcome>
    requires i < |job.Steps()|
    requires turn.WithFallback? ==> turn.fallbackIndex < |job.Steps()|
  {
    match turn
    case Reused => run.fallbackResults - {Ids(job)[i]}
    case WithFallback(_, j, fallback) => run.fallbackResults[Ids(job)[j] := fallback]
    case _ => run.fallbackResults
  }

  function NewAttempts(job: Assignment, i: nat, turn: Turn): seq<string>
    requires i < |job.Steps()|
    requires turn.WithFallback? ==> turn.fallbackIndex < |job.Steps()|
  {
    match turn
    case OwnOnly(_) => [Ids(job)[i]]
    case WithFallback(_, j, _) => [Ids(job)[i], Ids(job)[j]]
    case _ => []
  }

  /** The books after the turn: one more record, and the stop flag follows the policy. */
  ghost predicate BooksAfter(job: Assignment, i: nat, run: Run, next: Run, turn: Turn)
    requires i < |job.Steps()| && !turn.Faulted? && Guard(job, i, run, turn)
  {
    var outcome := TurnOutcome(job, i, run, turn);
    && next.outcomes == run.outcomes + [StepRecord(Ids(job)[i], outcome)]
    && next.fallbackResults == WaitingAfter(job, i, run, turn)
    && (next.stopDispatching <==> run.stopDispatching || (!turn.Reused? && outcome.IsCause() && CancelsRest(job)))
  }

  /** The attempts and the log after the turn. */
  ghost predicate AttemptsAfter(job: Assignment, i: nat, run: Run, next: Run, turn: Turn)
    requires i < |job.Steps()| && !turn.Faulted? && Guard(job, i, run, turn)
  {
    && Attempts(next) == Attempts(run) + NewAttempts(job, i, turn)
    && LogMatches(job, next)
  }

  /** The reports the log gained in the turn. */
  ghost predicate ReportsAfter(job: Assignment, i: nat, run: Run, next: Run, turn: Turn)
    requires i < |job.Steps()| && !turn.Faulted? && Guard(job, i, run, turn)
  {
    && run.calls <= next.calls
    && match turn
       case OwnOnly(own) => Reports(job, next.calls, Ids(job)[i], own)
       case WithFallback(own, j, fallback) =>
         Reports(job, next.calls, Ids(job)[i], own) && Reports(job, next.calls, Ids(job)[j], fallback)
       case _ => next.calls == run.calls
  }

  ghost predicate FaultedTurn(job: Assignment, i: nat, run: Run, next: Run)
    requires i < |job.Steps()|
  {
    && Guard(job, i, run, Faulted)
    && next.fault.Some? && LogMatches(job, next)
    && (Attempts(next) == Attempts(run) || Attempts(next) == Attempts(run) + [Ids(job)[i]] ||
        exists j: nat :: MayUseFallback(job, i, j, run.fallbackResults) &&
                         Attempts(next) == Attempts(run) + [Ids(job)[i], Ids(job)[j]])
  }

  /** `next` is `run` after turn `i`, and `turn` says what happened in between. */
  ghost predicate TurnIs(job: Assignment, i: nat, run: Run, next: Run, turn: Turn)
    requires i < |job.Steps()|
  {
    if turn.Faulted? then FaultedTurn(job, i, run, next)
    else
      && Guard(job, i, run, turn) && next.fault.None?
      && BooksAfter(job, i, run, next, turn)
      && AttemptsAfter(job, i, run, next, turn)
      && ReportsAfter(job, i, run, next, turn)
  }

  /** Every turn of a sound plan is one of the five. */
  lemma ClassifyTurn(job: Assignment, i: nat, run: Run) returns (turn: Turn)
    requires SoundPlan(job.validated.plan) && i < |job.Steps()|
    requires run.fault.None? && LogMatches(job, run)
    ensures TurnIs(job, i, run, TakeTurn(job, run, job.Steps()[i]), turn)
    ensures turn.Faulted? <==> TakeTurn(job, run, job.Steps()[i]).fault.Some?
  {
    var step := job.Steps()[i];
    if step.stepId in run.fallbackResults {
      return Reused;
    }
    if run.stopDispatching {
      return PassedOver;
    }
    AttemptHasFacts(job, run, i);
    var first := Attempt(job, run, step);
    if first.Halted? {
      return Faulted;
    }
    turn := ClassifyDispatchedTurn(job, i, run, first.run, first.outcome);
  }

  /** The run right after a step's own attempt, its reply not yet acted on. */
  ghost predicate OwnAttemptMade(job: Assignment, i: nat, run: Run, after: Run, own: StepDeliveryOutcome)
    requires i < |job.Steps()|
  {
    && Ids(job)[i] !in run.fallbackResults && !run.stopDispatching
    && SameBooks(run, after) && after.fault.None? && LogMatches(job, after) && run.calls <= after.calls
    && Attempts(after) == Attempts(run) + [Ids(job)[i]] && own.IsDirect()
    && Reports(job, after.calls, Ids(job)[i], own)
  }

  lemma SettledTurnIsOwnOnly(job: Assignment, i: nat, run: Run, after: Run, own: StepDeliveryOutcome)
    requires i < |job.Steps()| && OwnAttemptMade(job, i, run, after, own)
    requires own.IsCause() ==> forall j: nat :: !MayUseFallback(job, i, j, run.fallbackResults)
    ensures TurnIs(job, i, run, Settle(job, after, job.Steps()[i], own), OwnOnly(own))
  {
  }

  /** The run after the fallback's attempt as well, neither reply acted on yet. */
  ghost predicate BothAttemptsMade(job: Assignment, i: nat, j: nat, run: Run, second: Run, own: StepDeliveryOutcome,
                                   fallback: StepDeliveryOutcome)
    requires i < |job.Steps()|
  {
    && own.IsCause() && own.IsDirect() && MayUseFallback(job, i, j, run.fallbackResults)
    && Ids(job)[i] !in run.fallbackResults && !run.stopDispatching
    && SameBooks(run, second) && second.fault.None? && LogMatches(job, second) && run.calls <= second.calls
    && Attempts(second) == Attempts(run) + [Ids(job)[i], Ids(job)[j]] && fallback.IsDirect()
    && Reports(job, second.calls, Ids(job)[i], own) && Reports(job, second.calls, Ids(job)[j], fallback)
  }

  lemma SettledTurnIsWithFallback(job: Assignment, i: nat, j: nat, run: Run, second: Run, own: StepDeliveryOutcome,
                                  fallback: StepDeliveryOutcome)
    requires i < |job.Steps()| && BothAttemptsMade(job, i, j, run, second, own, fallback)
    ensures var next := Settle(job, KeepFallback(second, Ids(job)[j], fallback), job.Steps()[i],
                               RescuedOutcome(own, Ids(job)[j], fallback));
            TurnIs(job, i, run, next, WithFallback(own, j, fallback))
  {
    var next := Settle(job, KeepFallback(second, Ids(job)[j], fallback), job.Steps()[i],
                       RescuedOutcome(own, Ids(job)[j], fallback));
    assert Attempts(next) == Attempts(second) && next.calls == second.calls;
  }

  lemma FallbackAttempt(job: Assignment, i: nat, j: nat, run: Run, after: Run, own: StepDeliveryOutcome,
                        attempted: Attempted)
    requires NoDuplicates(Ids(job)) && i < |job.Steps()| && OwnAttemptMade(job, i, run, after, own)
    requires own.IsCause() && MayUseFallback(job, i, j, run.fallbackResults)
    requires AttemptFacts(job, after, j, attempted)
    ensures match attempted
            case Halted(halted) => TurnIs(job, i, run, halted, Faulted)
            case Attempted(second, fallback) => BothAttemptsMade(job, i, j, run, second, own, fallback)
  {
    assert Attempts(run) + [Ids(job)[i]] + [Ids(job)[j]] == Attempts(run) + [Ids(job)[i], Ids(job)[j]];
    if attempted.Attempted? {
      ReportsSurviveGrowth(job, after.calls, attempted.run.calls, Ids(job)[i], own);
    }
  }

  lemma ClassifyDispatchedTurn(job: Assignment, i: nat, run: Run, after: Run, own: StepDeliveryOutcome)
    returns (turn: Turn)
    requires SoundPlan(job.validated.plan) && i < |job.Steps()|
    requires OwnAttemptMade(job, i, run, after, own)
    ensures var next := AfterOwnAttempt(job, after, job.Steps()[i], own);
            TurnIs(job, i, run, next, turn) && (turn.Faulted? <==> next.fault.Some?)
  {
    var j := ChosenFallbackIsLater(job, i, run.fallbackResults);
    if own.IsCause() && DeclaredFallbackStep(job.validated.plan, Ids(job)[i], run.fallbackResults).Some? {
      AttemptHasFacts(job, after, j);
      FallbackAttempt(job, i, j, run, after, own, Attempt(job, after, job.Steps()[j]));
      match Attempt(job, after, job.Steps()[j])
      case Halted(halted) =>
        turn := Faulted;
      case Attempted(second, fallback) =>
        SettledTurnIsWithFallback(job, i, j, run, second, own, fallback);
        turn := WithFallback(own, j, fallback);
    } else {
      SettledTurnIsOwnOnly(job, i, run, after, own);
      turn := OwnOnly(own);
    }
  }
}

/** What every turn keeps: each declared step is attempted at most once, each attempt is
    announced, and each adapter call belongs to exactly one announced attempt. */
module DeliveryLedger {
  import opened Wrappers
  import opened Orders
  import opened Plans
  import opened Status
  import opened Delivery
  import opened PerStepRun

  function Ids(job: Assignment): (ids: seq<string>)
    ensures |ids| == |job.Steps()|
    ensures forall k :: 0 <= k < |ids| ==> ids[k] == job.Steps()[k].stepId
  {
    StepIds(job.Steps())
  }

  /** The steps announced so far; an announcement immediately precedes its dispatch. */
  function Attempts(run: Run): seq<string> {
    StartedSteps(run.statuses)
  }

  predicate HasAdapter(job: Assignment, stepId: string) {
    var step := FindStep(job.Steps(), stepId);
    step.Some? && step.value.capabilityId in job.registry
  }

  function CalledStep(call: AdapterCall): string {
    if call.request.declaredStepIds == [] then "" else call.request.declaredStepIds[0]
  }

  function CalledSteps(calls: seq<AdapterCall>): (ids: seq<string>)
    ensures |ids| == |calls|
    ensures forall n :: 0 <= n < |calls| ==> ids[n] == CalledStep(calls[n])
  {
    seq(|calls|, n requires 0 <= n < |calls| => CalledStep(calls[n]))
  }

  /** The attempts that reach an adapter. */
  function Reaching(job: Assignment, attempts: seq<string>): seq<string> {
    if attempts == [] then []
    else
      var before := Reaching(job, attempts[..|attempts| - 1]);
      var last := attempts[|attempts| - 1];
      if HasAdapter(job, last) then before + [last] else before
  }

  lemma ReachingAppend(job: Assignment, attempts: seq<string>, id: string)
    ensures Reaching(job, attempts + [id]) ==
            if HasAdapter(job, id) then Reaching(job, attempts) + [id] else Reaching(job, attempts)
  {
    assert (attempts + [id])[..|attempts|] == attempts;
  }

  lemma {:induction false} ReachingKeepsDistinct(job: Assignment, attempts: seq<string>)
    requires NoDuplicates(attempts)
    ensures NoDuplicates(Reaching(job, attempts))
    ensures forall id :: id in Reaching(job, attempts) ==> id in attempts
  {
    if attempts != [] {
      var before := attempts[..|attempts| - 1];
      assert forall id :: id in before ==> id in attempts;
      assert attempts[|attempts| - 1] !in before;
      ReachingKeepsDistinct(job, before);
    }
  }

  lemma {:induction false} FindStepFindsIndex(steps: seq<ExecutionPlanStep>, k: nat)
    requires NoDuplicates(StepIds(steps)) && k < |steps|
    ensures FindStep(steps, steps[k].stepId) == Some(steps[k])
  {
    if k > 0 {
      assert StepIds(steps)[0] != StepIds(steps)[k];
      assert StepIds(steps[1..]) == StepIds(steps)[1..];
      FindStepFindsIndex(steps[1..], k - 1);
    }
  }

  // ---- One attempt ----------------------------------------------------------------------

  /** The calls of a run are exactly the reaching attempts, each in the one-step form. */
  ghost predicate LogMatches(job: Assignment, run: Run) {
    CallsMatch(job, run.calls, Attempts(run))
  }

  ghost predicate CallsMatch(job: Assignment, calls: seq<AdapterCall>, attempts: seq<string>) {
    && CalledSteps(calls) == Reaching(job, attempts)
    && forall n :: 0 <= n < |calls| ==> IsStepCall(job, calls[n])
  }

  ghost predicate IsStepCall(job: Assignment, call: AdapterCall) {
    exists k :: 0 <= k < |job.Steps()| && job.Steps()[k].capabilityId in job.registry &&
      call == StepCall(job, job.Steps()[k], job.registry[job.Steps()[k].capabilityId])
  }

  /** The run differs from `before` only in its statuses, its log and its fault. */
  predicate SameBooks(before: Run, after: Run) {
    && after.outcomes == before.outcomes
    && after.stopDispatching == before.stopDispatching
    && after.fallbackResults == before.fallbackResults
  }

  lemma DispatchEffect(job: Assignment, calls: seq<AdapterCall>, attempts: seq<string>, k: nat)
    requires NoDuplicates(Ids(job)) && k < |job.Steps()|
    requires CallsMatch(job, calls, attempts)
    ensures var step := job.Steps()[k];
            var dispatch := DispatchOneStep(job, calls, step);
            CallsMatch(job, dispatch.calls, attempts + [step.stepId]) &&
            (dispatch.outcome.Success? ==> dispatch.outcome.value.IsDirect())
  {
    var step := job.Steps()[k];
    ReachingAppend(job, attempts, step.stepId);
    FindStepFindsIndex(job.Steps(), k);
    if step.capabilityId in job.registry {
      var call := StepCall(job, step, job.registry[step.capabilityId]);
      assert CalledSteps(calls + [call]) == CalledSteps(calls) + [step.stepId];
      assert IsStepCall(job, call);
    }
  }

  lemma AttemptEffect(job: Assignment, run: Run, k: nat)
    requires NoDuplicates(Ids(job)) && k < |job.Steps()| && LogMatches(job, run)
    ensures var step := job.Steps()[k];
            match Attempt(job, run, step)
            case Attempted(after, outcome) =>
              && SameBooks(run, after) && after.fault == run.fault && LogMatches(job, after)
              && Attempts(after) == Attempts(run) + [step.stepId]
              && outcome.IsDirect()
            case Halted(halted) =>
              && SameBooks(run, halted) && halted.fault.Some? && LogMatches(job, halted)
              && (Attempts(halted) == Attempts(run) || Attempts(halted) == Attempts(run) + [step.stepId])
  {
    var step := job.Steps()[k];
    StartedStepsAppend(run.statuses, InProgressStatus(job.route, step.stepId, job.context));
    DispatchEffect(job, run.calls, Attempts(run), k);
  }

  // ---- The ledger -----------------------------------------------------------------------

  /** The books after `i` turns. A step is attempted exactly when its turn was not skipped or
      its result is waiting for its turn. */
  ghost predicate Balanced(ids: seq<string>, i: nat, attempts: seq<string>, outcomes: seq<StepRecord>,
                           waiting: map<string, StepDeliveryOutcome>) {
    && |outcomes| == i <= |ids|
    && NoDuplicates(attempts)
    && (forall k :: 0 <= k < i ==> outcomes[k].stepId == ids[k])
    && (forall k :: 0 <= k < i ==> (ids[k] in attempts <==> !outcomes[k].outcome.Skipped?))
    && (forall k :: i <= k < |ids| ==> (ids[k] in attempts <==> ids[k] in waiting))
    && (forall id :: id in attempts ==> id in ids)
    && (forall id :: id in waiting ==> IsWaiting(ids, i, id) && waiting[id].IsDirect())
  }

  ghost predicate Ledger(job: Assignment, i: nat, run: Run) {
    Balanced(Ids(job), i, Attempts(run), run.outcomes, run.fallbackResults)
  }

  predicate IsWaiting(ids: seq<string>, i: nat, id: string) {
    exists k :: i <= k < |ids| && ids[k] == id
  }

  /** A run that stopped on a fault still never attempted a step twice. */
  ghost predicate SafeLog(job: Assignment, run: Run) {
    && NoDuplicates(Attempts(run))
    && (forall id :: id in Attempts(run) ==> id in Ids(job))
    && LogMatches(job, run)
  }

  lemma ReuseKeepsBalance(ids: seq<string>, i: nat, attempts: seq<string>, outcomes: seq<StepRecord>,
                          waiting: map<string, StepDeliveryOutcome>)
    requires NoDuplicates(ids) && i < |ids| && Balanced(ids, i, attempts, outcomes, waiting)
    requires ids[i] in waiting
    ensures Balanced(ids, i + 1, attempts, outcomes + [StepRecord(ids[i], waiting[ids[i]])], waiting - {ids[i]})
  {
    forall other | other in waiting - {ids[i]} ensures IsWaiting(ids, i + 1, other) {
      assert IsWaiting(ids, i, other);
    }
  }

  lemma SkipKeepsBalance(ids: seq<string>, i: nat, attempts: seq<string>, outcomes: seq<StepRecord>,
                         waiting: map<string, StepDeliveryOutcome>)
    requires NoDuplicates(ids) && i < |ids| && Balanced(ids, i, attempts, outcomes, waiting)
    requires ids[i] !in waiting
    ensures Balanced(ids, i + 1, attempts, outcomes + [StepRecord(ids[i], Skipped)], waiting)
  {
    forall other | other in waiting ensures IsWaiting(ids, i + 1, other) {
      assert IsWaiting(ids, i, other);
    }
  }

  /** A step dispatched in its own turn. */
  lemma DispatchKeepsBalance(ids: seq<string>, i: nat, attempts: seq<string>, outcomes: seq<StepRecord>,
                             waiting: map<string, StepDeliveryOutcome>, outcome: StepDeliveryOutcome)
    requires NoDuplicates(ids) && i < |ids| && Balanced(ids, i, attempts, outcomes, waiting)
    requires ids[i] !in waiting && !outcome.Skipped?
    ensures Balanced(ids, i + 1, attempts + [ids[i]], outcomes + [StepRecord(ids[i], outcome)], waiting)
  {
    forall other | other in waiting ensures IsWaiting(ids, i + 1, other) {
      assert IsWaiting(ids, i, other);
    }
  }

  /** A later step dispatched ahead of its turn, its result left waiting. */
  lemma EarlyDispatchKeepsBalance(ids: seq<string>, i: nat, attempts: seq<string>, outcomes: seq<StepRecord>,
                                  waiting: map<string, StepDeliveryOutcome>, j: nat, result: StepDeliveryOutcome)
    requires NoDuplicates(ids) && i <= j < |ids| && Balanced(ids, i, attempts, outcomes, waiting)
    requires ids[j] !in waiting && result.IsDirect()
    ensures Balanced(ids, i, attempts + [ids[j]], outcomes, waiting[ids[j] := result])
  {
    assert IsWaiting(ids, i, ids[j]);
  }

  /** A step dispatched in its own turn, and its fallback ahead of its. */
  lemma FallbackKeepsBalance(ids: seq<string>, i: nat, attempts: seq<string>, outcomes: seq<StepRecord>,
                             waiting: map<string, StepDeliveryOutcome>, outcome: StepDeliveryOutcome, j: nat,
                             result: StepDeliveryOutcome)
    requires NoDuplicates(ids) && i < j < |ids| && Balanced(ids, i, attempts, outcomes, waiting)
    requires ids[i] !in waiting && ids[j] !in waiting && !outcome.Skipped? && result.IsDirect()
    ensures Balanced(ids, i + 1, attempts + [ids[i], ids[j]], outcomes + [StepRecord(ids[i], outcome)],
                     waiting[ids[j] := result])
  {
    DispatchKeepsBalance(ids, i, attempts, outcomes, waiting, outcome);
    EarlyDispatchKeepsBalance(ids, i + 1, attempts + [ids[i]], outcomes + [StepRecord(ids[i], outcome)], waiting, j,
                              result);
    assert attempts + [ids[i]] + [ids[j]] == attempts + [ids[i], ids[j]];
  }
}

/** What no turn undoes, whatever the plan: logs, statuses and records only grow, and a record
    is made in its step's own turn. */
module RunGrowth {
  import opened Plans
  import opened Delivery
  import opened PerStepRun

  /** `after` continues `before`. */
  ghost predicate Extends(before: Run, after: Run) {
    before.calls <= after.calls && before.statuses <= after.statuses && before.outcomes <= after.outcomes
  }

  /** How one turn counts: a record if it ends well, none if it faults, nothing at all after a fault. */
  ghost predicate CountsTurn(run: Run, next: Run) {
    if run.fault.Some? then next == run
    else if next.fault.Some? then next.outcomes == run.outcomes
    else |next.outcomes| == |run.outcomes| + 1
  }

  /** A run still going has one record for each of its `n` turns; a faulted one has fewer. */
  ghost predicate Counted(run: Run, n: nat) {
    if run.fault.None? then |run.outcomes| == n else |run.outcomes| < n || run.outcomes == []
  }

  lemma AttemptExtends(job: Assignment, run: Run, step: ExecutionPlanStep)
    ensures Extends(run, Attempt(job, run, step).run) && Attempt(job, run, step).run.outcomes == run.outcomes
    ensures Attempt(job, run, step).Halted? ==> Attempt(job, run, step).run.fault.Some?
    ensures Attempt(job, run, step).Attempted? ==> Attempt(job, run, step).run.fault == run.fault
  {
  }

  lemma OwnAttemptExtends(job: Assignment, run: Run, step: ExecutionPlanStep, own: StepDeliveryOutcome)
    requires run.fault.None?
    ensures Extends(run, AfterOwnAttempt(job, run, step, own)) && CountsTurn(run, AfterOwnAttempt(job, run, step, own))
  {
    var fallbackStep := DeclaredFallbackStep(job.validated.plan, step.stepId, run.fallbackResults);
    if fallbackStep.Some? {
      AttemptExtends(job, run, fallbackStep.value);
    }
  }

  lemma TurnExtends(job: Assignment, run: Run, step: ExecutionPlanStep)
    ensures Extends(run, TakeTurn(job, run, step)) && CountsTurn(run, TakeTurn(job, run, step))
  {
    if run.fault.None? && step.stepId !in run.fallbackResults && !run.stopDispatching {
      AttemptExtends(job, run, step);
      var own := Attempt(job, run, step);
      if own.Attempted? {
        OwnAttemptExtends(job, own.run, step, own.outcome);
      }
    }
  }

  lemma StartIsCounted(job: Assignment)
    ensures Counted(StartRun(job), 0)
  {
  }

  lemma {:induction false} EveryRunIsCounted(job: Assignment, n: nat)
    requires n <= |job.Steps()|
    ensures Counted(RunAfter(job, n), n)
  {
    if n == 0 {
      StartIsCounted(job);
    } else {
      EveryRunIsCounted(job, n - 1);
      TurnIsCounted(job, RunAfter(job, n - 1), n - 1);
    }
  }

  lemma TurnIsCounted(job: Assignment, run: Run, i: nat)
    requires i < |job.Steps()| && Counted(run, i)
    ensures Counted(TakeTurn(job, run, job.Steps()[i]), i + 1)
  {
    TurnExtends(job, run, job.Steps()[i]);
  }

  lemma ExtendsIsTransitive(a: Run, b: Run, c: Run)
    requires Extends(a, b) && Extends(b, c)
    ensures Extends(a, c)
  {
  }

  lemma {:induction false} LaterRunExtends(job: Assignment, i: nat, n: nat)
    requires i <= n <= |job.Steps()|
    ensures Extends(RunAfter(job, i), RunAfter(job, n))
    decreases n
  {
    if i < n {
      LaterRunExtends(job, i, n - 1);
      TurnExtends(job, RunAfter(job, n - 1), job.Steps()[n - 1]);
      ExtendsIsTransitive(RunAfter(job, i), RunAfter(job, n - 1), RunAfter(job, n));
    }
  }

  ghost predicate HasFaulted(run: Run) {
    run.fault.Some?
  }

  /** A faulted run makes no further call, announcement or record. */
  lemma {:induction false} FaultIsFinal(job: Assignment, i: nat, n: nat)
    requires i <= n <= |job.Steps()| && HasFaulted(RunAfter(job, i))
    ensures RunAfter(job, n) == RunAfter(job, i)
    decreases n
  {
    if i < n {
      FaultIsFinal(job, i, n - 1);
      TurnExtends(job, RunAfter(job, n - 1), job.Steps()[n - 1]);
    }
  }

  /** Record `k` of any run, faulted or not, was made in turn `k`, which ended well, and stays. */
  lemma RecordIsFinal(job: Assignment, n: nat, k: nat)
    requires n <= |job.Steps()| && k < |RunAfter(job, n).outcomes|
    ensures k < n && RunAfter(job, k + 1).fault.None? && |RunAfter(job, k + 1).outcomes| == k + 1
    ensures RunAfter(job, n).outcomes[..k + 1] == RunAfter(job, k + 1).outcomes
  {
    EveryRunIsCounted(job, n);
    EveryRunIsCounted(job, k + 1);
    if HasFaulted(RunAfter(job, k + 1)) {
      FaultIsFinal(job, k + 1, n);
    }
    LaterRunExtends(job, k + 1, n);
  }
}

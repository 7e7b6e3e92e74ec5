/** What per-step delivery of a validated plan guarantees, for every adapter behaviour,
    registry and policy, and for runs that end in a fault as well. */
module DeliveryTheorems {
  import opened Wrappers
  import opened Orders
  import opened Plans
  import opened CanonicalPlans
  import opened PlanValidation
  import opened Status
  import opened Delivery
  import opened PerStepRun
  import opened RunGrowth
  import opened DeliveryLedger
  import opened DeliveryTurns
  import opened DeliveryInvariants

  /** A run over a plan the validator admitted. */
  predicate Admitted(job: Assignment, capabilities: CapabilityRegistry, digest: Digest) {
    IsValidatedPlan(job.validated, capabilities, digest)
  }

  /** No declared step is dispatched twice, at any point of any run, faulted or not: the calls
      are the announced attempts that have an adapter, in order, each in the one-step form. */
  lemma NoStepIsDeliveredTwice(job: Assignment, capabilities: CapabilityRegistry, digest: Digest, n: nat)
    requires Admitted(job, capabilities, digest) && n <= |job.Steps()|
    ensures var run := RunAfter(job, n);
            && NoDuplicates(CalledSteps(run.calls))
            && NoDuplicates(Attempts(run))
            && CalledSteps(run.calls) == Reaching(job, Attempts(run))
            && forall k :: 0 <= k < |run.calls| ==> IsStepCall(job, run.calls[k])
  {
    ValidPlanIsSoundAndAcyclic(job.validated.plan, capabilities, digest, []);
    EveryRunIsSafe(job, n);
    ReachingKeepsDistinct(job, Attempts(RunAfter(job, n)));
  }

  lemma CompletedRunKeepsInvariant(job: Assignment, capabilities: CapabilityRegistry, digest: Digest)
    requires Admitted(job, capabilities, digest) && CompletedRun(job).fault.None?
    ensures SoundPlan(job.validated.plan) && Invariant(job, |job.Steps()|, CompletedRun(job))
    ensures CompletedRun(job).fallbackResults == map[]
  {
    ValidPlanIsSoundAndAcyclic(job.validated.plan, capabilities, digest, []);
    EveryRunIsSafe(job, |job.Steps()|);
    var waiting := CompletedRun(job).fallbackResults;
    forall id ensures id !in waiting {
      assert id in waiting ==> IsWaiting(Ids(job), |job.Steps()|, id);
    }
    assert waiting.Keys == {};
  }

  /** The declared steps whose turn was not skipped, in order. */
  function AttemptedIds(outcomes: seq<StepRecord>): seq<string> {
    if outcomes == [] then []
    else
      var before := AttemptedIds(outcomes[..|outcomes| - 1]);
      var last := outcomes[|outcomes| - 1];
      if last.outcome.Skipped? then before else before + [last.stepId]
  }

  predicate RecordIds(outcomes: seq<StepRecord>, ids: seq<string>) {
    |outcomes| == |ids| && forall k :: 0 <= k < |ids| ==> outcomes[k].stepId == ids[k]
  }

  lemma {:induction false} AttemptedIdsAreTheUnskipped(outcomes: seq<StepRecord>, ids: seq<string>)
    requires RecordIds(outcomes, ids) && NoDuplicates(ids)
    ensures NoDuplicates(AttemptedIds(outcomes))
    ensures forall k :: 0 <= k < |ids| ==> (ids[k] in AttemptedIds(outcomes) <==> !outcomes[k].outcome.Skipped?)
    ensures forall id :: id in AttemptedIds(outcomes) ==> id in ids
  {
    if outcomes != [] {
      var n := |ids| - 1;
      AttemptedIdsAreTheUnskipped(outcomes[..n], ids[..n]);
      assert forall id :: id in ids[..n] ==> id in ids;
      assert ids[n] !in ids[..n];
      forall k | 0 <= k < n ensures ids[k] in AttemptedIds(outcomes) <==> !outcomes[k].outcome.Skipped? {
        assert ids[..n][k] == ids[k] && outcomes[..n][k] == outcomes[k];
      }
    }
  }

  lemma {:induction false} DistinctListsWithSameMembers(a: seq<string>, b: seq<string>)
    requires NoDuplicates(a) && NoDuplicates(b) && forall x :: x in a <==> x in b
    ensures multiset(a) == multiset(b)
  {
    forall x ensures multiset(a)[x] == multiset(b)[x] {
      DistinctMultiplicity(a, x);
      DistinctMultiplicity(b, x);
    }
  }

  lemma {:induction false} DistinctMultiplicity(s: seq<string>, x: string)
    requires NoDuplicates(s)
    ensures multiset(s)[x] == if x in s then 1 else 0
  {
    if s != [] {
      var n := |s| - 1;
      assert s == s[..n] + [s[n]];
      assert s[n] !in s[..n];
      DistinctMultiplicity(s[..n], x);
    }
  }

  /** Outcomes conserve the plan: one record per declared step, in order, and the announced
      attempts are exactly the steps not skipped, each once. */
  lemma OutcomesConservePlan(job: Assignment, capabilities: CapabilityRegistry, digest: Digest)
    requires Admitted(job, capabilities, digest) && CompletedRun(job).fault.None?
    ensures var run := CompletedRun(job);
            && RecordIds(run.outcomes, Ids(job))
            && multiset(Attempts(run)) == multiset(AttemptedIds(run.outcomes))
            && |Attempts(run)| == |AttemptedIds(run.outcomes)|
  {
    CompletedRunKeepsInvariant(job, capabilities, digest);
    var run, ids := CompletedRun(job), Ids(job);
    AttemptedIdsAreTheUnskipped(run.outcomes, ids);
    forall id ensures id in Attempts(run) <==> id in AttemptedIds(run.outcomes) {
      if id in ids {
        var k :| 0 <= k < |ids| && ids[k] == id;
      }
    }
    DistinctListsWithSameMembers(Attempts(run), AttemptedIds(run.outcomes));
    assert |Attempts(run)| == |multiset(Attempts(run))|;
  }

  /** The index of the step that rescued step `k`. */
  ghost predicate IsRescue(job: Assignment, outcomes: seq<StepRecord>, k: nat, j: nat)
    requires |outcomes| == |job.Steps()| && k < |outcomes|
  {
    && PointsTo(job, k, j)
    && outcomes[k].outcome == CompletedViaFallback(Ids(job)[j])
    && outcomes[j].outcome == StepCompleted
  }

  /** Every rescue is by the step's first declared fallback, strictly later, whose own record
      is a direct completion; no step rescues twice; nothing is left waiting. */
  lemma RescuesAreSound(job: Assignment, capabilities: CapabilityRegistry, digest: Digest)
    requires Admitted(job, capabilities, digest) && CompletedRun(job).fault.None?
    ensures var run := CompletedRun(job);
            && |run.outcomes| == |job.Steps()|
            && run.fallbackResults == map[]
            && (forall k: nat :: k < |run.outcomes| && run.outcomes[k].outcome.CompletedViaFallback? ==>
                  exists j: nat :: IsRescue(job, run.outcomes, k, j))
            && (forall k: nat, m: nat, j: nat | k < |run.outcomes| && m < |run.outcomes| &&
                  IsRescue(job, run.outcomes, k, j) && IsRescue(job, run.outcomes, m, j) :: k == m)
  {
    CompletedRunKeepsInvariant(job, capabilities, digest);
    var run := CompletedRun(job);
    forall k: nat | k < |run.outcomes| && run.outcomes[k].outcome.CompletedViaFallback?
      ensures exists j: nat :: IsRescue(job, run.outcomes, k, j)
    {
      var j: nat :| RescuedBy(job, run, k, j);
      assert IsRescue(job, run.outcomes, k, j);
    }
  }

  /** No rescue is missed: a step recorded as a cause has no fallback, or its fallback did not
      complete, or that fallback had already rescued an earlier step, or the step itself was
      spent as an earlier step's fallback. */
  lemma CausesAreBeyondRescue(job: Assignment, capabilities: CapabilityRegistry, digest: Digest, k: nat)
    requires Admitted(job, capabilities, digest) && CompletedRun(job).fault.None?
    requires k < |CompletedRun(job).outcomes| && CompletedRun(job).outcomes[k].outcome.IsCause()
    ensures var outcomes := CompletedRun(job).outcomes;
            && |outcomes| == |job.Steps()|
            && ((forall j: nat :: !PointsTo(job, k, j))
                || (exists j: nat :: PointsTo(job, k, j) && outcomes[j].outcome.IsCause())
                || (exists j: nat, m: nat :: m < k && PointsTo(job, k, j) && IsRescue(job, outcomes, m, j))
                || (exists m: nat :: m < k && PointsTo(job, m, k) && outcomes[m].outcome.IsCause()))
  {
    CompletedRunKeepsInvariant(job, capabilities, digest);
    var run := CompletedRun(job);
    var j: nat, m: nat :| Exhausted(job, run, k, j, m);
    if PointsTo(job, k, j) && m < k && RescuedBy(job, run, m, j) {
      assert IsRescue(job, run.outcomes, m, j);
    }
  }

  // ---- Stop discipline over a whole run ---------------------------------------------------

  lemma FaultsPersist(job: Assignment, i: nat, n: nat)
    requires i <= n <= |job.Steps()| && RunAfter(job, n).fault.None?
    ensures RunAfter(job, i).fault.None?
  {
    if HasFaulted(RunAfter(job, i)) {
      FaultIsFinal(job, i, n);
    }
  }

  /** The invariant as it stood right after record `k` was made. */
  lemma InvariantAtRecord(job: Assignment, n: nat, k: nat)
    requires SoundPlan(job.validated.plan) && n <= |job.Steps()| && k < |RunAfter(job, n).outcomes|
    ensures k < n && RunAfter(job, k + 1).fault.None? && Invariant(job, k + 1, RunAfter(job, k + 1))
    ensures RunAfter(job, n).outcomes[..k + 1] == RunAfter(job, k + 1).outcomes
  {
    RecordIsFinal(job, n, k);
    EveryRunIsSafe(job, k + 1);
  }

  /** What a stopped run still records for a step: a result obtained before the stop, or a skip. */
  function StoppedOutcome(waiting: map<string, StepDeliveryOutcome>, id: string): StepDeliveryOutcome {
    if id in waiting then waiting[id] else Skipped
  }

  /** `n` turns of a stopped run: records, and nothing else. */
  function RecordOnly(job: Assignment, stopped: Run, i: nat, n: nat): Run
    requires i <= n <= |job.Steps()|
    decreases n
  {
    if n == i then stopped
    else
      var run, id := RecordOnly(job, stopped, i, n - 1), Ids(job)[n - 1];
      Run(run.statuses, run.outcomes + [StepRecord(id, StoppedOutcome(run.fallbackResults, id))], true,
          run.fallbackResults - {id}, run.calls, None)
  }

  ghost predicate OnlyRecorded(job: Assignment, stopped: Run, i: nat, n: nat, run: Run) {
    i <= n <= |job.Steps()| && run == RecordOnly(job, stopped, i, n)
  }

  ghost predicate IsStopped(run: Run) {
    run.stopDispatching && run.fault.None?
  }

  lemma StoppedTurn(job: Assignment, stopped: Run, i: nat, n: nat, run: Run)
    requires IsStopped(stopped)
    requires OnlyRecorded(job, stopped, i, n, run) && n < |job.Steps()|
    ensures OnlyRecorded(job, stopped, i, n + 1, TakeTurn(job, run, job.Steps()[n]))
  {
    var id := Ids(job)[n];
    assert id !in run.fallbackResults ==> run.fallbackResults - {id} == run.fallbackResults;
  }

  /** From the turn after a stop on, no adapter is called and no step is announced. */
  lemma {:induction false} StoppedRunOnlyRecords(job: Assignment, i: nat, stopped: Run, n: nat)
    requires i <= n <= |job.Steps()| && IsStopped(stopped) && OnlyRecorded(job, stopped, i, i, RunAfter(job, i))
    ensures OnlyRecorded(job, stopped, i, n, RunAfter(job, n))
    decreases n
  {
    if i < n {
      StoppedRunOnlyRecords(job, i, stopped, n - 1);
      StoppedTurn(job, stopped, i, n - 1, RunAfter(job, n - 1));
    }
  }

  /** The records of a stopped run are fixed by what was waiting when it stopped. */
  lemma {:induction false} RecordingIsFixedAtTheStop(job: Assignment, stopped: Run, i: nat, n: nat)
    requires i <= n <= |job.Steps()| && |stopped.outcomes| == i && NoDuplicates(Ids(job))
    ensures var run := RecordOnly(job, stopped, i, n);
            && run.calls == stopped.calls && Attempts(run) == Attempts(stopped) && |run.outcomes| == n
            && (forall k :: i <= k < n ==>
                run.outcomes[k].outcome == StoppedOutcome(stopped.fallbackResults, Ids(job)[k]))
            && (forall k :: n <= k < |job.Steps()| ==>
                  StoppedOutcome(run.fallbackResults, Ids(job)[k]) ==
                    StoppedOutcome(stopped.fallbackResults, Ids(job)[k]))
    decreases n
  {
    if i < n {
      RecordingIsFixedAtTheStop(job, stopped, i, n - 1);
    }
  }

  lemma CauseStopsRun(job: Assignment, k: nat, run: Run)
    requires Invariant(job, k + 1, run) && CancelsRest(job)
    requires |run.outcomes| == k + 1 && run.outcomes[k].outcome.IsCause()
    ensures run.stopDispatching
  {
    assert SomeCause(run.outcomes);
  }

  /** Under cancel-remaining, once any run has recorded a cause, faulted or not, nothing is
      dispatched or announced after that record's turn and the run never faults: each later
      record is the reuse of an earlier result or a skip. */
  lemma NothingIsDispatchedAfterTheFirstCause(job: Assignment, capabilities: CapabilityRegistry, digest: Digest, n: nat,
                                              k: nat)
    requires Admitted(job, capabilities, digest) && CancelsRest(job) && n <= |job.Steps()|
    requires k < |RunAfter(job, n).outcomes| && RunAfter(job, n).outcomes[k].outcome.IsCause()
    ensures k < n && CompletedRun(job).fault.None?
    ensures CompletedRun(job).calls == RunAfter(job, k + 1).calls
    ensures Attempts(CompletedRun(job)) == Attempts(RunAfter(job, k + 1))
    ensures |CompletedRun(job).outcomes| == |job.Steps()|
    ensures forall m :: k < m < |job.Steps()| ==>
              CompletedRun(job).outcomes[m].outcome ==
              StoppedOutcome(RunAfter(job, k + 1).fallbackResults, Ids(job)[m])
  {
    ValidPlanIsSoundAndAcyclic(job.validated.plan, capabilities, digest, []);
    InvariantAtRecord(job, n, k);
    RunStaysStopped(job, n, k, RunAfter(job, k + 1));
  }

  lemma RunStaysStopped(job: Assignment, n: nat, k: nat, stopped: Run)
    requires SoundPlan(job.validated.plan) && CancelsRest(job) && k < n <= |job.Steps()|
    requires stopped == RunAfter(job, k + 1) && stopped.fault.None? && Invariant(job, k + 1, stopped)
    requires |stopped.outcomes| == k + 1 && stopped.outcomes[k].outcome.IsCause()
    ensures var run, end := CompletedRun(job), |job.Steps()|;
            && run.fault.None? && run.calls == stopped.calls && Attempts(run) == Attempts(stopped) &&
               |run.outcomes| == end
            && forall m :: k < m < end ==>
                 run.outcomes[m].outcome == StoppedOutcome(stopped.fallbackResults, Ids(job)[m])
  {
    CauseStopsRun(job, k, stopped);
    StoppedRunOnlyRecords(job, k + 1, stopped, |job.Steps()|);
    RecordingIsFixedAtTheStop(job, stopped, k + 1, |job.Steps()|);
  }

  /** Every recorded outcome of any run, faulted or not, is backed by the replies in its log; a
      skipped step is never announced. */
  lemma OutcomesAreTruthful(job: Assignment, capabilities: CapabilityRegistry, digest: Digest, n: nat, k: nat)
    requires Admitted(job, capabilities, digest) && n <= |job.Steps()| && k < |RunAfter(job, n).outcomes|
    ensures var run := RunAfter(job, n);
            && Explained(job, run.calls, run.outcomes[k])
            && (run.outcomes[k].outcome.Skipped? ==> run.outcomes[k].stepId !in Attempts(run))
  {
    ValidPlanIsSoundAndAcyclic(job.validated.plan, capabilities, digest, []);
    InvariantAtRecord(job, n, k);
    LaterRunExtends(job, k + 1, n);
    var record := RunAfter(job, k + 1).outcomes[k];
    assert RunAfter(job, n).outcomes[..k + 1][k] == record;
    ExplanationSurvivesGrowth(job, RunAfter(job, k + 1).calls, RunAfter(job, n).calls, record);
    if record.outcome.Skipped? {
      SkipComesBehindACause(job, k, RunAfter(job, k + 1));
      SkippedStepStaysUnannounced(job, n, k);
    }
  }

  lemma SkippedStepStaysUnannounced(job: Assignment, n: nat, k: nat)
    requires SoundPlan(job.validated.plan) && k < n <= |job.Steps()|
    requires |RunAfter(job, k + 1).outcomes| == k + 1 && IsStopped(RunAfter(job, k + 1))
    requires Ids(job)[k] !in Attempts(RunAfter(job, k + 1))
    ensures Ids(job)[k] !in Attempts(RunAfter(job, n))
  {
    var stopped := RunAfter(job, k + 1);
    StoppedRunOnlyRecords(job, k + 1, stopped, n);
    RecordingIsFixedAtTheStop(job, stopped, k + 1, n);
  }

  lemma SkipComesBehindACause(job: Assignment, k: nat, run: Run)
    requires k < |job.Steps()| && Invariant(job, k + 1, run) && run.outcomes[k].outcome.Skipped?
    ensures CancelsRest(job) && run.stopDispatching
    ensures exists m :: 0 <= m < k && run.outcomes[m].outcome.IsCause()
    ensures run.outcomes[k].stepId == Ids(job)[k] && Ids(job)[k] !in Attempts(run)
  {
    var m :| 0 <= m < |run.outcomes[..k]| && run.outcomes[..k][m].outcome.IsCause();
    assert run.outcomes[m].outcome.IsCause();
  }

  /** Skips happen only under cancel-remaining, and only behind a cause; every other recorded
      step has been announced. So under finish-in-flight-only every step is attempted. */
  lemma SkipsHaveAnEarlierCause(job: Assignment, capabilities: CapabilityRegistry, digest: Digest, n: nat, k: nat)
    requires Admitted(job, capabilities, digest) && n <= |job.Steps()| && k < |RunAfter(job, n).outcomes|
    ensures var run := RunAfter(job, n);
            && (run.outcomes[k].outcome.Skipped? ==>
                  CancelsRest(job) && exists m :: 0 <= m < k && run.outcomes[m].outcome.IsCause())
            && (!run.outcomes[k].outcome.Skipped? ==> k < |job.Steps()| && Ids(job)[k] in Attempts(run))
  {
    ValidPlanIsSoundAndAcyclic(job.validated.plan, capabilities, digest, []);
    InvariantAtRecord(job, n, k);
    LaterRunExtends(job, k + 1, n);
    RecordIsAttemptOrSkip(job, k, RunAfter(job, k + 1), RunAfter(job, n));
  }

  lemma RecordIsAttemptOrSkip(job: Assignment, k: nat, atRecord: Run, run: Run)
    requires k < |job.Steps()| && Invariant(job, k + 1, atRecord) && Extends(atRecord, run)
    ensures |atRecord.outcomes| == k + 1 && run.outcomes[k] == atRecord.outcomes[k]
    ensures run.outcomes[k].outcome.Skipped? ==>
              CancelsRest(job) && exists m :: 0 <= m < k && run.outcomes[m].outcome.IsCause()
    ensures !run.outcomes[k].outcome.Skipped? ==> Ids(job)[k] in Attempts(run)
  {
    if atRecord.outcomes[k].outcome.Skipped? {
      SkipComesBehindACause(job, k, atRecord);
      var m :| 0 <= m < k && atRecord.outcomes[m].outcome.IsCause();
      assert run.outcomes[m] == atRecord.outcomes[m];
    } else {
      StartedStepsOnlyGrow(atRecord.statuses, run.statuses);
    }
  }

  lemma {:induction false} StartedStepsOnlyGrow(before: seq<ExecutionStatus>, after: seq<ExecutionStatus>)
    requires before <= after
    ensures StartedSteps(before) <= StartedSteps(after)
  {
    if before != after {
      var front := after[..|after| - 1];
      assert after == front + [after[|after| - 1]];
      StartedStepsOnlyGrow(before, front);
      StartedStepsAppend(front, after[|after| - 1]);
    }
  }
}

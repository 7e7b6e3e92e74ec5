/** The execution pipeline: decide, validate, route, deliver, and record what happened. */
module Pipeline {
  import opened Wrappers
  import opened Orders
  import opened Vocabulary
  import opened Plans
  import opened CanonicalPlans
  import opened PlanValidation
  import opened Status
  import opened Routing
  import opened Delivery
  import opened PerStepRun
  import opened RunGrowth
  import opened DeliveryLedger
  import opened DeliveryTheorems
  import opened DeliveryTraces
  import opened Coordinator
  import opened WholeRoute
  import opened Admission
  import opened Forensics
  import opened RecordedRuns

  /** An export sink; its reply may depend on everything exported before. */
  datatype ForensicSink = ForensicSink(adapterId: string, replyTo: (seq<ForensicEvent>, ForensicEvent) -> ExportResult)

  datatype ForensicRecordOutcome = ForensicRecordOutcome(event: ForensicEvent, exportReference: Option<string>)

  /** The reply of a sink to one more event; no sink always keeps it. */
  function Kept(sink: Option<ForensicSink>, history: seq<ForensicEvent>, event: ForensicEvent)
    : Result<Option<string>, ForensicFault>
  {
    match sink
    case None => Success(None)
    case Some(to) =>
      match MapExportResult(to.adapterId, to.replyTo(history, event))
      case Success(reference) => Success(Some(reference))
      case Failure(fault) => Failure(fault)
  }

  /** Records one event and, if there is a sink, exports it. */
  method Record(kind: RecordKind, redaction: RedactionLevel, at: Timestamp, sink: Option<ForensicSink>,
                history: seq<ForensicEvent>)
    returns (r: Result<ForensicRecordOutcome, ForensicFault>, exported: seq<ForensicEvent>)
    ensures match RecordEvent(kind, redaction, at)
            case Failure(fault) => r == Failure(fault) && exported == history
            case Success(event) =>
              && exported == (if sink.Some? then history + [event] else history)
              && match Kept(sink, history, event)
                 case Success(reference) => r == Success(ForensicRecordOutcome(event, reference))
                 case Failure(fault) => r == Failure(fault)
  {
    exported := history;
    var event := RecordEvent(kind, redaction, at);
    if event.Failure? {
      return Failure(event.error), exported;
    }
    if sink.None? {
      return Success(ForensicRecordOutcome(event.value, None)), exported;
    }
    var reply := sink.value.replyTo(history, event.value);
    exported := exported + [event.value];
    var receipt := MapExportResult(sink.value.adapterId, reply);
    if receipt.Failure? {
      return Failure(receipt.error), exported;
    }
    r := Success(ForensicRecordOutcome(event.value, Some(receipt.value)));
  }

  predicate RecordsMirror(records: seq<ForensicRecordOutcome>, statuses: seq<ExecutionStatus>, decision: RouteDecision)
  {
    && |records| == |statuses|
    && forall k :: 0 <= k < |statuses| ==> Mirrors(records[k].event, statuses[k], decision)
  }

  predicate Recordable(status: ExecutionStatus, decision: RouteDecision) {
    status.Valid() && !status.state.IsPreExecution() && StatusBelongsTo(status, decision)
  }

  /** The events of a trace, in order. */
  function TraceEvents(decision: RouteDecision, statuses: seq<ExecutionStatus>, at: Timestamp)
    : (events: seq<ForensicEvent>)
    ensures |events| == |statuses|
    ensures forall k :: 0 <= k < |statuses| ==>
              events[k] == EventOf(StatusRecord(decision, statuses[k]), LinkageOnly, at)
  {
    seq(|statuses|, k requires 0 <= k < |statuses| => EventOf(StatusRecord(decision, statuses[k]), LinkageOnly, at))
  }

  /** The status's text suits it, and the sink keeps its event after all the earlier ones. */
  predicate KeptAt(decision: RouteDecision, statuses: seq<ExecutionStatus>, at: Timestamp, sink: Option<ForensicSink>,
                   k: nat)
    requires k < |statuses|
  {
    var events := TraceEvents(decision, statuses, at);
    TextSuits(statuses[k]) && Kept(sink, events[..k], events[k]).Success?
  }

  /** A status is kept exactly when its record can be built and the sink keeps its event. */
  lemma KeptExactlyWhenRecorded(decision: RouteDecision, statuses: seq<ExecutionStatus>, at: Timestamp,
                                sink: Option<ForensicSink>, k: nat)
    requires ConsistentSurface(decision) && k < |statuses| && Recordable(statuses[k], decision)
    ensures var recorded, events := RecordEvent(StatusRecord(decision, statuses[k]), LinkageOnly, at),
            TraceEvents(decision, statuses, at);
            && (recorded.Success? <==> TextSuits(statuses[k]))
            && (recorded.Success? ==> recorded.value == events[k] && Mirrors(events[k], statuses[k], decision))
            && (KeptAt(decision, statuses, at, sink, k) <==>
                recorded.Success? && Kept(sink, events[..k], events[k]).Success?)
  {
    StatusIsRecordedExactlyWhenTextSuits(decision, statuses[k], LinkageOnly, at);
  }

  lemma RecordsExtend(records: seq<ForensicRecordOutcome>, statuses: seq<ExecutionStatus>, k: nat,
                      decision: RouteDecision, record: ForensicRecordOutcome)
    requires k < |statuses| && RecordsMirror(records, statuses[..k], decision) &&
             Mirrors(record.event, statuses[k], decision)
    ensures RecordsMirror(records + [record], statuses[..k + 1], decision)
  {
  }

  /** Recording stops at status `k`, the first that is not kept; the sink has seen the events
      before it, and its own if the text allowed one. */
  ghost predicate StopsAt(decision: RouteDecision, statuses: seq<ExecutionStatus>, at: Timestamp,
                          sink: Option<ForensicSink>, k: nat, exported: seq<ForensicEvent>)
  {
    && k < |statuses| && !KeptAt(decision, statuses, at, sink, k)
    && (forall m: nat :: m < k ==> KeptAt(decision, statuses, at, sink, m))
    && exported == if sink.None? then []
       else TraceEvents(decision, statuses, at)[..k + (if TextSuits(statuses[k]) then 1 else 0)]
  }

  /** Records a trace status by status: it succeeds exactly when every status's text suits it and
      the sink, if any, keeps every event; the records then mirror the trace one for one, in
      order. What the sink has seen is accounted for either way. */
  method RecordTrace(decision: RouteDecision, statuses: seq<ExecutionStatus>, at: Timestamp, sink: Option<ForensicSink>)
    returns (r: Result<seq<ForensicRecordOutcome>, ForensicFault>, exported: seq<ForensicEvent>)
    requires ConsistentSurface(decision)
    requires forall k :: 0 <= k < |statuses| ==> Recordable(statuses[k], decision)
    ensures r.Success? <==> forall k: nat :: k < |statuses| ==> KeptAt(decision, statuses, at, sink, k)
    ensures r.Success? ==> RecordsMirror(r.value, statuses, decision)
    ensures r.Success? ==> exported == if sink.Some? then TraceEvents(decision, statuses, at) else []
    ensures r.Failure? ==> exists k: nat :: StopsAt(decision, statuses, at, sink, k, exported)
  {
    var records := [];
    exported := [];
    ghost var events := TraceEvents(decision, statuses, at);
    for k := 0 to |statuses|
      invariant RecordsMirror(records, statuses[..k], decision)
      invariant forall m: nat :: m < k ==> KeptAt(decision, statuses, at, sink, m)
      invariant exported == if sink.Some? then events[..k] else []
    {
      KeptExactlyWhenRecorded(decision, statuses, at, sink, k);
      var record;
      record, exported := Record(StatusRecord(decision, statuses[k]), LinkageOnly, at, sink, exported);
      if record.Failure? {
        assert StopsAt(decision, statuses, at, sink, k, exported);
        return Failure(record.error), exported;
      }
      RecordsExtend(records, statuses, k, decision, record.value);
      records := records + [record.value];
    }
    assert events[..|statuses|] == events;
    assert statuses[..|statuses|] == statuses;
    r := Success(records);
  }

  datatype AdapterEntry = AdapterEntry(capabilityId: CapabilityId, adapterId: AdapterId)

  datatype DispatchMode = WholeRouteDispatch | PerStepDispatch

  function RegistryOf(entries: seq<AdapterEntry>): map<CapabilityId, AdapterId> {
    if entries == [] then map[]
    else
      var last := entries[|entries| - 1];
      RegistryOf(entries[..|entries| - 1])[last.capabilityId := last.adapterId]
  }

  /** Every configured adapter is found under its capability, and nothing else is. */
  lemma {:induction false} RegistryHoldsTheEntries(entries: seq<AdapterEntry>)
    ensures forall id :: id in RegistryOf(entries) <==> id in Capabilities(entries)
    ensures NoDuplicates(Capabilities(entries)) ==>
              forall k :: 0 <= k < |entries| ==>
                Lookup(RegistryOf(entries), entries[k].capabilityId) == Some(entries[k].adapterId)
  {
    if entries != [] {
      var front, last := entries[..|entries| - 1], entries[|entries| - 1];
      RegistryHoldsTheEntries(front);
      assert Capabilities(entries) == Capabilities(front) + [last.capabilityId];
    }
  }

  /** Registers every configured adapter; a capability configured twice ends the run. */
  method RegisterAll(registry: AdapterRegistry, entries: seq<AdapterEntry>) returns (r: Result<(), Fault>)
    requires registry.byCapability == map[]
    modifies registry
    ensures r.Success? <==> NoDuplicates(Capabilities(entries))
    ensures r.Success? ==> registry.byCapability == RegistryOf(entries)
    ensures r.Failure? ==> r.error == AdapterAlreadyRegistered
  {
    for k := 0 to |entries|
      invariant NoDuplicates(Capabilities(entries[..k]))
      invariant registry.byCapability == RegistryOf(entries[..k])
    {
      var before := Capabilities(entries[..k]);
      RegistryHoldsTheEntries(entries[..k]);
      assert entries[..k + 1][..k] == entries[..k];
      assert Capabilities(entries[..k + 1]) == before + [entries[k].capabilityId];
      if entries[k].capabilityId in registry.byCapability {
        var m :| 0 <= m < |before| && before[m] == entries[k].capabilityId;
        assert Capabilities(entries)[m] == Capabilities(entries)[k];
      }
      r := registry.Register(entries[k].capabilityId, entries[k].adapterId);
      if r.Failure? {
        return;
      }
    }
    assert entries[..|entries|] == entries;
    r := Success(());
  }

  function Capabilities(entries: seq<AdapterEntry>): (ids: seq<CapabilityId>)
    ensures |ids| == |entries|
    ensures forall k :: 0 <= k < |entries| ==> ids[k] == entries[k].capabilityId
  {
    seq(|entries|, k requires 0 <= k < |entries| => entries[k].capabilityId)
  }

  // ---- The whole run ---------------------------------------------------------------------

  /** The last stands for the panic of a summary that is cut inside a character. */
  datatype PipelineFault = DeliveryFault(fault: Fault) | RecordFault(recordFault: ForensicFault) | SummaryPanic

  datatype PipelineOutcome = PipelineOutcome(
    decision: RouteDecision,
    planDenial: Option<PlanDenial>,
    trace: Option<ExecutionTrace>,
    records: seq<ForensicRecordOutcome>)

  /** What one run is asked to do, with every document already typed or refused by its loader. */
  datatype PipelineInput = PipelineInput(
    request: ExecutionRequest,
    envelope: Result<RequesterTrustEnvelope, string>,
    policy: Result<PolicyArtifact, string>,
    capabilities: CapabilityRegistry,
    plan: Option<ExecutionPlan>,
    selection: Option<AdapterId>,
    additionalAdapters: seq<AdapterEntry>,
    mode: DispatchMode,
    decisionId: RouteDecisionId,
    decidedAtUtc: Timestamp)
  {
    predicate Permitted() {
      ExecutionPermitted(request, envelope, policy, capabilities, decidedAtUtc)
    }

    /** No decision comes about: the operator's summary is cut inside a character. */
    predicate Panics() {
      SummaryIsCut(request, envelope, policy, decidedAtUtc)
    }
  }

  /** An admitted trace of a selected route can be recorded, status by status. */
  lemma AdmittedTraceIsRecordable(decision: RouteDecision, validated: ValidatedExecutionPlan, context: RunContext,
                                  statuses: seq<ExecutionStatus>)
    requires var route := RoutablePlan(decision, validated, ExternalAdapterBoundedExecution, true, false);
             AdmittedTrace(statuses, true) && statuses[0] == AdmittedStatus(route, context)
    ensures forall k :: 0 <= k < |statuses| ==> Recordable(statuses[k], decision)
  {
    forall k | 0 <= k < |statuses| ensures Recordable(statuses[k], decision) {
      assert statuses[k].Valid() && SameSubject(statuses[k], statuses[0]);
    }
  }

  /** The lone record of a run whose posture admits nothing. */
  predicate StandstillRecorded(outcome: PipelineOutcome) {
    && outcome.trace.None? && outcome.planDenial.None? && |outcome.records| == 1
    && outcome.records[0].event.executionState == PreExecutionState(outcome.decision.resolvedPosture)
    && outcome.records[0].event.currentPosture == outcome.decision.resolvedPosture
    && outcome.records[0].event.executionPlanId.None?
  }

  /** What delivery in a given mode comes to: one route call, or a per-step run. */
  function ModeRun(route: SelectedExecutionRoute, validated: ValidatedExecutionPlan,
                   registry: map<CapabilityId, AdapterId>, adapters: AdapterOracle, mode: DispatchMode,
                   context: RunContext): WholeRun
  {
    match mode
    case WholeRouteDispatch => DeliverWholeRoute(route, registry, adapters, context)
    case PerStepDispatch =>
      var job := Assignment(route, validated, registry, adapters, context);
      WholeRun(Conclude(job, CompletedRun(job)), CompletedRun(job).calls)
  }

  /** Delivers an admitted plan under its route, in either mode. */
  method DeliverAdmitted(route: SelectedExecutionRoute, validated: ValidatedExecutionPlan, registry: AdapterRegistry,
                         adapters: AdapterOracle, mode: DispatchMode, context: RunContext,
                         capabilities: CapabilityRegistry, ghost digest: Digest)
    returns (trace: Result<ExecutionTrace, Fault>, calls: seq<AdapterCall>)
    requires IsValidatedPlan(validated, capabilities, digest)
    ensures WholeRun(trace, calls) == ModeRun(route, validated, registry.byCapability, adapters, mode, context)
    ensures trace.Success? ==> AdmittedTrace(trace.value.statuses, true) &&
                               trace.value.statuses[0] == AdmittedStatus(route, context)
    ensures trace.Success? && context.Ordered() ==> TimesNeverDecrease(trace.value.statuses)
    ensures mode.PerStepDispatch? ==> NoDuplicates(CalledSteps(calls))
    ensures mode.WholeRouteDispatch? ==> |calls| <= 1
    ensures calls != [] ==> Deliverable(route)
  {
    match mode
    case WholeRouteDispatch =>
      trace, calls := DeliverRoute(route, registry, adapters, context);
      if trace.Success? {
        WholeRouteStaysInsidePlan(route, registry.byCapability, adapters, context);
      }
    case PerStepDispatch =>
      var coordinator := new PerStepCoordinator();
      trace := coordinator.DeliverPlanPerStep(route, validated, registry, adapters, context);
      calls := coordinator.calls;
      ghost var job := Assignment(route, validated, registry.byCapability, adapters, context);
      NoStepIsDeliveredTwice(job, capabilities, digest, |job.Steps()|);
      if !Deliverable(route) {
        FaultIsFinal(job, 0, |job.Steps()|);
      }
      if trace.Success? {
        DeliveredTraceGrammar(job, capabilities, digest);
      }
  }

  function ConfiguredAdapters(input: PipelineInput, decision: RouteDecision): seq<AdapterEntry> {
    (if input.selection.Some? then [AdapterEntry(decision.requestedCapabilityId, input.selection.value)] else []) +
    input.additionalAdapters
  }

  /** The pipeline gives every status of a run the decision's own time. */
  function DecisionTimes(input: PipelineInput): RunContext {
    RunContext(input.decidedAtUtc, input.decidedAtUtc, input.decidedAtUtc)
  }

  /** What routing, registering and delivering a validated plan comes to. */
  function RunUnder(input: PipelineInput, decision: RouteDecision, validated: ValidatedExecutionPlan,
                    adapters: AdapterOracle)
    : WholeRun
  {
    match NewRoutingInput(decision, Some(validated))
    case Failure(fault) => WholeRun(Failure(fault), [])
    case Success(routingInput) =>
      match SelectRoute(routingInput)
      case Failure(fault) => WholeRun(Failure(fault), [])
      case Success(route) =>
        var entries := ConfiguredAdapters(input, decision);
        if !NoDuplicates(Capabilities(entries)) then WholeRun(Failure(AdapterAlreadyRegistered), [])
        else ModeRun(route, validated, RegistryOf(entries), adapters, input.mode, DecisionTimes(input))
  }

  predicate DecisionTextSuits(decision: RouteDecision) {
    && TruthfulSummary(decision.operatorSummary, PreExecutionState(decision.resolvedPosture), None)
    && !MentionsNarration(decision.operatorSummary)
  }

  function StandstillKind(decision: RouteDecision): RecordKind {
    if decision.resolvedPosture.Denied? then DenialRecord(decision) else DecisionRecord(decision)
  }

  /** A run that must not execute leaves one record, exactly when its text suits it and the sink,
      if any, keeps its event. */
  ghost predicate StandsStill(outcome: Result<PipelineOutcome, PipelineFault>, exported: seq<ForensicEvent>,
                              decision: RouteDecision, at: Timestamp, sink: Option<ForensicSink>)
  {
    var event := EventOf(StandstillKind(decision), SensitiveFieldsRedacted, at);
    && (outcome.Success? <==> DecisionTextSuits(decision) && Kept(sink, [], event).Success?)
    && exported == (if sink.Some? && DecisionTextSuits(decision) then [event] else [])
    && (outcome.Success? ==> outcome.value.decision == decision && StandstillRecorded(outcome.value))
  }

  /** A run under a plan that is missing or denied ends there, with nothing recorded. */
  ghost predicate StopsAtPlan(outcome: Result<PipelineOutcome, PipelineFault>, decision: RouteDecision,
                              input: PipelineInput, digest: Digest)
  {
    match input.plan
    case None => outcome == Failure(DeliveryFault(MissingPlan))
    case Some(plan) =>
      && outcome.Success? && outcome.value.planDenial.Some?
      && outcome.value == PipelineOutcome(decision, outcome.value.planDenial, None, [])
      && DenialIsGrounded(outcome.value.planDenial.value, plan, input.capabilities, digest)
  }

  /** A delivered run succeeds exactly when it can be recorded, and then records its trace. */
  ghost predicate DeliversAndRecords(outcome: Result<PipelineOutcome, PipelineFault>, calls: seq<AdapterCall>,
                                     exported: seq<ForensicEvent>, decision: RouteDecision, run: WholeRun,
                                     at: Timestamp, sink: Option<ForensicSink>)
  {
    && calls == run.calls
    && match run.trace
       case Failure(fault) => outcome == Failure(DeliveryFault(fault)) && exported == []
       case Success(trace) =>
         && AdmittedTrace(trace.statuses, true) && TimesNeverDecrease(trace.statuses)
         && (outcome.Success? <==>
             forall k: nat :: k < |trace.statuses| ==> KeptAt(decision, trace.statuses, at, sink, k))
         && (outcome.Success? ==>
               && outcome.value == PipelineOutcome(decision, None, Some(trace), outcome.value.records)
               && RecordsMirror(outcome.value.records, trace.statuses, decision)
               && exported == if sink.Some? then TraceEvents(decision, trace.statuses, at) else [])
         && (outcome.Failure? ==> exists k: nat :: StopsAt(decision, trace.statuses, at, sink, k, exported))
  }

  lemma WithoutSinkTextDecides(decision: RouteDecision, statuses: seq<ExecutionStatus>, at: Timestamp)
    ensures (forall k: nat :: k < |statuses| ==> KeptAt(decision, statuses, at, None, k)) <==> EveryTextSuits(statuses)
  {
    if forall k: nat :: k < |statuses| ==> KeptAt(decision, statuses, at, None, k) {
      forall k | 0 <= k < |statuses| ensures TextSuits(statuses[k]) {
        assert KeptAt(decision, statuses, at, None, k);
      }
    }
  }

  lemma DeliveredTraceIsRecordableExactly(input: PipelineInput, decision: RouteDecision,
                                          validated: ValidatedExecutionPlan, digest: Digest, adapters: AdapterOracle)
    requires IsValidatedPlan(validated, input.capabilities, digest)
    requires RunUnder(input, decision, validated, adapters).trace.Success?
    ensures RecordableExactly(RunUnder(input, decision, validated, adapters).trace.value.statuses)
  {
    var route := SelectRoute(NewRoutingInput(decision, Some(validated)).value).value;
    var registry := RegistryOf(ConfiguredAdapters(input, decision));
    match input.mode
    case WholeRouteDispatch => RouteTraceIsRecordableExactly(route, registry, adapters, DecisionTimes(input));
    case PerStepDispatch =>
      RunTraceIsRecordableExactly(Assignment(route, validated, registry, adapters, DecisionTimes(input)),
                                  input.capabilities, digest);
  }

  /** Without a sink, a run that delivered its trace, in either mode, succeeds exactly when no step
      it started has a reserved word in its id and the text it failed or degraded with suits. */
  lemma DeliveredRunIsRecordedExactlyWhenIdsAreFree(
      input: PipelineInput, decision: RouteDecision, validated: ValidatedExecutionPlan, digest: Digest,
      adapters: AdapterOracle, outcome: Result<PipelineOutcome, PipelineFault>, calls: seq<AdapterCall>,
      exported: seq<ForensicEvent>)
    requires IsValidatedPlan(validated, input.capabilities, digest)
    requires RunUnder(input, decision, validated, adapters).trace.Success?
    requires DeliversAndRecords(outcome, calls, exported, decision, RunUnder(input, decision, validated, adapters),
                                input.decidedAtUtc, None)
    ensures var trace := RunUnder(input, decision, validated, adapters).trace.value.statuses;
            && trace != []
            && var closing := trace[|trace| - 1];
               outcome.Success? <==>
                 AllFree(StartedSteps(trace)) &&
                 (closing.state.Failed? || closing.state.Degraded? ==> TextSuits(closing))
  {
    var run := RunUnder(input, decision, validated, adapters);
    DeliveredTraceIsRecordableExactly(input, decision, validated, digest, adapters);
    RecordedExactlyWhenTextsSuit(outcome, calls, exported, decision, run, input.decidedAtUtc);
  }

  lemma RecordedExactlyWhenTextsSuit(outcome: Result<PipelineOutcome, PipelineFault>, calls: seq<AdapterCall>,
                                     exported: seq<ForensicEvent>, decision: RouteDecision, run: WholeRun,
                                     at: Timestamp)
    requires run.trace.Success? && DeliversAndRecords(outcome, calls, exported, decision, run, at, None)
    ensures run.trace.value.statuses != [] && (outcome.Success? <==> EveryTextSuits(run.trace.value.statuses))
  {
    WithoutSinkTextDecides(decision, run.trace.value.statuses, at);
  }

  method RecordStandstill(decision: RouteDecision, at: Timestamp, sink: Option<ForensicSink>)
    returns (outcome: Result<PipelineOutcome, PipelineFault>, exported: seq<ForensicEvent>)
    requires ConsistentSurface(decision) && !decision.resolvedPosture.IsAdmitted()
    ensures StandsStill(outcome, exported, decision, at, sink)
  {
    DecisionIsRecordedExactlyWhenTextSuits(decision, SensitiveFieldsRedacted, at);
    var record;
    record, exported := Record(StandstillKind(decision), SensitiveFieldsRedacted, at, sink, []);
    outcome := match record
      case Failure(fault) => Failure(RecordFault(fault))
      case Success(kept) => Success(PipelineOutcome(decision, None, None, [kept]));
  }

  /** One run, accounted for whichever way it ends, with the decision it reached. Adapters are
      called only when every admission stage permits execution and the plan is valid. */
  method RunPipeline(input: PipelineInput, digest: Digest, adapters: AdapterOracle, sink: Option<ForensicSink>)
    returns (outcome: Result<PipelineOutcome, PipelineFault>, calls: seq<AdapterCall>, exported: seq<ForensicEvent>,
             decision: Option<RouteDecision>)
    ensures decision.None? <==> input.Panics()
    ensures decision.Some? ==>
              ConsistentSurface(decision.value) && (decision.value.executionAllowed <==> input.Permitted())
    ensures input.Panics() ==> !input.Permitted() && outcome == Failure(SummaryPanic) && calls == [] && exported == []
    ensures !input.Panics() && !input.Permitted() ==>
              calls == [] && StandsStill(outcome, exported, decision.value, input.decidedAtUtc, sink)
    ensures input.Permitted() && (input.plan.None? || !ValidPlan(input.plan.value, input.capabilities, digest)) ==>
              decision.Some? && calls == [] && exported == [] && StopsAtPlan(outcome, decision.value, input, digest)
    ensures input.Permitted() && input.plan.Some? && ValidPlan(input.plan.value, input.capabilities, digest) ==>
              var validated := ValidatedExecutionPlan(input.plan.value, digest(CanonicalForm(input.plan.value)));
              && decision.Some?
              && DeliversAndRecords(outcome, calls, exported, decision.value,
                                    RunUnder(input, decision.value, validated, adapters), input.decidedAtUtc, sink)
              && (input.mode.PerStepDispatch? ==> NoDuplicates(CalledSteps(calls)))
  {
    calls, exported := [], [];
    var resolution := ResolveRouteDecision(input.request, input.envelope, input.policy, input.capabilities,
                                           input.decidedAtUtc, input.decisionId);
    if resolution.None? {
      return Failure(SummaryPanic), calls, exported, None;
    }
    var decided := resolution.value.decision;
    decision := Some(decided);
    if !decided.resolvedPosture.IsAdmitted() {
      outcome, exported := RecordStandstill(decided, input.decidedAtUtc, sink);
      return;
    }
    if input.plan.None? {
      outcome := Failure(DeliveryFault(MissingPlan));
      return;
    }
    var validation := Validate(input.plan.value, input.capabilities, digest);
    if validation.Failure? {
      outcome := Success(PipelineOutcome(decided, Some(validation.error), None, []));
      return;
    }
    var delivered;
    delivered, calls := DeliverUnderDecision(input, decided, validation.value, digest, adapters);
    if delivered.Failure? {
      outcome := Failure(DeliveryFault(delivered.error));
      return;
    }
    AdmittedTraceIsRecordable(decided, validation.value, DecisionTimes(input), delivered.value.statuses);
    var records;
    records, exported := RecordTrace(decided, delivered.value.statuses, input.decidedAtUtc, sink);
    if records.Failure? {
      outcome := Failure(RecordFault(records.error));
      return;
    }
    outcome := Success(PipelineOutcome(decided, None, Some(delivered.value), records.value));
  }

  /** Routes a validated plan under an admitted decision, registers adapters, and delivers. */
  method DeliverUnderDecision(input: PipelineInput, decision: RouteDecision, validated: ValidatedExecutionPlan,
                              ghost digest: Digest, adapters: AdapterOracle)
    returns (trace: Result<ExecutionTrace, Fault>, calls: seq<AdapterCall>)
    requires ConsistentSurface(decision) && decision.resolvedPosture.IsAdmitted()
    requires IsValidatedPlan(validated, input.capabilities, digest)
    ensures WholeRun(trace, calls) == RunUnder(input, decision, validated, adapters)
    ensures input.mode.PerStepDispatch? ==> NoDuplicates(CalledSteps(calls))
    ensures trace.Success? ==>
              && AdmittedTrace(trace.value.statuses, true) && TimesNeverDecrease(trace.value.statuses)
              && trace.value.statuses[0] == AdmittedStatus(
                   RoutablePlan(decision, validated, ExternalAdapterBoundedExecution, true, false),
                   DecisionTimes(input))
  {
    calls := [];
    var routingInput := NewRoutingInput(decision, Some(validated));
    if routingInput.Failure? {
      return Failure(routingInput.error), calls;
    }
    var route := SelectRoute(routingInput.value);
    if route.Failure? {
      return Failure(route.error), calls;
    }
    var registry := new AdapterRegistry();
    var registered := RegisterAll(registry, ConfiguredAdapters(input, decision));
    if registered.Failure? {
      return Failure(registered.error), calls;
    }
    trace, calls := DeliverAdmitted(route.value, validated, registry, adapters, input.mode, DecisionTimes(input),
                                    input.capabilities, digest);
  }
}

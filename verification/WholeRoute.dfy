/** Whole-route delivery: one adapter call for the whole plan, never beyond what was declared. */
module WholeRoute {
  import opened Wrappers
  import opened Orders
  import opened Text
  import opened Vocabulary
  import opened Plans
  import opened CanonicalPlans
  import opened PlanValidation
  import opened Status
  import opened Routing
  import opened Delivery
  import opened Traces

  function RouteCall(route: SelectedExecutionRoute, adapterId: AdapterId): AdapterCall
    requires Deliverable(route)
  {
    AdapterCall(adapterId, AdapterDeliveryRequest(
      route.routeDecisionId, route.correlationId, route.requestId, route.resolvedPosture,
      route.requestedCapabilityId, route.executionPlanId.value, route.stablePlanHash.value,
      route.declaredStepIds, route.declaredCapabilityIds, route.declaredFallbackReferences))
  }

  /** The declared steps up to and including the first occurrence of `target`. */
  function StepsThrough(declared: seq<string>, target: string): (steps: Option<seq<string>>)
    ensures steps.None? <==> target !in declared
    ensures steps.Some? ==> 0 < |steps.value| <= |declared| && steps.value == declared[..|steps.value|] &&
                            steps.value[|steps.value| - 1] == target
  {
    if declared == [] then None
    else if declared[0] == target then Some([target])
    else match StepsThrough(declared[1..], target)
      case None => None
      case Some(rest) => Some([declared[0]] + rest)
  }

  function Announcements(route: SelectedExecutionRoute, stepIds: seq<string>, context: RunContext)
    : (statuses: seq<ExecutionStatus>)
    ensures |statuses| == |stepIds|
    ensures forall k :: 0 <= k < |stepIds| ==> statuses[k] == InProgressStatus(route, stepIds[k], context)
  {
    seq(|stepIds|, k requires 0 <= k < |stepIds| => InProgressStatus(route, stepIds[k], context))
  }

  predicate AllValid(statuses: seq<ExecutionStatus>) {
    forall k :: 0 <= k < |statuses| ==> statuses[k].Valid()
  }

  /** Admission, the announced steps, and the closing status, all of them valid. */
  function Assemble(route: SelectedExecutionRoute, stepIds: seq<string>, closing: ExecutionStatus, context: RunContext)
    : Result<ExecutionTrace, Fault>
  {
    var announced := Announcements(route, stepIds, context);
    if AdmittedStatus(route, context).Valid() && AllValid(announced) && closing.Valid() then
      Success(ExecutionTrace([AdmittedStatus(route, context)] + announced + [closing]))
    else
      Failure(InvalidStatus)
  }

  /** The checks a claimed fallback completion must pass. */
  function FallbackClaimFault(route: SelectedExecutionRoute, stepId: string, fallbackStepId: string,
                              subtype: DegradedSubtype)
    : Option<Fault>
  {
    if !subtype.IsExplicitFallback() then Some(UnexplicitFallbackSubtype)
    else if stepId !in route.declaredStepIds then Some(UndeclaredStep)
    else if FallbackReference(stepId, fallbackStepId) !in route.declaredFallbackReferences then Some(UndeclaredFallback)
    else None
  }

  const FALLBACK_COMPLETION_SUMMARY := "external delivery completed with declared fallback path"

  /** What the reply to the one call turns into. */
  function TraceOfReply(route: SelectedExecutionRoute, reply: AdapterDeliveryResult, context: RunContext)
    : Result<ExecutionTrace, Fault>
  {
    match reply
    case DeliveredAllSteps =>
      Assemble(route, route.declaredStepIds, CompletedStatus(route, context), context)
    case CompletedWithDeclaredFallback(stepId, fallbackStepId, subtype) =>
      (match FallbackClaimFault(route, stepId, fallbackStepId, subtype)
       case Some(fault) => Failure(fault)
       case None =>
         match StepsThrough(route.declaredStepIds, fallbackStepId)
         case None => Failure(UndeclaredStep)
         case Some(stepIds) =>
           Assemble(route, stepIds, ConstrainedStatus(route, subtype, FALLBACK_COMPLETION_SUMMARY, context), context))
    case FailedAtDeclaredStep(stepId, summary) =>
      if !IsBoundedSummary(summary) then Failure(UnboundedDetail)
      else (match StepsThrough(route.declaredStepIds, stepId)
            case None => Failure(UndeclaredStep)
            case Some(stepIds) => Assemble(route, stepIds, FailedStatus(route, summary, context), context))
    case CanceledAtDeclaredStep(stepId) =>
      (match StepsThrough(route.declaredStepIds, stepId)
       case None => Failure(UndeclaredStep)
       case Some(stepIds) => Assemble(route, stepIds, CanceledStatus(route, stepId, context), context))
    case DependencyUnavailable(summary) =>
      if !IsBoundedSummary(summary) then Failure(UnboundedDetail)
      else Assemble(route, [], UnavailableStatus(route, summary, context), context)
    case Unsupported(summary) =>
      if !IsBoundedSummary(summary) then Failure(UnboundedDetail) else Failure(UnsupportedAdapterCondition)
  }

  datatype WholeRun = WholeRun(trace: Result<ExecutionTrace, Fault>, calls: seq<AdapterCall>)

  function DeliverWholeRoute(route: SelectedExecutionRoute, registry: map<CapabilityId, AdapterId>,
                             adapters: AdapterOracle, context: RunContext): WholeRun
  {
    if !Deliverable(route) then WholeRun(Failure(RouteNotDeliverable), [])
    else if !AdmittedStatus(route, context).Valid() then WholeRun(Failure(InvalidStatus), [])
    else match Lookup(registry, route.requestedCapabilityId)
      case None =>
        WholeRun(Assemble(route, [],
                          UnavailableStatus(route, MissingAdapterSummary(route.requestedCapabilityId), context),
                          context), [])
      case Some(adapterId) =>
        var call := RouteCall(route, adapterId);
        WholeRun(TraceOfReply(route, adapters([], call), context), [call])
  }

  // ---- The service's own form: a growing list of checked statuses --------------------------

  method BuildInProgress(route: SelectedExecutionRoute, stepIds: seq<string>, context: RunContext)
    returns (r: Result<seq<ExecutionStatus>, Fault>)
    ensures r.Success? <==> AllValid(Announcements(route, stepIds, context))
    ensures r.Success? ==> r.value == Announcements(route, stepIds, context)
    ensures r.Failure? ==> r.error == InvalidStatus
  {
    var statuses := [];
    for k := 0 to |stepIds|
      invariant statuses == Announcements(route, stepIds[..k], context)
      invariant AllValid(statuses)
    {
      var status := Checked(InProgressStatus(route, stepIds[k], context));
      if status.Failure? {
        assert !Announcements(route, stepIds, context)[k].Valid();
        return Failure(status.error);
      }
      statuses := statuses + [status.value];
    }
    assert stepIds[..|stepIds|] == stepIds;
    r := Success(statuses);
  }

  method CloseTrace(route: SelectedExecutionRoute, stepIds: seq<string>, closing: ExecutionStatus, context: RunContext)
    returns (trace: Result<ExecutionTrace, Fault>)
    requires AdmittedStatus(route, context).Valid()
    ensures trace == Assemble(route, stepIds, closing, context)
  {
    var statuses := [AdmittedStatus(route, context)];
    var announced := BuildInProgress(route, stepIds, context);
    if announced.Failure? {
      return Failure(announced.error);
    }
    statuses := statuses + announced.value;
    var checked := Checked(closing);
    if checked.Failure? {
      return Failure(checked.error);
    }
    statuses := statuses + [checked.value];
    trace := NewTrace(statuses);
  }

  method DeliverRoute(route: SelectedExecutionRoute, registry: AdapterRegistry, adapters: AdapterOracle,
                      context: RunContext)
    returns (trace: Result<ExecutionTrace, Fault>, calls: seq<AdapterCall>)
    ensures WholeRun(trace, calls) == DeliverWholeRoute(route, registry.byCapability, adapters, context)
  {
    calls := [];
    if !Deliverable(route) {
      return Failure(RouteNotDeliverable), calls;
    }
    if !AdmittedStatus(route, context).Valid() {
      return Failure(InvalidStatus), calls;
    }
    var adapterId := registry.Resolve(route.requestedCapabilityId);
    if adapterId.None? {
      var summary := MissingAdapterSummary(route.requestedCapabilityId);
      trace := CloseTrace(route, [], UnavailableStatus(route, summary, context), context);
      return;
    }
    var call := RouteCall(route, adapterId.value);
    var reply := adapters(calls, call);
    calls := calls + [call];
    match reply
    case DeliveredAllSteps =>
      trace := CloseTrace(route, route.declaredStepIds, CompletedStatus(route, context), context);
    case CompletedWithDeclaredFallback(stepId, fallbackStepId, subtype) =>
      var fault := FallbackClaimFault(route, stepId, fallbackStepId, subtype);
      if fault.Some? {
        return Failure(fault.value), calls;
      }
      var stepIds := StepsThrough(route.declaredStepIds, fallbackStepId);
      if stepIds.None? {
        return Failure(UndeclaredStep), calls;
      }
      trace := CloseTrace(route, stepIds.value,
                          ConstrainedStatus(route, subtype, FALLBACK_COMPLETION_SUMMARY, context), context);
    case FailedAtDeclaredStep(stepId, summary) =>
      if !IsBoundedSummary(summary) {
        return Failure(UnboundedDetail), calls;
      }
      var stepIds := StepsThrough(route.declaredStepIds, stepId);
      if stepIds.None? {
        return Failure(UndeclaredStep), calls;
      }
      trace := CloseTrace(route, stepIds.value, FailedStatus(route, summary, context), context);
    case CanceledAtDeclaredStep(stepId) =>
      var stepIds := StepsThrough(route.declaredStepIds, stepId);
      if stepIds.None? {
        return Failure(UndeclaredStep), calls;
      }
      trace := CloseTrace(route, stepIds.value, CanceledStatus(route, stepId, context), context);
    case DependencyUnavailable(summary) =>
      if !IsBoundedSummary(summary) {
        return Failure(UnboundedDetail), calls;
      }
      trace := CloseTrace(route, [], UnavailableStatus(route, summary, context), context);
    case Unsupported(summary) =>
      if !IsBoundedSummary(summary) {
        return Failure(UnboundedDetail), calls;
      }
      trace := Failure(UnsupportedAdapterCondition);
  }

  // ---- Whole-route delivery stays inside the plan ------------------------------------------

  /** The step a reply says delivery reached, if it names one. */
  function ReportedStep(reply: AdapterDeliveryResult): Option<string> {
    match reply
    case CompletedWithDeclaredFallback(_, fallbackStepId, _) => Some(fallbackStepId)
    case FailedAtDeclaredStep(stepId, _) => Some(stepId)
    case CanceledAtDeclaredStep(stepId) => Some(stepId)
    case _ => None
  }

  lemma AnnouncementsSnoc(route: SelectedExecutionRoute, stepIds: seq<string>, context: RunContext)
    requires stepIds != []
    ensures Announcements(route, stepIds, context) ==
            Announcements(route, stepIds[..|stepIds| - 1], context) +
            [InProgressStatus(route, stepIds[|stepIds| - 1], context)]
  {
  }

  lemma {:induction false} StartedAnnouncements(route: SelectedExecutionRoute, stepIds: seq<string>,
                                                context: RunContext)
    ensures StartedSteps([AdmittedStatus(route, context)] + Announcements(route, stepIds, context)) == stepIds
  {
    var head, n := [AdmittedStatus(route, context)], |stepIds| - 1;
    if stepIds == [] {
      assert head + Announcements(route, stepIds, context) == head && head[..0] == [] && StartedSteps([]) == [];
    } else {
      AnnouncementsSnoc(route, stepIds, context);
      StartedAnnouncements(route, stepIds[..n], context);
      var before, last := head + Announcements(route, stepIds[..n], context),
          InProgressStatus(route, stepIds[n], context);
      assert head + Announcements(route, stepIds, context) == before + [last];
      StartedStepsAppend(before, last);
    }
  }

  lemma AssembledTraceGrammar(route: SelectedExecutionRoute, stepIds: seq<string>, closing: ExecutionStatus,
                              context: RunContext)
    requires Assemble(route, stepIds, closing, context).Success?
    requires SameSubject(closing, AdmittedStatus(route, context)) && closing.updatedAtUtc == context.completedAtUtc
    requires IsClosing(closing.state)
    ensures var trace := Assemble(route, stepIds, closing, context).value.statuses;
            && AdmittedTrace(trace, true) && trace[0] == AdmittedStatus(route, context)
            && StartedSteps(trace) == stepIds
            && trace[|trace| - 1] == closing
            && (context.Ordered() ==> TimesNeverDecrease(trace))
  {
    var announced := Announcements(route, stepIds, context);
    var statuses := [AdmittedStatus(route, context)] + announced;
    forall k | 1 <= k < |statuses| ensures IsAnnouncement(route, context, statuses[k]) {
      assert statuses[k] == announced[k - 1];
    }
    ClosedTraceShape(route, context, statuses, closing);
    StartedAnnouncements(route, stepIds, context);
    StartedStepsAppend(statuses, closing);
  }

  /** The closing status reports what the adapter replied. */
  predicate ReportsReply(reply: AdapterDeliveryResult, closing: ExecutionStatus) {
    match reply
    case DeliveredAllSteps => closing.state.Completed?
    case CompletedWithDeclaredFallback(_, _, subtype) =>
      closing.state.CompletedWithConstraints? && closing.degradedSubtype == Some(subtype)
    case FailedAtDeclaredStep(_, summary) => closing.state.Failed? && closing.failureSummary == Some(summary)
    case CanceledAtDeclaredStep(_) => closing.state.Canceled?
    case DependencyUnavailable(summary) => closing.state.Degraded? && closing.truthfulSummary == summary
    case Unsupported(_) => false
  }

  /** Every delivered trace starts exactly the declared prefix that ends at the reported step
      (all steps for a full completion, none when nothing could be delivered), and closes with
      what the adapter replied. */
  lemma WholeRouteStaysInsidePlan(route: SelectedExecutionRoute, registry: map<CapabilityId, AdapterId>,
                                  adapters: AdapterOracle, context: RunContext)
    requires DeliverWholeRoute(route, registry, adapters, context).trace.Success?
    ensures var run := DeliverWholeRoute(route, registry, adapters, context);
            var trace := run.trace.value.statuses;
            && AdmittedTrace(trace, true) && trace[0] == AdmittedStatus(route, context)
            && (context.Ordered() ==> TimesNeverDecrease(trace))
            && |run.calls| <= 1
            && StartedSteps(trace) <= route.declaredStepIds
            && (run.calls == [] ==> StartedSteps(trace) == [] && trace[|trace| - 1].state.Degraded?)
            && (|run.calls| == 1 ==>
                  var reply := adapters([], run.calls[0]);
                  && ReportsReply(reply, trace[|trace| - 1])
                  && match ReportedStep(reply)
                  case Some(target) => target in route.declaredStepIds &&
                                       StepsThrough(route.declaredStepIds, target) == Some(StartedSteps(trace))
                  case None => StartedSteps(trace) == if reply.DeliveredAllSteps? then route.declaredStepIds else [])
  {
    var adapterId := Lookup(registry, route.requestedCapabilityId);
    if adapterId.None? {
      AssembledTraceGrammar(route, [],
                            UnavailableStatus(route, MissingAdapterSummary(route.requestedCapabilityId), context),
                            context);
    } else {
      ReplyTraceGrammar(route, adapters([], RouteCall(route, adapterId.value)), context);
    }
  }

  lemma ReplyTraceGrammar(route: SelectedExecutionRoute, reply: AdapterDeliveryResult, context: RunContext)
    requires TraceOfReply(route, reply, context).Success?
    ensures var trace := TraceOfReply(route, reply, context).value.statuses;
            && AdmittedTrace(trace, true) && trace[0] == AdmittedStatus(route, context)
            && (context.Ordered() ==> TimesNeverDecrease(trace))
            && ReportsReply(reply, trace[|trace| - 1])
            && match ReportedStep(reply)
               case Some(target) => target in route.declaredStepIds &&
                                    StepsThrough(route.declaredStepIds, target) == Some(StartedSteps(trace))
               case None => StartedSteps(trace) == if reply.DeliveredAllSteps? then route.declaredStepIds else []
  {
    match reply
    case DeliveredAllSteps =>
      AssembledTraceGrammar(route, route.declaredStepIds, CompletedStatus(route, context), context);
    case CompletedWithDeclaredFallback(_, fallbackStepId, subtype) =>
      AssembledTraceGrammar(route, StepsThrough(route.declaredStepIds, fallbackStepId).value,
                            ConstrainedStatus(route, subtype, FALLBACK_COMPLETION_SUMMARY, context), context);
    case FailedAtDeclaredStep(stepId, summary) =>
      AssembledTraceGrammar(route, StepsThrough(route.declaredStepIds, stepId).value,
                            FailedStatus(route, summary, context),
                            context);
    case CanceledAtDeclaredStep(stepId) =>
      AssembledTraceGrammar(route, StepsThrough(route.declaredStepIds, stepId).value,
                            CanceledStatus(route, stepId, context),
                            context);
    case DependencyUnavailable(summary) =>
      AssembledTraceGrammar(route, [], UnavailableStatus(route, summary, context), context);
  }

  /** The reply names an undeclared step, an undeclared or unexplicit fallback, or nothing usable. */
  predicate ClaimsUndeclaredWork(route: SelectedExecutionRoute, reply: AdapterDeliveryResult) {
    || (ReportedStep(reply).Some? && ReportedStep(reply).value !in route.declaredStepIds)
    || (reply.CompletedWithDeclaredFallback? &&
        (reply.stepId !in route.declaredStepIds || !reply.degradedSubtype.IsExplicitFallback() ||
         FallbackReference(reply.stepId, reply.fallbackStepId) !in route.declaredFallbackReferences))
    || reply.Unsupported?
  }

  /** Delivery whose one call is answered so always ends in an error. */
  lemma UndeclaredWorkIsRefused(route: SelectedExecutionRoute, registry: map<CapabilityId, AdapterId>,
                                adapters: AdapterOracle, context: RunContext)
    requires DeliverWholeRoute(route, registry, adapters, context).calls != []
    requires ClaimsUndeclaredWork(route, adapters([], DeliverWholeRoute(route, registry, adapters, context).calls[0]))
    ensures DeliverWholeRoute(route, registry, adapters, context).trace.Failure?
  {
    var run := DeliverWholeRoute(route, registry, adapters, context);
    assert run.trace == TraceOfReply(route, adapters([], run.calls[0]), context);
  }

  /** Everything delivery is asked to announce can be announced, and a run can end. */
  predicate WellFormedRoute(route: SelectedExecutionRoute, context: RunContext) {
    && AdmittedStatus(route, context).Valid() && context.startedAtUtc <= context.completedAtUtc
    && forall id :: id in route.declaredStepIds ==> IsValidStepId(id)
  }

  /** A reply that carries text of its own keeps it within the summary bound. */
  predicate BoundedReply(reply: AdapterDeliveryResult) {
    match reply
    case FailedAtDeclaredStep(_, summary) => IsBoundedSummary(summary)
    case DependencyUnavailable(summary) => IsBoundedSummary(summary)
    case _ => true
  }

  lemma DeclaredStepsAnnounce(route: SelectedExecutionRoute, stepIds: seq<string>, closing: ExecutionStatus,
                              context: RunContext)
    requires WellFormedRoute(route, context) && stepIds <= route.declaredStepIds
    ensures Assemble(route, stepIds, closing, context).Success? <==> closing.Valid()
  {
    forall k | 0 <= k < |stepIds| ensures Announcements(route, stepIds, context)[k].Valid() {
      assert stepIds[k] in route.declaredStepIds;
      WellFormedStepAnnounces(route, stepIds[k], context);
    }
  }

  lemma TextlessClosingsAreValid(route: SelectedExecutionRoute, subtype: DegradedSubtype, context: RunContext)
    requires WellFormedRoute(route, context)
    ensures CompletedStatus(route, context).Valid()
    ensures subtype.IsExplicitFallback() ==>
              ConstrainedStatus(route, subtype, FALLBACK_COMPLETION_SUMMARY, context).Valid()
  {
  }

  lemma CancellationIsValid(route: SelectedExecutionRoute, stepId: string, context: RunContext)
    requires WellFormedRoute(route, context) && IsValidStepId(stepId)
    ensures CanceledStatus(route, stepId, context).Valid()
  {
    assert |CANCELLATION_PREFIX| == 48;
  }

  lemma WordedClosingsAreValid(route: SelectedExecutionRoute, summary: string, context: RunContext)
    requires WellFormedRoute(route, context)
    ensures FailedStatus(route, summary, context).Valid() <==> IsBoundedSummary(summary)
    ensures UnavailableStatus(route, summary, context).Valid() <==> IsBoundedSummary(summary)
  {
  }

  /** On a well-formed route a reply becomes a trace exactly when it stays within the plan and
      within the bound. */
  lemma ReplyIsAcceptedExactlyWhenDeclared(route: SelectedExecutionRoute, reply: AdapterDeliveryResult,
                                           context: RunContext)
    requires WellFormedRoute(route, context)
    ensures TraceOfReply(route, reply, context).Success? <==> !ClaimsUndeclaredWork(route, reply) && BoundedReply(reply)
  {
    match reply
    case DeliveredAllSteps =>
      TextlessClosingsAreValid(route, DegradedFallbackLimited, context);
      DeclaredStepsAnnounce(route, route.declaredStepIds, CompletedStatus(route, context), context);
    case CompletedWithDeclaredFallback(_, fallbackStepId, subtype) =>
      TextlessClosingsAreValid(route, subtype, context);
      AcceptedThrough(route, fallbackStepId, ConstrainedStatus(route, subtype, FALLBACK_COMPLETION_SUMMARY, context),
                      context);
    case FailedAtDeclaredStep(stepId, summary) =>
      WordedClosingsAreValid(route, summary, context);
      AcceptedThrough(route, stepId, FailedStatus(route, summary, context), context);
    case CanceledAtDeclaredStep(stepId) =>
      if stepId in route.declaredStepIds {
        CancellationIsValid(route, stepId, context);
      }
      AcceptedThrough(route, stepId, CanceledStatus(route, stepId, context), context);
    case DependencyUnavailable(summary) =>
      WordedClosingsAreValid(route, summary, context);
      DeclaredStepsAnnounce(route, [], UnavailableStatus(route, summary, context), context);
    case Unsupported(_) =>
  }

  lemma AcceptedThrough(route: SelectedExecutionRoute, stepId: string, closing: ExecutionStatus, context: RunContext)
    requires WellFormedRoute(route, context)
    ensures var stepIds := StepsThrough(route.declaredStepIds, stepId);
            && (stepIds.Some? <==> stepId in route.declaredStepIds)
            && (stepIds.Some? ==> (Assemble(route, stepIds.value, closing, context).Success? <==> closing.Valid()))
  {
    var stepIds := StepsThrough(route.declaredStepIds, stepId);
    if stepIds.Some? {
      DeclaredStepsAnnounce(route, stepIds.value, closing, context);
    }
  }

  /** Delivery of a well-formed route ends in a trace exactly when it had no adapter to call, or
      its one call was answered within the plan and within the bound. */
  lemma DeliverySucceedsExactlyWhenReplyIsDeclared(route: SelectedExecutionRoute,
                                                   registry: map<CapabilityId, AdapterId>, adapters: AdapterOracle,
                                                   context: RunContext)
    requires Deliverable(route) && WellFormedRoute(route, context)
    ensures var run := DeliverWholeRoute(route, registry, adapters, context);
            && (run.calls == [] <==> route.requestedCapabilityId !in registry)
            && (run.trace.Success? <==>
                  run.calls == [] ||
                  var reply := adapters([], run.calls[0]);
                  !ClaimsUndeclaredWork(route, reply) && BoundedReply(reply))
  {
    var adapterId := Lookup(registry, route.requestedCapabilityId);
    if adapterId.None? {
      var summary := MissingAdapterSummary(route.requestedCapabilityId);
      assert |MISSING_ADAPTER_PREFIX| == 46;
      WordedClosingsAreValid(route, summary, context);
      DeclaredStepsAnnounce(route, [], UnavailableStatus(route, summary, context), context);
    } else {
      ReplyIsAcceptedExactlyWhenDeclared(route, adapters([], RouteCall(route, adapterId.value)), context);
    }
  }

  lemma SelectedRouteDeclaresPlan(input: RoutingInput)
    requires input.validatedPlan.Some? && SelectRoute(input).Success? && input.decision.resolvedPosture.IsAdmitted()
    ensures SelectRoute(input).value.declaredStepIds == StepIds(input.validatedPlan.value.plan.steps)
    ensures SelectRoute(input).value.declaredFallbackReferences == input.validatedPlan.value.plan.fallbackReferences
  {
  }

  /** On a route selected for a validated plan, no step is started twice. */
  lemma SelectedRouteStartsNoStepTwice(input: RoutingInput, capabilities: CapabilityRegistry, digest: Digest,
                                       registry: map<CapabilityId, AdapterId>, adapters: AdapterOracle,
                                       context: RunContext)
    requires input.validatedPlan.Some? && IsValidatedPlan(input.validatedPlan.value, capabilities, digest)
    requires SelectRoute(input).Success? && input.decision.resolvedPosture.IsAdmitted()
    requires DeliverWholeRoute(SelectRoute(input).value, registry, adapters, context).trace.Success?
    ensures var trace := DeliverWholeRoute(SelectRoute(input).value, registry, adapters, context).trace.value.statuses;
            NoDuplicates(StartedSteps(trace)) && StartedSteps(trace) <= StepIds(input.validatedPlan.value.plan.steps)
  {
    ValidPlanIsSoundAndAcyclic(input.validatedPlan.value.plan, capabilities, digest, []);
    SelectedRouteDeclaresPlan(input);
    WholeRouteStaysInsidePlan(SelectRoute(input).value, registry, adapters, context);
    var trace := DeliverWholeRoute(SelectRoute(input).value, registry, adapters, context).trace.value.statuses;
    PrefixKeepsDistinct(StartedSteps(trace), SelectRoute(input).value.declaredStepIds);
  }

  lemma PrefixKeepsDistinct(prefix: seq<string>, whole: seq<string>)
    requires prefix <= whole && NoDuplicates(whole)
    ensures NoDuplicates(prefix)
  {
  }

  /** On a route selected for a validated plan, a fallback completion reports its primary step
      as started too, and before the fallback: fallbacks point forward. */
  lemma FallbackCompletionCoversPrimary(input: RoutingInput, capabilities: CapabilityRegistry, digest: Digest,
                                        stepId: string, fallbackStepId: string, subtype: DegradedSubtype,
                                        context: RunContext)
    requires input.validatedPlan.Some? && IsValidatedPlan(input.validatedPlan.value, capabilities, digest)
    requires SelectRoute(input).Success? && input.decision.resolvedPosture.IsAdmitted()
    requires TraceOfReply(SelectRoute(input).value, CompletedWithDeclaredFallback(stepId, fallbackStepId, subtype),
                          context).Success?
    ensures var route := SelectRoute(input).value;
            var started := StartedSteps(TraceOfReply(
              route, CompletedWithDeclaredFallback(stepId, fallbackStepId, subtype), context).value.statuses);
            && |started| > 1 && started[|started| - 1] == fallbackStepId
            && stepId in started[..|started| - 1]
            && NoDuplicates(started)
  {
    ValidPlanIsSoundAndAcyclic(input.validatedPlan.value.plan, capabilities, digest, []);
    SelectedRouteDeclaresPlan(input);
    ReplyCoversPrimary(SelectRoute(input).value, input.validatedPlan.value.plan, stepId, fallbackStepId, subtype,
                       context);
  }

  lemma ReplyCoversPrimary(route: SelectedExecutionRoute, plan: ExecutionPlan, stepId: string, fallbackStepId: string,
                           subtype: DegradedSubtype, context: RunContext)
    requires SoundPlan(plan) && route.declaredStepIds == StepIds(plan.steps)
    requires route.declaredFallbackReferences == plan.fallbackReferences
    requires TraceOfReply(route, CompletedWithDeclaredFallback(stepId, fallbackStepId, subtype), context).Success?
    ensures var started := StartedSteps(TraceOfReply(
              route, CompletedWithDeclaredFallback(stepId, fallbackStepId, subtype), context).value.statuses);
            && |started| > 1 && started[|started| - 1] == fallbackStepId
            && stepId in started[..|started| - 1]
            && NoDuplicates(started)
  {
    ReplyTraceGrammar(route, CompletedWithDeclaredFallback(stepId, fallbackStepId, subtype), context);
    PrefixCoversPrimary(plan, stepId, fallbackStepId);
  }

  lemma PrefixCoversPrimary(plan: ExecutionPlan, stepId: string, fallbackStepId: string)
    requires SoundPlan(plan) && FallbackReference(stepId, fallbackStepId) in plan.fallbackReferences
    requires StepsThrough(StepIds(plan.steps), fallbackStepId).Some?
    ensures var started := StepsThrough(StepIds(plan.steps), fallbackStepId).value;
            && |started| > 1 && started[|started| - 1] == fallbackStepId
            && stepId in started[..|started| - 1]
            && NoDuplicates(started)
  {
    FallbackIsLater(plan, FallbackReference(stepId, fallbackStepId));
    var ids := StepIds(plan.steps);
    var started := StepsThrough(ids, fallbackStepId).value;
    var n, k := |started| - 1, StepIndex(plan.steps, stepId);
    assert started[n] == ids[n];
    StepIndexIsUnique(plan.steps, n);
    assert started[..n][k] == ids[k] == stepId;
  }
}

/** Dispatch of an admitted Gnat run: every shard's event is recorded before the next shard. */
module GnatPipeline {
  import opened Wrappers
  import opened Orders
  import opened Text
  import opened Vocabulary
  import opened Forensics
  import opened GnatNegotiation

  /** What the envelope deliberately leaves out of a shard. */
  datatype GnatShardEnrichment = GnatShardEnrichment(
    sourcePathToken: string,
    mediaType: string,
    fingerprintByteCount: u64,
    maxBytes: u64,
    localPath: string)

  datatype GnatShardRequest = GnatShardRequest(runId: string, shard: GnatShard, enrichment: GnatShardEnrichment)

  /** A receipt, reduced to the one field this service reads. */
  datatype GnatReceipt = GnatReceipt(state: Option<string>)

  datatype GnatShardResult =
    | ShardRan(receipt: GnatReceipt)
    | ShardDidNotComplete(receipt: GnatReceipt)
    | ShardUnavailable(summary: string)

  /** The shard worker: a reply may depend on every shard delivered before. */
  type GnatShardOracle = (seq<GnatShardRequest>, GnatShardRequest) -> GnatShardResult

  datatype GnatSink = GnatSink(adapterId: string, replyTo: (seq<GnatEvent>, GnatEvent) -> ExportResult)

  datatype GnatFault = MissingEnrichment | InvalidGnatEvent | UnreadableReceipt | GnatExportRefused

  datatype GnatRecord = GnatRecord(event: GnatEvent, exportReference: Option<string>)

  datatype GnatRunOutcome =
    | RunDenied(denial: GnatDenial)
    | RunSerially(admission: GnatAdmission)
    | RunDispatched(admission: GnatAdmission, shardResults: seq<(string, GnatShardResult)>)

  datatype GnatRunResult = GnatRunResult(outcome: GnatRunOutcome, records: seq<GnatRecord>)

  // ---- Requests and events ---------------------------------------------------------------

  /** One request per declared shard, in declared order; a shard without enrichment is refused. */
  function BuildShardRequests(runId: string, shards: seq<GnatShard>, enrichments: map<string, GnatShardEnrichment>)
    : (r: Result<seq<GnatShardRequest>, GnatFault>)
    ensures r.Success? <==> forall shard :: shard in shards ==> shard.shardId in enrichments
    ensures r.Success? ==> |r.value| == |shards| && forall k :: 0 <= k < |shards| ==>
              shards[k].shardId in enrichments &&
              r.value[k] == GnatShardRequest(runId, shards[k], enrichments[shards[k].shardId])
  {
    if shards == [] then Success([])
    else if shards[0].shardId !in enrichments then Failure(MissingEnrichment)
    else
      var rest := BuildShardRequests(runId, shards[1..], enrichments);
      assert shards == [shards[0]] + shards[1..];
      if rest.Failure? then rest
      else Success([GnatShardRequest(runId, shards[0], enrichments[shards[0].shardId])] + rest.value)
  }

  function NegotiationEvent(envelope: GnatEnvelope, outcome: GnatNegotiationOutcome, summary: string, now: Timestamp)
    : GnatEvent
  {
    GnatEvent(envelope.correlationId, envelope.plan.runId, GnatDispatchNegotiated, outcome, None, None, None, None, now,
              BoundedGnatSummary(summary), true)
  }

  function ReceiptState(receipt: GnatReceipt): Result<GnatReceiptState, GnatFault> {
    if receipt.state == Some("complete") then Success(ReceiptComplete)
    else if receipt.state == Some("denied") then Success(ReceiptDenied)
    else if receipt.state == Some("stale") then Success(ReceiptStale)
    else if receipt.state == Some("failed") then Success(ReceiptFailed)
    else Failure(UnreadableReceipt)
  }

  function ShardSummary(request: GnatShardRequest, result: GnatShardResult): string {
    match result
    case ShardRan(_) => "Cortex Gnat shard " + request.shard.shardId + " completed."
    case ShardDidNotComplete(receipt) =>
      "Cortex Gnat shard " + request.shard.shardId + " did not complete (" +
      (if receipt.state.Some? then receipt.state.value else "unknown") + ")."
    case ShardUnavailable(summary) => summary
  }

  function ShardEvent(envelope: GnatEnvelope, request: GnatShardRequest, result: GnatShardResult, now: Timestamp)
    : Result<GnatEvent, GnatFault>
  {
    var outcome := match result
      case ShardRan(_) => ShardCompleted
      case ShardDidNotComplete(_) => ShardNotCompleted
      case ShardUnavailable(_) => ShardDispatchUnavailable;
    var receipt: Option<GnatReceiptState> :-
      if result.ShardUnavailable? then Success(None)
      else (match ReceiptState(result.receipt)
            case Success(state) => Success(Some(state))
            case Failure(fault) => Failure(fault));
    var event := GnatEvent(envelope.correlationId, envelope.plan.runId, GnatShardDispatched, OutcomeReady,
                           Some(request.shard.shardId), Some(request.shard.workerType), Some(outcome), receipt, now,
                           BoundedGnatSummary(ShardSummary(request, result)), true);
    if event.Valid() then Success(event) else Failure(InvalidGnatEvent)
  }

  /** A negotiation event can be built exactly when the run id is bounded; so can a shard event
      whose receipt, if any, reports a known state. */
  lemma EventsBuildExactlyWhenRunIdIsBounded(envelope: GnatEnvelope, request: GnatShardRequest, result: GnatShardResult,
                                             outcome: GnatNegotiationOutcome, summary: string, now: Timestamp)
    ensures NegotiationEvent(envelope, outcome, summary, now).Valid() <==> 0 < |envelope.plan.runId| <= 120
    ensures ShardEvent(envelope, request, result, now).Success? <==>
            0 < |envelope.plan.runId| <= 120 &&
            (result.ShardUnavailable? || (result.receipt.state.Some? &&
                                          result.receipt.state.value in ["complete", "denied", "stale", "failed"]))
  {
    BoundedSummaryAlwaysFits(summary);
    BoundedSummaryAlwaysFits(ShardSummary(request, result));
  }

  // ---- The protocol ----------------------------------------------------------------------

  /** The inputs of one run; `wording` words the negotiation's answer for the operator. */
  datatype GnatJob = GnatJob(
    envelope: GnatEnvelope,
    capabilities: GnatFaLocalCapabilityState,
    requests: seq<GnatShardRequest>,
    worker: GnatShardOracle,
    wording: Result<GnatAdmission, GnatDenial> -> string,
    now: Timestamp)
  {
    function Negotiated(): Result<GnatAdmission, GnatDenial> {
      Negotiate(envelope, capabilities)
    }

    predicate Dispatchable() {
      Negotiated().Success? && Negotiated().value.state.ReadyForFaLocalDispatch?
    }

    function NegotiationEntry(): GnatEvent {
      var outcome := match Negotiated()
        case Failure(_) => OutcomeDenied
        case Success(admission) => if admission.state.ReadyForFaLocalDispatch? then OutcomeReady
          else OutcomeSerialFallback;
      NegotiationEvent(envelope, outcome, wording(Negotiated()), now)
    }

    /** The worker's answer to the shard declared at `k`, after every earlier shard. */
    function ResultOf(k: nat): GnatShardResult
      requires k < |requests|
    {
      worker(requests[..k], requests[k])
    }
  }

  /** What the outside world saw of a run, latest step outermost. */
  datatype ProtocolLog =
    | Untouched
    | Recorded(before: ProtocolLog, event: GnatEvent)
    | Delivered(before: ProtocolLog, request: GnatShardRequest)

  function Deliveries(log: ProtocolLog): seq<GnatShardRequest> {
    match log
    case Untouched => []
    case Recorded(before, _) => Deliveries(before)
    case Delivered(before, request) => Deliveries(before) + [request]
  }

  function RecordedEvents(log: ProtocolLog): seq<GnatEvent> {
    match log
    case Untouched => []
    case Recorded(before, event) => RecordedEvents(before) + [event]
    case Delivered(before, _) => RecordedEvents(before)
  }

  /** What a run must show the outside world: the negotiation's event and, for each declared
      shard, its request and the event that records it, if one can be built. */
  datatype Protocol = Protocol(
    entry: GnatEvent,
    dispatchable: bool,
    requests: seq<GnatShardRequest>,
    events: seq<Result<GnatEvent, GnatFault>>)

  function EventAt(job: GnatJob, k: nat): Result<GnatEvent, GnatFault>
    requires k < |job.requests|
  {
    ShardEvent(job.envelope, job.requests[k], job.ResultOf(k), job.now)
  }

  function ProtocolOf(job: GnatJob): (p: Protocol)
    ensures p.requests == job.requests && |p.events| == |job.requests|
  {
    Protocol(job.NegotiationEntry(), job.Dispatchable(), job.requests,
             seq(|job.requests|, k requires 0 <= k < |job.requests| => EventAt(job, k)))
  }

  /** The protocol through its first `n` shards: the negotiation, then each shard delivered and
      recorded before the next one. */
  ghost predicate IsScript(p: Protocol, log: ProtocolLog, n: nat)
    decreases n
  {
    if n == 0 then log == Recorded(Untouched, p.entry)
    else
      && n <= |p.requests| && n <= |p.events| && p.dispatchable
      && log.Recorded? && p.events[n - 1] == Success(log.event)
      && log.before.Delivered? && log.before.request == p.requests[n - 1]
      && IsScript(p, log.before.before, n - 1)
  }

  /** A script cut off after delivering the shard declared at `n`, before its event. */
  ghost predicate IsCutOff(p: Protocol, log: ProtocolLog, n: nat) {
    && n < |p.requests| && p.dispatchable
    && log.Delivered? && log.request == p.requests[n]
    && IsScript(p, log.before, n)
  }

  /** Every log a run can leave behind, whether or not the run succeeds. */
  ghost predicate FollowsProtocol(p: Protocol, log: ProtocolLog) {
    log.Untouched? || (exists n: nat :: IsScript(p, log, n)) || (exists n: nat :: IsCutOff(p, log, n))
  }

  lemma {:induction false} ScriptCounts(p: Protocol, log: ProtocolLog, n: nat)
    requires IsScript(p, log, n)
    ensures n <= |p.requests| && Deliveries(log) == p.requests[..n]
    ensures |RecordedEvents(log)| == 1 + n && RecordedEvents(log)[0] == p.entry
  {
    if n > 0 {
      ScriptCounts(p, log.before.before, n - 1);
      assert p.requests[..n] == p.requests[..n - 1] + [p.requests[n - 1]];
    }
  }

  lemma {:induction false} ScriptRecords(p: Protocol, log: ProtocolLog, n: nat, k: nat)
    requires IsScript(p, log, n) && k < n
    ensures n <= |p.events| && |RecordedEvents(log)| == 1 + n
    ensures p.events[k] == Success(RecordedEvents(log)[1 + k])
  {
    ScriptCounts(p, log.before.before, n - 1);
    if k < n - 1 {
      ScriptRecords(p, log.before.before, n - 1, k);
    }
  }

  lemma CutOffCounts(p: Protocol, log: ProtocolLog, n: nat)
    requires IsCutOff(p, log, n)
    ensures Deliveries(log) == p.requests[..n + 1]
    ensures |RecordedEvents(log)| == 1 + n && RecordedEvents(log)[0] == p.entry
  {
    ScriptCounts(p, log.before, n);
    assert p.requests[..n + 1] == p.requests[..n] + [p.requests[n]];
  }

  /** Whatever the run came to: nothing is delivered unless the negotiation admitted the run,
      the delivered shards are a prefix of the declared ones, the negotiation's event is the
      first recorded, and deliveries exceed recorded shard events by at most one. */
  lemma DeliveriesAreRecordedBeforeTheNext(p: Protocol, log: ProtocolLog)
    requires FollowsProtocol(p, log)
    ensures Deliveries(log) <= p.requests
    ensures Deliveries(log) != [] ==> p.dispatchable
    ensures !log.Untouched? ==> RecordedEvents(log) != [] && RecordedEvents(log)[0] == p.entry
    ensures !log.Untouched? ==> |RecordedEvents(log)| - 1 <= |Deliveries(log)| <= |RecordedEvents(log)|
  {
    if !log.Untouched? {
      if n: nat :| IsScript(p, log, n) {
        ScriptCounts(p, log, n);
      } else {
        var n: nat :| IsCutOff(p, log, n);
        CutOffCounts(p, log, n);
      }
    }
  }

  /** The log as it stood at some earlier moment, or now. */
  predicate WasLog(earlier: ProtocolLog, log: ProtocolLog) {
    earlier == log || (!log.Untouched? && WasLog(earlier, log.before))
  }

  lemma ProtocolHeldOneStepEarlier(p: Protocol, log: ProtocolLog)
    requires FollowsProtocol(p, log) && !log.Untouched?
    ensures FollowsProtocol(p, log.before)
  {
    if n: nat :| IsScript(p, log, n) {
      assert n == 0 || IsCutOff(p, log.before, n - 1);
    } else {
      var n: nat :| IsCutOff(p, log, n);
      assert IsScript(p, log.before, n);
    }
  }

  /** The protocol holds at every moment of a run. So a shard is never delivered before the
      negotiation is recorded, nor while an earlier shard's event is outstanding. */
  lemma {:induction false} ProtocolHeldThroughout(p: Protocol, log: ProtocolLog, earlier: ProtocolLog)
    requires FollowsProtocol(p, log) && WasLog(earlier, log)
    ensures FollowsProtocol(p, earlier)
    ensures earlier.Delivered? ==> |RecordedEvents(earlier)| == |Deliveries(earlier)|
  {
    if earlier != log {
      ProtocolHeldOneStepEarlier(p, log);
      ProtocolHeldThroughout(p, log.before, earlier);
    } else if log.Delivered? {
      var n: nat :| IsCutOff(p, log, n);
      CutOffCounts(p, log, n);
    }
  }

  // ---- The service -----------------------------------------------------------------------

  /** The reply of a sink to one more event; without a sink every event is kept, in memory. */
  function Kept(sink: Option<GnatSink>, history: seq<GnatEvent>, event: GnatEvent): Result<Option<string>, GnatFault> {
    match sink
    case None => Success(None)
    case Some(to) =>
      match MapExportResult(to.adapterId, to.replyTo(history, event))
      case Success(reference) => Success(Some(reference))
      case Failure(_) => Failure(GnatExportRefused)
  }

  /** The worker and the optional event sink of one run, and what they have been given so far. */
  class GnatPorts {
    const worker: GnatShardOracle
    const sink: Option<GnatSink>
    var delivered: seq<GnatShardRequest>
    var exported: seq<GnatEvent>
    ghost var log: ProtocolLog

    constructor (worker: GnatShardOracle, sink: Option<GnatSink>)
      ensures this.worker == worker && this.sink == sink
      ensures delivered == [] && exported == [] && log == Untouched
    {
      this.worker, this.sink := worker, sink;
      delivered, exported, log := [], [], Untouched;
    }

    method DeliverShard(request: GnatShardRequest) returns (result: GnatShardResult)
      modifies this
      ensures result == worker(old(delivered), request)
      ensures delivered == old(delivered) + [request] && exported == old(exported)
      ensures log == Delivered(old(log), request)
    {
      result := worker(delivered, request);
      delivered, log := delivered + [request], Delivered(log, request);
    }

    /** Records an event, in memory alone or with a sink; a refused export is not recorded. */
    method Record(event: GnatEvent) returns (r: Result<GnatRecord, GnatFault>)
      modifies this
      ensures delivered == old(delivered)
      ensures exported == if sink.Some? then old(exported) + [event] else old(exported)
      ensures r == match Kept(sink, old(exported), event)
                   case Success(reference) => Success(GnatRecord(event, reference))
                   case Failure(fault) => Failure(fault)
      ensures log == if r.Success? then Recorded(old(log), event) else old(log)
    {
      var reference: Option<string> := None;
      if sink.Some? {
        var receipt := MapExportResult(sink.value.adapterId, sink.value.replyTo(exported, event));
        exported := exported + [event];
        if receipt.Failure? {
          return Failure(GnatExportRefused);
        }
        reference := Some(receipt.value);
      }
      log := Recorded(log, event);
      r := Success(GnatRecord(event, reference));
    }
  }

  function EventsOf(records: seq<GnatRecord>): (events: seq<GnatEvent>)
    ensures |events| == |records|
    ensures forall k :: 0 <= k < |records| ==> events[k] == records[k].event
  {
    if records == [] then [] else EventsOf(records[..|records| - 1]) + [records[|records| - 1].event]
  }

  lemma EventsOfAppend(records: seq<GnatRecord>, record: GnatRecord)
    ensures EventsOf(records + [record]) == EventsOf(records) + [record.event]
  {
    assert (records + [record])[..|records|] == records;
  }

  ghost predicate PairedResults(job: GnatJob, results: seq<(string, GnatShardResult)>, n: nat) {
    && |results| == n <= |job.requests|
    && forall k :: 0 <= k < n ==> results[k] == (job.requests[k].shard.shardId, job.ResultOf(k))
  }

  /** What a successful run returns: one negotiation record, and for a dispatched run one record
      and one result per declared shard, in declared order. */
  ghost predicate ReportsRun(job: GnatJob, r: GnatRunResult, log: ProtocolLog) {
    && EventsOf(r.records) == RecordedEvents(log)
    && match r.outcome
       case RunDenied(denial) => job.Negotiated() == Failure(denial) && IsScript(ProtocolOf(job), log, 0)
       case RunSerially(admission) =>
         job.Negotiated() == Success(admission) && !job.Dispatchable() && IsScript(ProtocolOf(job), log, 0)
       case RunDispatched(admission, results) =>
         && job.Negotiated() == Success(admission) && job.Dispatchable()
         && IsScript(ProtocolOf(job), log, |job.requests|)
         && PairedResults(job, results, |job.requests|)
  }

  /** The event the protocol owes next, if it owes one and can build it. */
  function Owed(job: GnatJob, log: ProtocolLog): Result<GnatEvent, Option<GnatFault>> {
    match log
    case Untouched => if job.NegotiationEntry().Valid() then Success(job.NegotiationEntry())
      else Failure(Some(InvalidGnatEvent))
    case Recorded(_, _) => Failure(None)
    case Delivered(before, _) =>
      if |Deliveries(before)| >= |job.requests| then Failure(None)
      else match EventAt(job, |Deliveries(before)|)
        case Success(event) => Success(event)
        case Failure(fault) => Failure(Some(fault))
  }

  /** The run stops here with this fault: the event it owes cannot be built, or is refused. */
  predicate StopsWith(job: GnatJob, sink: Option<GnatSink>, log: ProtocolLog, fault: GnatFault) {
    match Owed(job, log)
    case Failure(unbuildable) => unbuildable == Some(fault)
    case Success(event) => Kept(sink, RecordedEvents(log), event) == Failure(fault)
  }

  /** A run that has delivered and recorded exactly its first `n` shards. */
  ghost predicate IsDispatched(p: Protocol, delivered: seq<GnatShardRequest>, log: ProtocolLog,
                               records: seq<GnatRecord>, n: nat)
  {
    && n <= |p.requests| && delivered == p.requests[..n]
    && IsScript(p, log, n)
    && EventsOf(records) == RecordedEvents(log)
  }

  lemma ResultsExtend(job: GnatJob, results: seq<(string, GnatShardResult)>, n: nat)
    requires PairedResults(job, results, n) && n < |job.requests|
    ensures PairedResults(job, results + [(job.requests[n].shard.shardId, job.ResultOf(n))], n + 1)
  {
  }

  lemma ScriptExtends(p: Protocol, log: ProtocolLog, n: nat, event: GnatEvent)
    requires IsScript(p, log, n) && n < |p.requests| && n < |p.events| && p.dispatchable
    requires p.events[n] == Success(event)
    ensures IsScript(p, Recorded(Delivered(log, p.requests[n]), event), n + 1)
  {
  }

  /** A recorded shard extends the run by that shard. */
  lemma DispatchExtends(p: Protocol, delivered: seq<GnatShardRequest>, log: ProtocolLog, records: seq<GnatRecord>,
                        n: nat, record: GnatRecord)
    requires IsDispatched(p, delivered, log, records, n) && n < |p.requests| && n < |p.events| && p.dispatchable
    requires p.events[n] == Success(record.event)
    ensures IsDispatched(p, delivered + [p.requests[n]], Recorded(Delivered(log, p.requests[n]), record.event),
                         records + [record], n + 1)
  {
    ScriptExtends(p, log, n, record.event);
    EventsOfAppend(records, record);
    assert p.requests[..n + 1] == p.requests[..n] + [p.requests[n]];
  }

  /** Delivers an admitted run's shards, recording each before the next. */
  method DispatchShards(job: GnatJob, ports: GnatPorts, negotiation: GnatRecord)
    returns (r: Result<(seq<GnatRecord>, seq<(string, GnatShardResult)>), GnatFault>)
    requires job.Dispatchable() && ports.worker == job.worker
    requires IsDispatched(ProtocolOf(job), ports.delivered, ports.log, [negotiation], 0)
    requires ports.sink.Some? ==> ports.exported == RecordedEvents(ports.log)
    modifies ports
    ensures FollowsProtocol(ProtocolOf(job), ports.log)
    ensures r.Failure? ==> StopsWith(job, ports.sink, ports.log, r.error)
    ensures r.Success? ==> IsDispatched(ProtocolOf(job), ports.delivered, ports.log, r.value.0, |job.requests|) &&
                           PairedResults(job, r.value.1, |job.requests|)
  {
    var records: seq<GnatRecord>, results: seq<(string, GnatShardResult)> := [negotiation], [];
    for n := 0 to |job.requests|
      invariant IsDispatched(ProtocolOf(job), ports.delivered, ports.log, records, n) && PairedResults(job, results, n)
      invariant ports.sink.Some? ==> ports.exported == RecordedEvents(ports.log)
    {
      ghost var delivered, log := ports.delivered, ports.log;
      var request := job.requests[n];
      var result := ports.DeliverShard(request);
      assert IsCutOff(ProtocolOf(job), ports.log, n);
      ScriptCounts(ProtocolOf(job), log, n);
      var event := ShardEvent(job.envelope, request, result, job.now);
      if event.Failure? {
        return Failure(event.error);
      }
      var record := ports.Record(event.value);
      if record.Failure? {
        return Failure(record.error);
      }
      DispatchExtends(ProtocolOf(job), delivered, log, records, n, record.value);
      ResultsExtend(job, results, n);
      records := records + [record.value];
      results := results + [(request.shard.shardId, result)];
    }
    r := Success((records, results));
  }

  /** Runs a Gnat dispatch. Every exit, successful or not, leaves a log that follows the protocol;
      a missing enrichment leaves none. A run fails only at an event it owes and cannot build or
      export. */
  method RunGnatDispatch(envelope: GnatEnvelope, capabilities: GnatFaLocalCapabilityState,
                         enrichments: map<string, GnatShardEnrichment>, ports: GnatPorts,
                         wording: Result<GnatAdmission, GnatDenial> -> string, now: Timestamp)
    returns (r: Result<GnatRunResult, GnatFault>)
    requires ports.delivered == [] && ports.exported == [] && ports.log == Untouched
    modifies ports
    ensures var requests := BuildShardRequests(envelope.plan.runId, envelope.plan.shards, enrichments);
            if requests.Failure? then r == Failure(requests.error) && ports.log == Untouched
            else
              var job := GnatJob(envelope, capabilities, requests.value, ports.worker, wording, now);
              && FollowsProtocol(ProtocolOf(job), ports.log)
              && match r
                 case Success(result) => ReportsRun(job, result, ports.log)
                 case Failure(fault) => StopsWith(job, ports.sink, ports.log, fault)
  {
    var requests := BuildShardRequests(envelope.plan.runId, envelope.plan.shards, enrichments);
    if requests.Failure? {
      return Failure(requests.error);
    }
    var job := GnatJob(envelope, capabilities, requests.value, ports.worker, wording, now);
    var event := job.NegotiationEntry();
    if !event.Valid() {
      return Failure(InvalidGnatEvent);
    }
    var negotiation := ports.Record(event);
    if negotiation.Failure? {
      return Failure(negotiation.error);
    }
    assert IsScript(ProtocolOf(job), ports.log, 0);
    assert EventsOf([negotiation.value]) == [event];
    match job.Negotiated()
    case Failure(denial) =>
      r := Success(GnatRunResult(RunDenied(denial), [negotiation.value]));
    case Success(admission) =>
      if admission.state.SerialFallbackPermitted? {
        r := Success(GnatRunResult(RunSerially(admission), [negotiation.value]));
      } else {
        var dispatched := DispatchShards(job, ports, negotiation.value);
        if dispatched.Failure? {
          return Failure(dispatched.error);
        }
        r := Success(GnatRunResult(RunDispatched(admission, dispatched.value.1), dispatched.value.0));
      }
  }

  /** A dispatched run delivers every declared shard, in order, and each of its 1 + n records
      after the first names the shard its result is paired with. */
  lemma DispatchedRunPairsRecordsWithResults(job: GnatJob, r: GnatRunResult, log: ProtocolLog)
    requires ReportsRun(job, r, log) && r.outcome.RunDispatched?
    ensures Deliveries(log) == job.requests
    ensures |r.records| == 1 + |job.requests| && |r.outcome.shardResults| == |job.requests|
    ensures r.records[0].event == job.NegotiationEntry()
    ensures forall k :: 0 <= k < |job.requests| ==>
              r.records[1 + k].event.shardId == Some(r.outcome.shardResults[k].0)
  {
    ScriptCounts(ProtocolOf(job), log, |job.requests|);
    assert job.requests[..|job.requests|] == job.requests;
    forall k: nat | k < |job.requests| ensures r.records[1 + k].event.shardId == Some(r.outcome.shardResults[k].0) {
      ScriptRecords(ProtocolOf(job), log, |job.requests|, k);
      assert EventsOf(r.records)[1 + k] == r.records[1 + k].event;
    }
  }

  function ShardIds(shards: seq<GnatShard>): (ids: seq<string>)
    ensures |ids| == |shards|
    ensures forall k :: 0 <= k < |shards| ==> ids[k] == shards[k].shardId
  {
    seq(|shards|, k requires 0 <= k < |shards| => shards[k].shardId)
  }

  function DeliveredIds(log: ProtocolLog): (ids: seq<string>)
    ensures |ids| == |Deliveries(log)|
    ensures forall k :: 0 <= k < |ids| ==> ids[k] == Deliveries(log)[k].shard.shardId
  {
    var delivered := Deliveries(log);
    seq(|delivered|, k requires 0 <= k < |delivered| => delivered[k].shard.shardId)
  }

  /** The delivered ids are a prefix of the declared ones, so no id is delivered twice if none is
      declared twice; the surface check does not ask for that, and a dispatched run of a plan
      that repeats an id delivers it again. */
  lemma NoShardIsDeliveredTwiceExactlyWhenDeclaredOnce(job: GnatJob, log: ProtocolLog,
                                                       enrichments: map<string, GnatShardEnrichment>)
    requires BuildShardRequests(job.envelope.plan.runId, job.envelope.plan.shards, enrichments) == Success(job.requests)
    requires FollowsProtocol(ProtocolOf(job), log)
    ensures DeliveredIds(log) <= ShardIds(job.envelope.plan.shards)
    ensures NoDuplicates(ShardIds(job.envelope.plan.shards)) ==> NoDuplicates(DeliveredIds(log))
    ensures |Deliveries(log)| == |job.requests| ==>
              (NoDuplicates(DeliveredIds(log)) <==> NoDuplicates(ShardIds(job.envelope.plan.shards)))
  {
    DeliveriesAreRecordedBeforeTheNext(ProtocolOf(job), log);
    DeliveredIdsAreAPrefix(job.requests, job.envelope.plan.shards, log);
  }

  lemma DeliveredIdsAreAPrefix(requests: seq<GnatShardRequest>, shards: seq<GnatShard>, log: ProtocolLog)
    requires |requests| == |shards| && forall k :: 0 <= k < |shards| ==> requests[k].shard == shards[k]
    requires Deliveries(log) <= requests
    ensures DeliveredIds(log) == ShardIds(shards)[..|Deliveries(log)|]
    ensures |Deliveries(log)| == |requests| ==> DeliveredIds(log) == ShardIds(shards)
  {
    var n := |Deliveries(log)|;
    assert DeliveredIds(log) == ShardIds(shards)[..n];
    assert n == |shards| ==> ShardIds(shards)[..n] == ShardIds(shards);
  }

  // ---- A plan that declares one shard twice --------------------------------------------------

  function TwinDigest(): string {
    seq(64, i => '0')
  }

  function TwinShard(ordinal: u16): GnatShard {
    GnatShard("s", ordinal, MarkdownSyntax, "r", TwinDigest(), 1)
  }

  function TwinEnvelope(correlationId: CorrelationId): GnatEnvelope {
    GnatEnvelope(
      "GnatDispatchEnvelope.v1", correlationId, "cortex",
      GnatPlan("GnatRunPlan.v1", "run", "syntax_extract", "gnat-worker-receipt.schema.json", 2,
               [TwinShard(0), TwinShard(1)], 1, 1, false),
      ["GnatDispatchEnvelope.v1"], [MarkdownSyntax], CancelRemainingShards, true, true, true, InfrastructureOnly)
  }

  function TwinCapabilities(): GnatFaLocalCapabilityState {
    GnatFaLocalCapabilityState(Ready, ["GnatDispatchEnvelope.v1"], [MarkdownSyntax], 1, true)
  }

  function TwinRequests(): seq<GnatShardRequest> {
    var enrichment := GnatShardEnrichment("t", "text/markdown", 1, 1, "p");
    [GnatShardRequest("run", TwinShard(0), enrichment), GnatShardRequest("run", TwinShard(1), enrichment)]
  }

  /** The twins' run against a worker that is never available. */
  function TwinJob(correlationId: CorrelationId, now: Timestamp): GnatJob {
    GnatJob(TwinEnvelope(correlationId), TwinCapabilities(), TwinRequests(),
            (delivered: seq<GnatShardRequest>, request: GnatShardRequest) => ShardUnavailable("x"),
            (negotiated: Result<GnatAdmission, GnatDenial>) => "x", now)
  }

  lemma TwinsAreDispatchable(correlationId: CorrelationId, now: Timestamp)
    ensures TwinJob(correlationId, now).Dispatchable()
    ensures TwinJob(correlationId, now).NegotiationEntry().Valid()
    ensures forall k: nat :: k < 2 ==> EventAt(TwinJob(correlationId, now), k).Success?
  {
    var job := TwinJob(correlationId, now);
    var entry := BoundedGnatSummary("x");
    BoundedSummaryAlwaysFits("x");
    assert |"run"| == 3;
  }

  function TwinEvent(correlationId: CorrelationId, now: Timestamp, k: nat): GnatEvent
    requires k < 2
  {
    TwinsAreDispatchable(correlationId, now);
    EventAt(TwinJob(correlationId, now), k).value
  }

  function TwinLog(correlationId: CorrelationId, now: Timestamp): ProtocolLog {
    var requests := TwinRequests();
    var first := Recorded(Delivered(Recorded(Untouched, TwinJob(correlationId, now).NegotiationEntry()), requests[0]),
                          TwinEvent(correlationId, now, 0));
    Recorded(Delivered(first, requests[1]), TwinEvent(correlationId, now, 1))
  }

  /** An envelope the negotiation admits, with one shard id declared twice; its whole run
      follows the protocol and delivers that id twice. */
  lemma OneShardIdIsDeliveredTwice(correlationId: CorrelationId, now: Timestamp)
    ensures var job, log := TwinJob(correlationId, now), TwinLog(correlationId, now);
            && job.Dispatchable() && IsScript(ProtocolOf(job), log, 2)
            && DeliveredIds(log) == ["s", "s"]
  {
    var job, log := TwinJob(correlationId, now), TwinLog(correlationId, now);
    TwinsAreDispatchable(correlationId, now);
    TwinScript(correlationId, now);
    ScriptCounts(ProtocolOf(job), log, 2);
    assert Deliveries(log) == TwinRequests()[..2] == TwinRequests();
  }

  lemma TwinScript(correlationId: CorrelationId, now: Timestamp)
    ensures IsScript(ProtocolOf(TwinJob(correlationId, now)), TwinLog(correlationId, now), 2)
  {
    var job, p := TwinJob(correlationId, now), ProtocolOf(TwinJob(correlationId, now));
    TwinsAreDispatchable(correlationId, now);
    var start := Recorded(Untouched, job.NegotiationEntry());
    var first := Recorded(Delivered(start, job.requests[0]), TwinEvent(correlationId, now, 0));
    assert IsScript(p, start, 0);
    ScriptExtends(p, start, 0, TwinEvent(correlationId, now, 0));
    ScriptExtends(p, first, 1, TwinEvent(correlationId, now, 1));
  }
}

# Governed plan execution: a verified model

FA Local admits a request, validates the plan that comes with it, selects a route, delivers the
plan to external adapters, and records what happened. This project models that engine and proves
what it guarantees over every input, every adapter behaviour and every run, including runs that
end in an error after work was delivered. Two smaller cores stand beside it: the Gnat shard
pipeline, and the sealed corpus with the deterministic reconnaissance engine that reads it.

`dafny verify dfyconfig.toml` checks the whole project.

## How the model is built

- A `char` is one byte of UTF-8 text, so `|s|` is the byte length the contracts bound. Ids are
  their 36-byte text, timestamps are integers, and `u8` to `u64` are bounded integers.
- Adapters, shard workers and export sinks are arbitrary functions of everything they were asked
  before and of the call at hand. Nothing is assumed about what they answer.
- SHA-256 of a serialised value is an arbitrary function. Where a result needs it not to collide,
  the lemma asks that of the two values at hand and of nothing else.
- The file system is a map from path components to files, whose length and bytes are independent,
  as the source reads them in two calls.
- What the source computes by changing things step by step is a method or a class here
  (`PerStepCoordinator`, `AdapterRegistry`, `GnatPorts`, the in-place sort, the validator's loops,
  the corpus loop, the document loop); each is proved equal to a specification function or predicate, and the
  theorems are about those.
- Errors keep a tag and lose their wording. Text is modelled where its length or a keyword check
  decides acceptance.

Module by module: `PlanValidation` and `CanonicalPlans` are the validator and the plan hash;
`Admission` is trust, policy, capability and posture; `Routing` selects the route; `Delivery`,
`PerStepRun` and `Coordinator` are the per-step loop as a fold and as a class; `DeliveryLedger`,
`DeliveryTurns`, `DeliveryInvariants` and `RunGrowth` prove its invariant, and `DeliveryTheorems`,
`Aggregation`, `DeliveryTraces`, `Probes`, `RescueLimits` and `HashGate` state what follows;
`WholeRoute` and `Coordination` are the other two entry points; `ReservedWords`, `Forensics`,
`RecordedRuns` and `Pipeline` record and compose; `GnatNegotiation`, `GnatPipeline`,
`SealedCorpus`, `Reconnaissance` and `ReconnaissanceOrder` are the smaller cores. `Orders`,
`ArraySort`, `Text`, `Characters`, `Vocabulary`, `Plans`, `Status`, `Traces`, `WitnessPlans` and
`Wrappers` are shared ground.

## What turned out not to hold

- The plan hash does not fix execution by itself: it sorts the fallback references, while
  delivery takes the first match in declared order. `HashGate.OneHashTwoExecutions` gives two
  validated plans with one hash, different calls and different traces;
  `HashGate.HashGateFixesExecutionExactlyWhenChoicesAgree` gives the exact condition.
- A run in which every step completed can still end in an error: the list of rescues has to fit
  160 bytes (`RescueLimits.EveryStepCompletesAndTheRunFails`). A plan rules that out exactly when
  every set of steps with distinct rescuers outside the set has a list of at most 97 bytes
  (`RescueLimits.CompleteRunsCloseExactlyWhenRescueListsFit`); with one rescue, when the two ids
  have at most 93 bytes (`RescueLimits.RescuedRunClosesExactlyWhenIdsFit`).
- A step whose id contains a word such as `failed` or `semantic` can be started but not recorded
  (`Forensics.StartedButNotRecorded`); an id is recorded exactly when it contains none of them
  (`Forensics.StartedStepIsRecordedExactlyWhenIdIsFree`), and only such an id or the words of a
  reported failure can keep the trace of a per-step run from being recorded
  (`RecordedRuns.TraceSuitsExactlyWhenStartedIdsAreFree`).
- The operator's summary is bounded by counting characters and cutting bytes: it panics exactly
  when it has more than 160 characters and byte 157 continues one, and text of at most 160
  characters can keep more than 160 bytes (`Characters.BoundedSummaryReturnsExactlyWhen`). Only the
  words a loader says of an unread document reach that (`Admission.ResolveRouteDecision`), and a
  malformed requester envelope can bring about both (`Admission.MalformedEnvelopeCanPanic`).
- The Gnat envelope check counts shards and does not compare their ids, so a repeated id is
  delivered again (`GnatPipeline.OneShardIdIsDeliveredTwice`), in a full run exactly when the plan
  repeats one (`GnatPipeline.NoShardIsDeliveredTwiceExactlyWhenDeclaredOnce`).
- The corpus reader's duplicate check compares spellings, so `a/b` and `a//b` are one file read,
  counted and sealed twice (`SealedCorpus.OneFileUnderTwoSpellings`). An admitted corpus reads no
  file twice exactly when its paths differ in their plain spellings
  (`SealedCorpus.EachFileIsReadOnceExactlyWhenPlainPathsDiffer`).
- When two topology options share the chosen id, both assessments are marked selected, a blocked
  one included (`Reconnaissance.BlockedOptionIsMarkedSelected`); as many are marked as options
  declare the id (`Reconnaissance.OneAssessmentIsSelected`).
- Donors that share a capability id keep their declared order in the result
  (`ReconnaissanceOrder.DonorsSharingAnIdKeepTheirOrder`); when donors and options have ids of their
  own, no order inside a document shows but that of an option's deployables
  (`ReconnaissanceOrder.AnalysisForgetsListOrder`).
- The comment on the pipeline service promises a record for a plan that fails validation
  (`src/app/execution_pipeline_service.rs`, lines 95-100). The code records nothing there, and
  `Pipeline.RunPipeline` follows the code.

## Model

| member | source | states |
|---|---|---|
| PlanValidation.Validate | src/domain/execution/mod.rs:104-321 | accepts exactly when every structure, capability, step, budget, fallback and hash clause holds over unbounded integers; every denial is grounded in the plan and in the checks before it; the second unregistered-capability denial is unreachable |
| PlanValidation.CheckSteps | src/domain/execution/mod.rs:177-247 | the loop's index map is exactly the positions of the steps, its checked 64-bit sum is the true sum, and it denies exactly when a step clause or the 64-bit range fails |
| PlanValidation.CheckFallbacks | src/domain/execution/mod.rs:269-305 | denies exactly when some reference does not lead from a declared step to a strictly later one |
| PlanValidation.CheckReferencedCapabilities | src/domain/execution/mod.rs:139-175 | denies exactly when a referenced capability is unregistered, disabled, revoked or foreign; the `Disabled` revocation state alone is not denied |
| PlanValidation.ValidPlanIsSoundAndAcyclic | src/domain/execution/mod.rs:178-305 | an accepted plan has unique step ids and no cycle along its fallback references, whatever walk is taken |
| PlanValidation.FallbackWalkAdvances | src/domain/execution/mod.rs:269-305 | any walk along fallback references ends at a strictly later step than it began |
| CanonicalPlans.Sorted | src/domain/execution/mod.rs:324-350 | sorting a collection in place leaves a sorted permutation, and under these total orders there is only one, whatever the sorting algorithm |
| CanonicalPlans.CanonicalFormIsCompleteInvariant | src/domain/execution/mod.rs:323-373 | two plans share a canonical form exactly when steps, limits and policies are equal and capabilities, side effects and fallback references are equal as multisets |
| CanonicalPlans.HashIdentifiesLogicalPlan | src/domain/execution/mod.rs:323-373 | two plans have one hash exactly when they are the same logical plan, unless the digest collides on their two canonical forms |
| Orders.SortForgetsOrder | src/domain/execution/mod.rs:336-350 | two lists sort to the same list exactly when they are equal as multisets |
| Routing.RouteIsDeliverableIffExecutionAllowed | src/app/routing_service.rs:22-176 | routing succeeds for consistent decisions with their plan, and the route can be delivered exactly when the decision allows execution |
| Delivery.AdapterRegistry.Register | src/adapters/execution_delivery/registry.rs:22-35 | a second adapter for a capability is refused and changes nothing; otherwise exactly that capability gains its adapter |
| Coordinator.PerStepCoordinator.Deliver | src/app/execution_service.rs:1293-1344 | announcing and dispatching one step changes the fields exactly as the specification's attempt does, faults included |
| Coordinator.PerStepCoordinator.TakeTurnFor | src/app/execution_service.rs:395-453 | one pass of the loop changes the fields exactly as the specification's turn does |
| Coordinator.PerStepCoordinator.DeliverPlanPerStep | src/app/execution_service.rs:369-463 | whatever the adapters do, the fields end as the completed run and the result is that run's trace or its fault |
| RunGrowth.FaultIsFinal | src/app/execution_service.rs:395-463 | a faulted run makes no further call, announcement or record |
| RunGrowth.RecordIsFinal | src/app/execution_service.rs:395-453 | whatever the plan, a record of any run, faulted or not, was made in its own turn, which ended well, and later turns keep it |
| DeliveryTurns.ClassifyTurn | src/app/execution_service.rs:395-453 | every turn is a reuse, a skip, one own attempt, an own attempt and one fallback attempt, or a fault, with the exact calls and announcements of each |
| DeliveryTurns.ChosenFallbackIsLater | src/app/execution_service.rs:1351-1371 | the fallback that is tried is the first reference of its step, is declared strictly later and has no waiting result |
| DeliveryInvariants.EveryRunIsSafe | src/app/execution_service.rs:369-463 | the invariant of attempts, calls, waiting results, rescues and the stop flag holds after any number of turns, and a safe call log survives a fault |
| DeliveryTheorems.NoStepIsDeliveredTwice | src/app/execution_service.rs:395-453 | at every moment of every run of a validated plan, faulted or not, no step has been announced or dispatched twice, and the calls are the announced attempts that have an adapter, in order |
| DeliveryTheorems.OutcomesConservePlan | src/app/execution_service.rs:386-453 | the outcomes pair one to one with the declared steps in order, and the announced attempts are exactly the steps not skipped, each once |
| DeliveryTheorems.RescuesAreSound | src/app/execution_service.rs:417-438 | a rescue is by the step's first reference, strictly later, itself directly completed; no step rescues two; nothing is left waiting |
| DeliveryTheorems.CausesAreBeyondRescue | src/app/execution_service.rs:396-438 | a step left incomplete had no fallback, or one that failed or was already spent, or had itself been consumed as an earlier step's fallback |
| DeliveryTheorems.OutcomesAreTruthful | src/app/execution_service.rs:1293-1344 | every outcome any run has recorded, faulted or not, is the reply in its call log, or a missing adapter, or a rescue whose two replies are there; a skipped step is never announced |
| DeliveryTheorems.NothingIsDispatchedAfterTheFirstCause | src/app/execution_service.rs:404-450 | under cancel-remaining, once any run has recorded a step that stays incomplete, it never faults, nothing more is called or announced, and each later record is a result obtained before the stop or a skip |
| DeliveryTheorems.SkipsHaveAnEarlierCause | src/app/execution_service.rs:404-450 | in any run, skips occur only under cancel-remaining and behind a cause, and every other recorded step was attempted |
| Aggregation.AggregationReportsDeclaredState | src/app/execution_service.rs:856-950 | the final state is a function of the outcomes stated without counting |
| Aggregation.PartialSuccessNamesFirstIncomplete | src/app/execution_service.rs:889-930 | a partial success names the first incomplete step with its own detail and the true counts |
| Aggregation.CulpritIsNeverSkipped | src/app/execution_service.rs:404-452 | in a run, the step so named was attempted |
| Aggregation.DegradedMeansNothingWasAvailable | src/app/execution_service.rs:856-950 | a run ends degraded exactly when it attempted a step and every attempted step was unavailable |
| Aggregation.PartialSuccessBuildsExactlyWhenItFits | src/app/execution_service.rs:953-989 | a partial-success status is valid exactly when 24 + step id + detail stays within 160 bytes |
| Aggregation.MissingAdapterSummaryLength | src/app/execution_service.rs:1299-1306 | the missing-adapter detail always has 82 bytes |
| DeliveryTraces.DeliveredTraceGrammar | src/app/execution_service.rs:369-463 | every delivered trace is one admission, distinct declared steps in attempt order and one closing status, all valid, of one run and one posture, with times that never decrease |
| DeliveryTraces.RunClosesExactlyWhenTextFits | src/app/execution_service.rs:856-1051 | a run without fault ends in a trace exactly when its closing text fits; failed, canceled and degraded runs always do |
| DeliveryTraces.CanceledOrMissingCulpritCloses | src/app/execution_service.rs:889-989 | a partial success whose culprit was canceled or had no adapter always yields a valid final status |
| DeliveryTraces.SingleRescueFitsExactly | src/app/execution_service.rs:1029-1051 | one rescue fits exactly when its two step ids have at most 93 bytes together |
| RescueLimits.CompleteRunsAreTheRescueSets | src/app/execution_service.rs:395-453 | over every registry and adapter, what runs in which every step completes can record is exactly the record lists of the step sets whose first references name distinct steps outside the set |
| RescueLimits.CompleteRunsCloseExactlyWhenRescueListsFit | src/app/execution_service.rs:1029-1051 | every such run of a plan ends in a trace, over every registry and adapter, if and only if each list of rescues the plan admits has at most 97 bytes |
| RescueLimits.RescuedRunClosesExactlyWhenIdsFit | src/app/execution_service.rs:1029-1051 | when one step that has a fallback fails, every step of the plan completes, and the run ends in a trace exactly when the two ids have at most 93 bytes together |
| RescueLimits.EveryStepCompletesAndTheRunFails | src/app/execution_service.rs:1029-1051 | a validated plan with two 48-byte ids, and a run of it in which every step completes and which ends in an error |
| HashGate.HashGateFixesExecution | src/app/execution_service.rs:378-463 | two validated plans behind one id-and-hash gate, no step with two different fallbacks, make the same calls and end in the same trace against every adapter |
| HashGate.HashGateFixesExecutionExactlyWhenChoicesAgree | src/app/execution_service.rs:1356-1360 | plans behind one gate make the same adapter calls against every registry and adapter if and only if they try the same fallback first for every step, and so for the traces they end in whenever started precedes completed |
| HashGate.OneHashTwoExecutions | src/domain/execution/mod.rs:346-350 | two concrete validated plans with one hash that make different calls and deliver different traces |
| WholeRoute.DeliverRoute | src/app/execution_service.rs:465-576 | the trace and the calls are those of the specification, for every reply |
| WholeRoute.WholeRouteStaysInsidePlan | src/app/execution_service.rs:465-576 | the started steps are exactly the declared prefix that ends at the reported step, behind at most one call, and the closing status reports what the adapter replied |
| WholeRoute.SelectedRouteStartsNoStepTwice | src/app/execution_service.rs:465-576 | on a validated plan's route the started steps are a duplicate-free prefix of the plan |
| WholeRoute.UndeclaredWorkIsRefused | src/app/execution_service.rs:1480-1535 | delivery whose own call is answered with an undeclared step, or an undeclared or unexplicit fallback, always ends in an error |
| WholeRoute.DeliverySucceedsExactlyWhenReplyIsDeclared | src/app/execution_service.rs:465-576 | on a deliverable route with a valid admission, ordered times and well-formed step ids, delivery ends in a trace exactly when no adapter is registered or the reply stays within the plan and carries bounded text |
| WholeRoute.FallbackCompletionCoversPrimary | src/app/execution_service.rs:1501-1535 | on a validated plan's route, a fallback completion reports its primary step as started, before the fallback |
| Coordination.Coordinate | src/app/execution_service.rs:157-285 | the growing status list ends as the specified trace or fault |
| Coordination.CoordinatedTraceGrammar | src/app/execution_service.rs:191-285 | an admitted trace runs through the duplicate-free declared prefix its directive names, and is closed exactly when the directive closes the plan, in the state it asks for |
| Coordination.StandstillReportsItsPosture | src/app/execution_service.rs:157-189 | without an admitted posture the trace is one pre-execution status of that posture, with no plan link and no step |
| Admission.EvaluateTrust | src/domain/requester_trust/mod.rs:107-158 | trust holds exactly when class, environment, time window, nonce and expiry all do |
| Admission.TrustIsDeniedForFirstFault | src/domain/requester_trust/mod.rs:107-158 | the denial is that of the first check that fails, in the order the source makes them |
| Admission.AdmitExecutionRequest | src/domain/capabilities/mod.rs:93-219 | a capability is admitted exactly when its record and its policy rule admit the requester, the side effect and the environment |
| Admission.RequestIsRefusedForFirstFault | src/domain/capabilities/mod.rs:93-219 | the denial is that of the first of the eleven checks that fails |
| Admission.ValidateConsistency | src/domain/posture/mod.rs:223-344 | the denials are exactly the violated clauses |
| Admission.ViolationsAreListedInOrder | src/domain/posture/mod.rs:223-344 | the violated clauses are listed once each, in the order they are checked |
| Admission.MinPosture | src/domain/posture/mod.rs:136-146 | the posture is one of the factors and ranks below none of them |
| Admission.LoweringNeverRaises | src/domain/posture/mod.rs:136-146 | lowering any factor never raises the result |
| Admission.AdmittedExactlyWhenEveryFactorAdmits | src/domain/posture/mod.rs:428-443 | the result admits execution exactly when every factor ranks at least policy-preapproved |
| Admission.RuleLookupsCannotFail | src/domain/posture/mod.rs:125-134 | the capability rule and the approval rule are both found on every undenied input |
| Admission.DenialsAreTheGrounds | src/domain/posture/mod.rs:57-109 | the listed denials are exactly those of failed stages and violated clauses; there are none exactly when everything succeeded |
| Admission.Resolve | src/domain/posture/mod.rs:57-185 | denied exactly when some denial is listed, and otherwise the least factor, with flags that agree with the posture, under the operator's bounded summary; no resolution when bounding it panics |
| Admission.ResolveRouteDecision | src/app/decision_service.rs:28-67 | execution is allowed exactly when trust, policy, capability admission and every consistency clause succeed and all six factors rank at least policy-preapproved; there is no decision, or one with an unbounded summary, exactly when the words about an unread document make it so |
| Admission.FirstDenialIsTheLoaders | src/domain/posture/mod.rs:188-221 | the operator reads a loader's words exactly when an unread document is the first ground of denial |
| Characters.BoundedSummaryReturnsExactlyWhen | src/domain/posture/mod.rs:490-501 | bounding fails exactly when byte 157 of a text over 160 characters continues a character; shorter text is kept, longer text is cut to 160 bytes, and the byte bound holds exactly when the text kept it or has over 160 characters |
| Admission.MalformedEnvelopeCanPanic | src/domain/requester_trust/mod.rs:94-101 | one malformed envelope leaves no decision, another a decision whose summary has over 160 bytes |
| Forensics.ValidStatusIsWellLinked | src/domain/forensics/mod.rs:91-243 | every valid status of an admitted state yields an event that passes every check not about text |
| Forensics.StatusIsRecordedExactlyWhenTextSuits | src/app/forensic_service.rs:156-225 | such a status is recorded exactly when its text suits its state, and the event repeats its state, subtype, posture, plan link and summary |
| Forensics.DecisionIsRecordedExactlyWhenTextSuits | src/app/forensic_service.rs:156-225 | a decision under which nothing runs is recorded exactly when its own text allows it |
| Forensics.StartedStepIsRecordedExactlyWhenIdIsFree | src/app/forensic_service.rs:430-469 | a valid in-progress status is recorded exactly when its step id contains none of the fifteen reserved words; none occurs in the fixed text or straddles it |
| Forensics.StartedButNotRecorded | src/app/forensic_service.rs:430-469 | every admitted route can start the well-formed step `failed`, and that status is never recorded |
| Pipeline.RecordTrace | src/app/execution_pipeline_service.rs:218-228 | recording succeeds exactly when every text suits its status and the sink keeps every event; the records then mirror the statuses one for one in order; on either exit the events the sink has seen are stated |
| Pipeline.Record | src/app/forensic_service.rs:82-153 | a record is kept exactly when its event is valid and the sink, if any, returns a bounded receipt; what was exported is accounted for either way |
| Pipeline.RegisterAll | src/app/execution_pipeline_service.rs:186-197 | registration succeeds exactly when no capability is configured twice, and then holds the configured map |
| Pipeline.RegistryHoldsTheEntries | src/app/execution_pipeline_service.rs:186-197 | each configured adapter is found under its capability, and no other capability is |
| RecordedRuns.TraceSuitsExactlyWhenStartedIdsAreFree | src/app/forensic_service.rs:430-469 | the texts of a delivered per-step trace all suit their statuses exactly when every started id is free of reserved words and, in a failed run, the reported failure suits; no other closing text stands in the way |
| RecordedRuns.RouteTraceIsRecordableExactly | src/app/forensic_service.rs:430-469 | a delivered whole-route trace can be recorded exactly when every started id is free of reserved words and the text it failed or degraded with suits |
| Pipeline.DeliveredRunIsRecordedExactlyWhenIdsAreFree | src/app/execution_pipeline_service.rs:218-228 | without a sink, a run that delivered its trace, in either mode, succeeds exactly when every started id is free of reserved words and the text it failed or degraded with suits |
| Pipeline.RunPipeline | src/app/execution_pipeline_service.rs:105-236 | every exit is accounted for, sink included: a panic of the operator's summary, exactly when an unread document's words bring it about and then with nothing called or recorded; without permission one standstill record, exactly when its text suits and the sink keeps it, and no call; with a missing or denied plan nothing recorded and no call; otherwise the calls and trace of the selected mode, success exactly when the trace can be recorded, and records that mirror it |
| GnatNegotiation.AdmissionStaysWithinBounds | src/integrations/cortex/mod.rs:205-228 | an admitted dispatch uses exactly the required workers, all admitted and enough for every shard, at the highest concurrency within the three bounds, or one where a bound is zero |
| GnatNegotiation.NegotiationAdmitsExactlyWhen | src/integrations/cortex/mod.rs:193-310 | dispatch, serial fallback or denial, each exactly under its condition |
| Characters.TakeChars | src/app/gnat_dispatch_pipeline_service.rs:317-328 | the longest prefix of whole characters within a count |
| GnatNegotiation.BoundedSummaryAlwaysFits | src/app/gnat_dispatch_pipeline_service.rs:317-328 | bounded text always passes the event's summary check, keeps text that fits, and is cut between characters |
| GnatPipeline.BuildShardRequests | src/app/gnat_dispatch_pipeline_service.rs:187-209 | one request per declared shard in order, or a refusal exactly when some shard has no enrichment |
| GnatPipeline.EventsBuildExactlyWhenRunIdIsBounded | src/integrations/cortex/forensics.rs:130-186 | an event builds exactly when the run id has 1 to 120 bytes and any receipt reports a known state |
| GnatPipeline.RunGnatDispatch | src/app/gnat_dispatch_pipeline_service.rs:84-161 | every exit leaves a log that follows the protocol; a success reports exactly what the log shows, and a failure stops at an event that is owed and cannot be built or exported |
| GnatPipeline.DeliveriesAreRecordedBeforeTheNext | src/app/gnat_dispatch_pipeline_service.rs:84-161 | whatever the run came to, nothing is delivered unless the negotiation admitted it, deliveries are a prefix of the declared shards and exceed recorded shard events by at most one |
| GnatPipeline.ProtocolHeldThroughout | src/app/gnat_dispatch_pipeline_service.rs:134-151 | the same held at every earlier moment, and each delivery found every earlier event recorded |
| GnatPipeline.DispatchedRunPairsRecordsWithResults | src/app/gnat_dispatch_pipeline_service.rs:134-159 | a dispatched run delivers every shard and returns 1 + n records, each after the first naming the shard of its result |
| GnatPipeline.NoShardIsDeliveredTwiceExactlyWhenDeclaredOnce | src/integrations/cortex/mod.rs:273-277 | delivered ids are a prefix of the declared ones; a full run repeats an id exactly when the plan does |
| GnatPipeline.OneShardIdIsDeliveredTwice | src/integrations/cortex/mod.rs:273-277 | a concrete envelope that is admitted, declares one shard id twice, and whose whole run delivers it twice |
| SealedCorpus.ReadCandidateVisible | src/adapters/execution_delivery/sealed_corpus_read.rs:34-127 | the result is that of the specification, first fault included |
| SealedCorpus.ReadInOrder | src/adapters/execution_delivery/sealed_corpus_read.rs:58-118 | the loop over sorted members equals the specification's fold |
| SealedCorpus.CorpusIsAdmittedExactlyWhen | src/adapters/execution_delivery/sealed_corpus_read.rs:43-126 | admitted exactly when the manifest is, paths differ, every member is sound on its own and the exact sum fits the request; the receipt lists each member once, in path order, with that sum |
| SealedCorpus.ReceiptForgetsManifestOrder | src/adapters/execution_delivery/sealed_corpus_read.rs:58-126 | every ordering of one member list gives the same verdict and the same receipt |
| SealedCorpus.ByteCountNeverOverflows | src/adapters/execution_delivery/sealed_corpus_read.rs:81-83 | the overflow error is unreachable |
| SealedCorpus.AggregateRoundTrip | src/adapters/execution_delivery/sealed_corpus_read.rs:105-110 | the preimage decodes back to the member list, whole and in order, for paths and digests without NUL |
| SealedCorpus.AggregateFixesDocuments | src/adapters/execution_delivery/sealed_corpus_read.rs:105-126 | two admitted corpora with one aggregate digest hold the same documents and byte total, unless the digest collides on them |
| SealedCorpus.OneFileUnderTwoSpellings | src/adapters/execution_delivery/sealed_corpus_read.rs:66-72 | a manifest with `a/b` and `a//b` is admitted and counts the one file twice |
| SealedCorpus.EachFileIsReadOnceExactlyWhenPlainPathsDiffer | src/adapters/execution_delivery/sealed_corpus_read.rs:66-72 | an admitted corpus reads no file twice if and only if its paths still differ once their empty and `.` pieces are dropped |
| Reconnaissance.FillSlotExactly | src/domain/reuse_reconnaissance/mod.rs:505-512 | a document fills its slot exactly when it is readable and no earlier document is of its kind, and the slots then hold what all of them say |
| Reconnaissance.FillSlots | src/domain/reuse_reconnaissance/mod.rs:226-276 | the loop over the documents equals the specification's fold |
| Reconnaissance.AnalyzeCorpus | src/domain/reuse_reconnaissance/mod.rs:213-351 | the result is that of the specification, first fault included |
| Reconnaissance.SlotsLoadExactlyWhenKindsDiffer | src/domain/reuse_reconnaissance/mod.rs:231-286 | loading succeeds exactly when every document is readable and no two share a kind, and the slots then hold exactly what the documents say |
| Reconnaissance.AnalysisSucceedsExactlyWhenSupported | src/domain/reuse_reconnaissance/mod.rs:213-351 | analysis succeeds exactly when the authority is bounded, the corpus is the bound one, documents are readable and of distinct kinds, and four of them support an accepted result, which is then their sealed draft |
| Reconnaissance.AnalysisForgetsDocumentOrder | src/domain/reuse_reconnaissance/mod.rs:213-351 | every ordering of the documents gives the same verdict and, on success, the same result |
| ReconnaissanceOrder.SortedUniqueTellsMembers | src/domain/reuse_reconnaissance/mod.rs:514-520 | two lists have one sorted, duplicate-free form exactly when they have the same members |
| ReconnaissanceOrder.DecisionReadsSets | src/domain/reuse_reconnaissance/mod.rs:414-478 | a donor's decision reads its paths, modes, blockers and tests as sets |
| ReconnaissanceOrder.AnalysisForgetsListOrder | src/domain/reuse_reconnaissance/mod.rs:213-351 | reordering donors, options, constraints, prohibited effects, or the paths, modes, blockers and tests inside them gives the same result or the same fault, if donors and options have ids of their own |
| ReconnaissanceOrder.DonorsSharingAnIdKeepTheirOrder | src/domain/reuse_reconnaissance/mod.rs:290-295 | two donors with one id stay in declared order, whichever that is |
| Reconnaissance.DonorIsJudgedByPriority | src/domain/reuse_reconnaissance/mod.rs:414-478 | the mode is the highest-priority one allowed and not prohibited; rejected and qualified exactly when the evidence says so |
| Reconnaissance.LeastEligibleTopologyIsSelected | src/domain/reuse_reconnaissance/mod.rs:480-503 | the choice is the least eligible option by rank and id; selection fails exactly when none is eligible |
| Reconnaissance.OneAssessmentIsSelected | src/domain/reuse_reconnaissance/mod.rs:297-309 | as many assessments are marked selected as options declare the chosen id, so exactly one when ids are distinct |
| Reconnaissance.BlockedOptionIsMarkedSelected | src/domain/reuse_reconnaissance/mod.rs:297-309 | two options with one id, the second blocked, and both assessments marked selected |
| Reconnaissance.ResultKeepsEveryBlocker | src/domain/reuse_reconnaissance/mod.rs:311-321 | the blockers are those of the constraints and of every donor, each once in order; the blueprint proposes exactly the donors not rejected |
| Reconnaissance.FreezeFailsOnlyOnSchema | src/domain/reuse_reconnaissance/mod.rs:200-206 | the hash check inside freezing never fails |
| Reconnaissance.FrozenResultIsSealed | src/domain/reuse_reconnaissance/mod.rs:174-206 | a frozen result reads back, and other content under its hash needs a digest collision |
| Reconnaissance.InputFixesTheOutcome | src/domain/reuse_reconnaissance/mod.rs:219-224 | the bound aggregate digest fixes the corpus and so the outcome, wherever and in whatever order it was stored |

## Left out

- CanonicalPlans.Sorted: the standard library's own sorting algorithm is not modelled; an insertion sort on an array stands in for it, and the result is the one any stable or unstable sort gives.
- JSON schemas and deserialisation: inputs are typed values; the reconnaissance result schema, the manifest parser and the document parser are parameters.
- SHA-256 and serialisation internals: one arbitrary function each.
- Clocks and random ids: timestamps and decision ids are parameters; event ids do not occur.
- Error wording: tags only, except the denial texts an operator reads; what a loader says of a document it refuses is a parameter.
- Review packages, the review emitter, and their forensic records.
- The command line, the HTTP server, SQLite and JSONL exports, service status, friction payloads, and the concrete file-write, nmap and shard adapters.
- Whole-plan delivery by a caller-supplied adapter instead of the registry (`deliver_selected_route`): it shares the code that `WholeRoute` models.
- SealedCorpus.ReadCandidateVisible: a file does not change while one run reads it, and two component lists that reach one file through symbolic links count as two files.
- Reconnaissance.AnalyzeCorpus: constant fields of the result (schema version and the three denied powers) are not repeated in the model.

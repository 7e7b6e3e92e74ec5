/** The deterministic reuse-reconnaissance engine over a sealed corpus. */
module Reconnaissance {
  import opened Wrappers
  import opened Orders
  import opened Text
  import opened SealedCorpus

  datatype TargetRepositoryPosture = NewPrivateApplication | ExistingRepositoryRefactor

  datatype ReuseMode =
    | DirectDependency
    | Vendoring
    | BoundedExtraction
    | InterfaceReuse
    | TestVectorReuse
    | PatternReimplementation
    | ServiceConsumption
    | Hold
    | Reject

  datatype DonorDisposition = QualifiedCandidate | Held | Rejected

  datatype EvidenceClass = PinnedCiAndSourceReview | SourceReviewAndTests | SourceReviewOnly | Unproven

  datatype ReconnaissanceAuthority = ReconnaissanceAuthority(
    executionOwner: string,
    networkAllowed: bool,
    modelAllowed: bool,
    repositoryMutationAllowed: bool,
    hiddenOracleAllowed: bool)

  datatype ReconnaissanceInput = ReconnaissanceInput(
    runId: string,
    expectedCorpusAggregateSha256: string,
    targetApplication: string,
    targetRepositoryPosture: TargetRepositoryPosture,
    prohibitedEffects: seq<string>,
    authority: ReconnaissanceAuthority)

  datatype TargetAuthority = TargetAuthority(
    topologyOwner: string,
    operatorSurface: string,
    executionOwner: string,
    mutationOwner: string,
    finalDecisionOwner: string)

  datatype TargetBrief = TargetBrief(
    application: string,
    repositoryPosture: string,
    separateTrustActorsRequired: bool,
    authority: TargetAuthority)

  datatype DonorRecord = DonorRecord(
    capabilityId: string,
    sourceRepo: string,
    sourceCommit: string,
    sourcePaths: seq<string>,
    behaviorProven: bool,
    evidenceClass: EvidenceClass,
    allowedModes: seq<ReuseMode>,
    prohibitedModes: seq<ReuseMode>,
    blockers: seq<string>,
    preservedTests: seq<string>)

  datatype TopologyOption = TopologyOption(
    topologyId: string,
    repositoryPosture: string,
    supportsNewApplication: bool,
    separateTrustActors: bool,
    complexityRank: u32,
    deployables: seq<string>,
    hardBlockers: seq<string>)

  datatype Constraints = Constraints(criticalBlockers: seq<string>, verificationObligations: seq<string>)

  /** How a document's text reads: its kind, and whether its body is what the kind demands. */
  datatype ParsedDocument =
    | NotJson
    | WithoutKind
    | UnsupportedKind
    | BodyMismatch
    | ATargetBrief(target: TargetBrief)
    | DonorEvidence(donors: seq<DonorRecord>)
    | TopologyOptions(options: seq<TopologyOption>)
    | SomeConstraints(constraints: Constraints)
  {
    predicate Readable() {
      ATargetBrief? || DonorEvidence? || TopologyOptions? || SomeConstraints?
    }
  }

  type DocumentParser = string -> ParsedDocument

  datatype DonorDecision = DonorDecision(
    capabilityId: string,
    sourceRepo: string,
    sourceCommit: string,
    sourcePaths: seq<string>,
    evidenceClass: EvidenceClass,
    reuseMode: ReuseMode,
    disposition: DonorDisposition,
    blockers: seq<string>,
    preservedTests: seq<string>,
    rationale: string)

  datatype TopologyAssessment = TopologyAssessment(
    topologyId: string,
    repositoryPosture: string,
    hardBlockers: seq<string>,
    complexityRank: u32,
    selected: bool)

  datatype DraftBlueprint = DraftBlueprint(
    repositoryPosture: string,
    deployables: seq<string>,
    donorCapabilityIds: seq<string>,
    verificationObligations: seq<string>,
    prohibitedEffects: seq<string>)

  /** The result; the three denied powers of its authority boundary are constants. */
  datatype ReconnaissanceResult = ReconnaissanceResult(
    runId: string,
    corpusAggregateSha256: string,
    donorCandidates: seq<DonorDecision>,
    criticalBlockers: seq<string>,
    topologyAlternatives: seq<TopologyAssessment>,
    selectedTopology: string,
    authorityBoundary: TargetAuthority,
    draftBlueprint: DraftBlueprint,
    resultHash: string)

  datatype ReconnaissanceFault =
    | AuthorityRefused
    | AggregateMismatch
    | UnreadableDocument
    | DuplicateKind
    | MissingKind
    | TargetMismatch
    | NoEligibleTopology
    | SchemaRefused
    | HashMismatch

  /** What the engine takes from outside: the parser, the result digest and the result schema. */
  datatype ReconnaissancePorts = ReconnaissancePorts(
    parse: DocumentParser,
    digest: ReconnaissanceResult -> string,
    schemaAccepts: ReconnaissanceResult -> bool)

  // ---- Loading the documents ---------------------------------------------------------------

  datatype Slots = Slots(
    target: Option<TargetBrief>,
    donors: Option<seq<DonorRecord>>,
    topologies: Option<seq<TopologyOption>>,
    constraints: Option<Constraints>)
  {
    predicate Full() {
      target.Some? && donors.Some? && topologies.Some? && constraints.Some?
    }
  }

  const EMPTY_SLOTS := Slots(None, None, None, None)

  function FillSlot(slots: Slots, parsed: ParsedDocument): Result<Slots, ReconnaissanceFault> {
    match parsed
    case NotJson | WithoutKind | UnsupportedKind | BodyMismatch => Failure(UnreadableDocument)
    case ATargetBrief(t) => if slots.target.Some? then Failure(DuplicateKind) else Success(slots.(target := Some(t)))
    case DonorEvidence(d) => if slots.donors.Some? then Failure(DuplicateKind) else Success(slots.(donors := Some(d)))
    case TopologyOptions(o) =>
      if slots.topologies.Some? then Failure(DuplicateKind) else Success(slots.(topologies := Some(o)))
    case SomeConstraints(c) =>
      if slots.constraints.Some? then Failure(DuplicateKind) else Success(slots.(constraints := Some(c)))
  }

  function LoadSlots(parse: DocumentParser, documents: seq<CorpusDocument>): Result<Slots, ReconnaissanceFault> {
    if documents == [] then Success(EMPTY_SLOTS)
    else
      var slots :- LoadSlots(parse, documents[..|documents| - 1]);
      FillSlot(slots, parse(documents[|documents| - 1].content))
  }

  /** Sets a slot that must still be empty. */
  method SetOnce<T(0)>(slot: Option<T>, value: T) returns (r: Result<Option<T>, ReconnaissanceFault>)
    ensures r == if slot.Some? then Failure(DuplicateKind) else Success(Some(value))
  {
    if slot.Some? {
      return Failure(DuplicateKind);
    }
    r := Success(Some(value));
  }

  lemma {:induction false} FirstUnloadableIsFinal(parse: DocumentParser, documents: seq<CorpusDocument>, n: nat)
    requires n <= |documents|
    ensures var first := LoadSlots(parse, documents[..n]);
            first.Failure? ==> LoadSlots(parse, documents) == Failure(first.error)
    decreases |documents|
  {
    if n < |documents| {
      var front := documents[..|documents| - 1];
      assert front[..n] == documents[..n];
      FirstUnloadableIsFinal(parse, front, n);
    } else {
      assert documents[..n] == documents;
    }
  }

  method FillSlots(parse: DocumentParser, documents: seq<CorpusDocument>)
    returns (r: Result<Slots, ReconnaissanceFault>)
    ensures r == LoadSlots(parse, documents)
  {
    var target: Option<TargetBrief>, donors: Option<seq<DonorRecord>> := None, None;
    var topologies: Option<seq<TopologyOption>>, constraints: Option<Constraints> := None, None;
    for n := 0 to |documents|
      invariant LoadSlots(parse, documents[..n]) == Success(Slots(target, donors, topologies, constraints))
    {
      assert documents[..n + 1][..n] == documents[..n];
      FirstUnloadableIsFinal(parse, documents, n + 1);
      match parse(documents[n].content)
      case NotJson | WithoutKind | UnsupportedKind | BodyMismatch =>
        return Failure(UnreadableDocument);
      case ATargetBrief(value) =>
        target :- SetOnce(target, value);
      case DonorEvidence(value) =>
        donors :- SetOnce(donors, value);
      case TopologyOptions(value) =>
        topologies :- SetOnce(topologies, value);
      case SomeConstraints(value) =>
        constraints :- SetOnce(constraints, value);
    }
    assert documents[..|documents|] == documents;
    r := Success(Slots(target, donors, topologies, constraints));
  }

  // ---- Donors ------------------------------------------------------------------------------

  const REUSE_PRIORITY: seq<ReuseMode> :=
    [ServiceConsumption, InterfaceReuse, BoundedExtraction, TestVectorReuse, PatternReimplementation,
     DirectDependency, Vendoring]

  predicate Admits(donor: DonorRecord, mode: ReuseMode) {
    mode in donor.allowedModes && mode !in donor.prohibitedModes
  }

  function FirstAdmitted(donor: DonorRecord, modes: seq<ReuseMode>): ReuseMode {
    if modes == [] then Reject else if Admits(donor, modes[0]) then modes[0] else FirstAdmitted(donor, modes[1..])
  }

  function SelectReuseMode(donor: DonorRecord): ReuseMode {
    if !donor.behaviorProven then Reject else FirstAdmitted(donor, REUSE_PRIORITY)
  }

  function ReuseModeLabel(mode: ReuseMode): string {
    match mode
    case DirectDependency => "direct_dependency"
    case Vendoring => "vendoring"
    case BoundedExtraction => "bounded_extraction"
    case InterfaceReuse => "interface_reuse"
    case TestVectorReuse => "test_vector_reuse"
    case PatternReimplementation => "pattern_reimplementation"
    case ServiceConsumption => "service_consumption"
    case Hold => "hold"
    case Reject => "reject"
  }

  function Disposition(mode: ReuseMode, blockers: seq<string>): DonorDisposition {
    if mode == Reject then Rejected else if blockers == [] then QualifiedCandidate else Held
  }

  function Rationale(mode: ReuseMode, blockers: seq<string>): string {
    match Disposition(mode, blockers)
    case Rejected => "No admitted reuse mode remains after evidence and prohibition checks."
    case Held =>
      "Behavior is proven, but " + Decimal(|blockers|) + " blocker(s) require resolution before " +
      ReuseModeLabel(mode) + "."
    case QualifiedCandidate =>
      "Behavior is proven and " + ReuseModeLabel(mode) + " is the highest-priority compatible reuse mode."
  }

  function TextSortedUnique(values: seq<string>): (r: seq<string>)
    ensures forall x :: x in r <==> x in values
  {
    SortedUnique(values, LexAtMost)
  }

  function ClassifyDonor(donor: DonorRecord): DonorDecision {
    var mode := SelectReuseMode(donor);
    var blockers := TextSortedUnique(donor.blockers);
    DonorDecision(donor.capabilityId, donor.sourceRepo, donor.sourceCommit, TextSortedUnique(donor.sourcePaths),
                  donor.evidenceClass, mode, Disposition(mode, blockers), blockers,
                  TextSortedUnique(donor.preservedTests), Rationale(mode, blockers))
  }

  lemma {:induction false} FirstAdmittedIsFirst(donor: DonorRecord, modes: seq<ReuseMode>)
    requires Reject !in modes
    ensures var mode := FirstAdmitted(donor, modes);
            && (mode == Reject <==> forall other :: other in modes ==> !Admits(donor, other))
            && (mode != Reject ==> exists k :: 0 <= k < |modes| && modes[k] == mode && Admits(donor, mode) &&
                                               forall j :: 0 <= j < k ==> !Admits(donor, modes[j]))
  {
    if modes != [] && !Admits(donor, modes[0]) {
      FirstAdmittedIsFirst(donor, modes[1..]);
      var mode := FirstAdmitted(donor, modes);
      assert modes == [modes[0]] + modes[1..];
      if mode != Reject {
        var k :| 0 <= k < |modes[1..]| && modes[1..][k] == mode &&
          forall j :: 0 <= j < k ==> !Admits(donor, modes[1..][j]);
        assert modes[k + 1] == mode;
        forall j | 0 <= j < k + 1 ensures !Admits(donor, modes[j]) {
          assert j > 0 ==> modes[j] == modes[1..][j - 1];
        }
      }
    }
  }

  /** A donor's mode is the highest-priority one it admits; it is rejected exactly when its
      behaviour is unproven or it admits none of the seven. It qualifies exactly when it is not
      rejected and has no blocker. */
  lemma DonorIsJudgedByPriority(donor: DonorRecord)
    ensures var decision := ClassifyDonor(donor);
            && (decision.disposition.Rejected? <==>
                  !donor.behaviorProven || forall mode :: mode in REUSE_PRIORITY ==> !Admits(donor, mode))
            && (!decision.disposition.Rejected? ==>
                  exists k :: 0 <= k < |REUSE_PRIORITY| && REUSE_PRIORITY[k] == decision.reuseMode &&
                              Admits(donor, decision.reuseMode) &&
                              forall j :: 0 <= j < k ==> !Admits(donor, REUSE_PRIORITY[j]))
            && (decision.disposition.QualifiedCandidate? <==> !decision.disposition.Rejected? && donor.blockers == [])
  {
    FirstAdmittedIsFirst(donor, REUSE_PRIORITY);
    if donor.blockers != [] {
      assert donor.blockers[0] in TextSortedUnique(donor.blockers);
    }
    if TextSortedUnique(donor.blockers) != [] {
      assert TextSortedUnique(donor.blockers)[0] in donor.blockers;
    }
  }

  // ---- Topologies --------------------------------------------------------------------------

  predicate Eligible(target: TargetBrief, option: TopologyOption) {
    && option.hardBlockers == []
    && (target.repositoryPosture == "new_private_application" ==> option.supportsNewApplication)
    && (target.separateTrustActorsRequired ==> option.separateTrustActors)
  }

  function EligibleOptions(target: TargetBrief, options: seq<TopologyOption>): (r: seq<TopologyOption>)
    ensures forall option :: option in r <==> option in options && Eligible(target, option)
  {
    if options == [] then []
    else
      assert options == [options[0]] + options[1..];
      (if Eligible(target, options[0]) then [options[0]] else []) + EligibleOptions(target, options[1..])
  }

  predicate OptionAtMost(a: TopologyOption, b: TopologyOption) {
    a.complexityRank < b.complexityRank ||
      (a.complexityRank == b.complexityRank && LexAtMost(a.topologyId, b.topologyId))
  }

  function SelectTopology(target: TargetBrief, options: seq<TopologyOption>)
    : Result<TopologyOption, ReconnaissanceFault>
  {
    var eligible := SortBy(EligibleOptions(target, options), OptionAtMost);
    if eligible == [] then Failure(NoEligibleTopology) else Success(eligible[0])
  }

  lemma OptionOrderIsTotal()
    ensures Total(OptionAtMost) && Transitive(OptionAtMost)
  {
    LexAtMostIsTotalOrder();
    forall a, b ensures OptionAtMost(a, b) || OptionAtMost(b, a) {
      assert LexAtMost(a.topologyId, b.topologyId) || LexAtMost(b.topologyId, a.topologyId);
    }
    forall a, b, c | OptionAtMost(a, b) && OptionAtMost(b, c) ensures OptionAtMost(a, c) {
      if a.complexityRank == b.complexityRank == c.complexityRank {
        assert LexAtMost(a.topologyId, b.topologyId) && LexAtMost(b.topologyId, c.topologyId);
      }
    }
  }

  /** Selection fails exactly when no option is eligible; otherwise it takes the least eligible
      one by rank and then id. */
  lemma LeastEligibleTopologyIsSelected(target: TargetBrief, options: seq<TopologyOption>)
    ensures var r := SelectTopology(target, options);
            && (r.Failure? <==> forall option :: option in options ==> !Eligible(target, option))
            && (r.Success? ==>
                  && r.value in options && Eligible(target, r.value)
                  && forall option :: option in options && Eligible(target, option) ==> OptionAtMost(r.value, option))
  {
    var eligible := EligibleOptions(target, options);
    OptionOrderIsTotal();
    if eligible != [] {
      var i := SortPutsFirstLeastInFront(eligible, OptionAtMost);
      assert eligible[i] in eligible;
    }
    if option :| option in options && Eligible(target, option) {
      assert option in eligible;
    }
  }

  function Assess(option: TopologyOption, selectedId: string): TopologyAssessment {
    TopologyAssessment(option.topologyId, option.repositoryPosture, TextSortedUnique(option.hardBlockers),
                       option.complexityRank, option.topologyId == selectedId)
  }

  function AssessAll(options: seq<TopologyOption>, selectedId: string): (r: seq<TopologyAssessment>)
    ensures |r| == |options|
    ensures forall k :: 0 <= k < |options| ==> r[k] == Assess(options[k], selectedId)
  {
    seq(|options|, k requires 0 <= k < |options| => Assess(options[k], selectedId))
  }

  predicate AssessmentAtMost(a: TopologyAssessment, b: TopologyAssessment) {
    LexAtMost(a.topologyId, b.topologyId)
  }

  function SelectedWeight(assessment: TopologyAssessment): nat {
    if assessment.selected then 1 else 0
  }

  function TimesDeclared(options: seq<TopologyOption>, id: string): nat {
    if options == [] then 0
    else TimesDeclared(options[..|options| - 1], id) + (if options[|options| - 1].topologyId == id then 1 else 0)
  }

  lemma {:induction false} SelectionsCountDeclarations(options: seq<TopologyOption>, id: string)
    ensures Sum(AssessAll(options, id), SelectedWeight) == TimesDeclared(options, id)
  {
    if options != [] {
      var front := options[..|options| - 1];
      SelectionsCountDeclarations(front, id);
      assert AssessAll(options, id)[..|options| - 1] == AssessAll(front, id);
    }
  }

  lemma {:induction false} DistinctIdsAreDeclaredOnce(options: seq<TopologyOption>, id: string)
    requires forall i, j :: 0 <= i < j < |options| ==> options[i].topologyId != options[j].topologyId
    ensures TimesDeclared(options, id) == if exists option :: option in options && option.topologyId == id then 1 else 0
  {
    if options != [] {
      var front, last := options[..|options| - 1], options[|options| - 1];
      assert options == front + [last];
      DistinctIdsAreDeclaredOnce(front, id);
      if last.topologyId == id {
        forall option | option in front ensures option.topologyId != id {
          var i :| 0 <= i < |front| && front[i] == option;
          assert options[i] == option && options[|front|] == last;
        }
      }
    }
  }

  function TopologyAlternatives(options: seq<TopologyOption>, selectedId: string): seq<TopologyAssessment> {
    SortBy(AssessAll(options, selectedId), AssessmentAtMost)
  }

  /** As many assessments are marked selected as options declare the chosen id, so with distinct
      ids exactly one is. */
  lemma OneAssessmentIsSelected(target: TargetBrief, options: seq<TopologyOption>)
    requires SelectTopology(target, options).Success?
    ensures var id := SelectTopology(target, options).value.topologyId;
            var marked := Sum(TopologyAlternatives(options, id), SelectedWeight);
            && marked == TimesDeclared(options, id)
            && ((forall i, j :: 0 <= i < j < |options| ==> options[i].topologyId != options[j].topologyId) ==>
                marked == 1)
  {
    var id := SelectTopology(target, options).value.topologyId;
    SumForgetsOrder(TopologyAlternatives(options, id), AssessAll(options, id), SelectedWeight);
    SelectionsCountDeclarations(options, id);
    LeastEligibleTopologyIsSelected(target, options);
    if forall i, j :: 0 <= i < j < |options| ==> options[i].topologyId != options[j].topologyId {
      DistinctIdsAreDeclaredOnce(options, id);
    }
  }

  function SharedIdOption(hardBlockers: seq<string>): TopologyOption {
    TopologyOption("shared", "new_private_application", true, true, 0, ["service"], hardBlockers)
  }

  /** Two options may share the chosen id; the blocked one is then marked selected as well. */
  lemma BlockedOptionIsMarkedSelected(target: TargetBrief)
    ensures var eligible, blocked := SharedIdOption([]), SharedIdOption(["b"]);
            var options := [eligible, blocked];
            && !Eligible(target, blocked) && SelectTopology(target, options) == Success(eligible)
            && AssessAll(options, eligible.topologyId)[0].selected &&
               AssessAll(options, eligible.topologyId)[1].selected
            && Sum(TopologyAlternatives(options, eligible.topologyId), SelectedWeight) == 2
  {
    var eligible, blocked := SharedIdOption([]), SharedIdOption(["b"]);
    var options := [eligible, blocked];
    assert options[1..] == [blocked] && [blocked][1..] == [];
    assert EligibleOptions(target, [blocked]) == [];
    assert EligibleOptions(target, options) == [eligible];
    LeastEligibleTopologyIsSelected(target, options);
    OneAssessmentIsSelected(target, options);
    assert options[..1] == [eligible] && [eligible][..0] == [];
    assert TimesDeclared([eligible], "shared") == 1;
  }

  // ---- The engine --------------------------------------------------------------------------

  function PostureLabel(posture: TargetRepositoryPosture): string {
    match posture
    case NewPrivateApplication => "new_private_application"
    case ExistingRepositoryRefactor => "existing_repository_refactor"
  }

  predicate AuthorityIsBounded(input: ReconnaissanceInput) {
    && input.authority.executionOwner == "fa-local-operator"
    && !input.authority.networkAllowed
    && !input.authority.modelAllowed
    && !input.authority.repositoryMutationAllowed
    && !input.authority.hiddenOracleAllowed
  }

  predicate DonorAtMost(a: DonorDecision, b: DonorDecision) {
    LexAtMost(a.capabilityId, b.capabilityId)
  }

  function AllBlockers(donors: seq<DonorDecision>): (r: seq<string>)
    ensures forall x :: x in r <==> exists donor :: donor in donors && x in donor.blockers
  {
    if donors == [] then []
    else
      assert donors == [donors[0]] + donors[1..];
      donors[0].blockers + AllBlockers(donors[1..])
  }

  function ReusableIds(donors: seq<DonorDecision>): seq<string> {
    if donors == [] then []
    else (if donors[0].disposition != Rejected then [donors[0].capabilityId] else []) + ReusableIds(donors[1..])
  }

  /** The digest of a result covers everything but the digest itself. */
  function ComputeHash(ports: ReconnaissancePorts, result: ReconnaissanceResult): string {
    ports.digest(result.(resultHash := ""))
  }

  function Sealed(ports: ReconnaissancePorts, draft: ReconnaissanceResult): ReconnaissanceResult {
    draft.(resultHash := ComputeHash(ports, draft))
  }

  function VerifyHash(ports: ReconnaissancePorts, result: ReconnaissanceResult): Result<(), ReconnaissanceFault> {
    if result.resultHash != ComputeHash(ports, result) then Failure(HashMismatch) else Success(())
  }

  function Freeze(ports: ReconnaissancePorts, draft: ReconnaissanceResult)
    : Result<ReconnaissanceResult, ReconnaissanceFault>
  {
    var result := Sealed(ports, draft);
    if !ports.schemaAccepts(result) then Failure(SchemaRefused)
    else
      var _ :- VerifyHash(ports, result);
      Success(result)
  }

  /** What a reader of the stored result accepts. */
  function LoadResult(ports: ReconnaissancePorts, result: ReconnaissanceResult)
    : Result<ReconnaissanceResult, ReconnaissanceFault>
  {
    if !ports.schemaAccepts(result) then Failure(SchemaRefused)
    else
      var _ :- VerifyHash(ports, result);
      Success(result)
  }

  function Draft(input: ReconnaissanceInput, aggregate: string, target: TargetBrief, donors: seq<DonorRecord>,
                 options: seq<TopologyOption>, constraints: Constraints, selected: TopologyOption): ReconnaissanceResult
  {
    var candidates := SortBy(MapSeq(ClassifyDonor, donors), DonorAtMost);
    ReconnaissanceResult(
      input.runId, aggregate, candidates,
      TextSortedUnique(constraints.criticalBlockers + AllBlockers(candidates)),
      TopologyAlternatives(options, selected.topologyId), selected.topologyId, target.authority,
      DraftBlueprint(selected.repositoryPosture, selected.deployables, ReusableIds(candidates),
                     TextSortedUnique(constraints.verificationObligations), TextSortedUnique(input.prohibitedEffects)),
      "")
  }

  /** The draft that full slots lead to, if some topology is eligible. */
  function DraftSlots(input: ReconnaissanceInput, aggregate: string, slots: Slots)
    : Result<ReconnaissanceResult, ReconnaissanceFault>
    requires slots.Full()
  {
    var target := slots.target.value;
    var selected :- SelectTopology(target, slots.topologies.value);
    Success(Draft(input, aggregate, target, slots.donors.value, slots.topologies.value, slots.constraints.value,
                  selected))
  }

  function AnalyzeSlots(ports: ReconnaissancePorts, input: ReconnaissanceInput, aggregate: string, slots: Slots)
    : Result<ReconnaissanceResult, ReconnaissanceFault>
  {
    if !slots.Full() then Failure(MissingKind)
    else if slots.target.value.application != input.targetApplication ||
            slots.target.value.repositoryPosture != PostureLabel(input.targetRepositoryPosture)
    then Failure(TargetMismatch)
    else
      var draft :- DraftSlots(input, aggregate, slots);
      Freeze(ports, draft)
  }

  function Analyze(ports: ReconnaissancePorts, input: ReconnaissanceInput, aggregate: string,
                   documents: seq<CorpusDocument>)
    : Result<ReconnaissanceResult, ReconnaissanceFault>
  {
    if !AuthorityIsBounded(input) then Failure(AuthorityRefused)
    else if aggregate != input.expectedCorpusAggregateSha256 then Failure(AggregateMismatch)
    else
      var slots :- LoadSlots(ports.parse, documents);
      AnalyzeSlots(ports, input, aggregate, slots)
  }

  method AnalyzeCorpus(ports: ReconnaissancePorts, input: ReconnaissanceInput, aggregate: string,
                       documents: seq<CorpusDocument>)
    returns (r: Result<ReconnaissanceResult, ReconnaissanceFault>)
    ensures r == Analyze(ports, input, aggregate, documents)
  {
    if !AuthorityIsBounded(input) {
      return Failure(AuthorityRefused);
    }
    if aggregate != input.expectedCorpusAggregateSha256 {
      return Failure(AggregateMismatch);
    }
    var slots :- FillSlots(ports.parse, documents);
    r := AnalyzeSlots(ports, input, aggregate, slots);
  }

  // ---- The order of the documents does not matter ----------------------------------------------

  /** The kind a document takes a slot for; unreadable documents share none. */
  datatype DocumentKind =
    | TargetBriefKind
    | DonorEvidenceKind
    | TopologyOptionsKind
    | ConstraintsKind
    | NoKind(text: string)

  function KindOf(parse: DocumentParser, document: CorpusDocument): DocumentKind {
    match parse(document.content)
    case ATargetBrief(_) => TargetBriefKind
    case DonorEvidence(_) => DonorEvidenceKind
    case TopologyOptions(_) => TopologyOptionsKind
    case SomeConstraints(_) => ConstraintsKind
    case NotJson | WithoutKind | UnsupportedKind | BodyMismatch => NoKind(document.content)
  }

  ghost predicate AllReadable(parse: DocumentParser, documents: seq<CorpusDocument>) {
    forall document :: document in documents ==> parse(document.content).Readable()
  }

  ghost predicate DistinctKinds(parse: DocumentParser, documents: seq<CorpusDocument>) {
    forall i, j :: 0 <= i < j < |documents| ==> KindOf(parse, documents[i]) != KindOf(parse, documents[j])
  }

  /** A slot holds this reading. */
  predicate Holds(slots: Slots, parsed: ParsedDocument) {
    match parsed
    case ATargetBrief(t) => slots.target == Some(t)
    case DonorEvidence(d) => slots.donors == Some(d)
    case TopologyOptions(o) => slots.topologies == Some(o)
    case SomeConstraints(c) => slots.constraints == Some(c)
    case NotJson | WithoutKind | UnsupportedKind | BodyMismatch => false
  }

  predicate Occupied(slots: Slots, kind: DocumentKind) {
    match kind
    case TargetBriefKind => slots.target.Some?
    case DonorEvidenceKind => slots.donors.Some?
    case TopologyOptionsKind => slots.topologies.Some?
    case ConstraintsKind => slots.constraints.Some?
    case NoKind(_) => false
  }

  /** The slots hold exactly what some document reads as. */
  ghost predicate SlotsMirror(parse: DocumentParser, documents: seq<CorpusDocument>, slots: Slots) {
    && (forall parsed :: Holds(slots, parsed) <==>
          parsed.Readable() && exists document :: document in documents && parse(document.content) == parsed)
    && (forall kind: DocumentKind :: Occupied(slots, kind) <==>
          !kind.NoKind? && exists document :: document in documents && KindOf(parse, document) == kind)
  }

  lemma KindsDifferFromLast(parse: DocumentParser, front: seq<CorpusDocument>, last: CorpusDocument)
    ensures DistinctKinds(parse, front + [last]) <==>
            DistinctKinds(parse, front) &&
              forall document :: document in front ==> KindOf(parse, document) != KindOf(parse, last)
  {
    var all := front + [last];
    if DistinctKinds(parse, all) {
      forall i, j | 0 <= i < j < |front| ensures KindOf(parse, front[i]) != KindOf(parse, front[j]) {
        assert all[i] == front[i] && all[j] == front[j];
      }
      forall document | document in front ensures KindOf(parse, document) != KindOf(parse, last) {
        var i :| 0 <= i < |front| && front[i] == document;
        assert all[i] == document && all[|front|] == last;
      }
    }
  }

  lemma FillSlotExactly(parse: DocumentParser, front: seq<CorpusDocument>, slots: Slots, last: CorpusDocument)
    requires SlotsMirror(parse, front, slots)
    ensures var next := FillSlot(slots, parse(last.content));
            && (next.Success? <==> parse(last.content).Readable() &&
                                   forall document :: document in front ==>
                                     KindOf(parse, document) != KindOf(parse, last))
            && (next.Success? ==> SlotsMirror(parse, front + [last], next.value))
  {
    var next := FillSlot(slots, parse(last.content));
    var kind := KindOf(parse, last);
    assert next.Success? <==> parse(last.content).Readable() && !Occupied(slots, kind);
    assert parse(last.content).Readable() <==> !kind.NoKind?;
    if next.Success? {
      MirrorExtends(parse, front, slots, last, next.value);
    }
  }

  lemma MirrorExtends(parse: DocumentParser, front: seq<CorpusDocument>, slots: Slots, last: CorpusDocument,
                      next: Slots)
    requires SlotsMirror(parse, front, slots) && FillSlot(slots, parse(last.content)) == Success(next)
    ensures SlotsMirror(parse, front + [last], next)
  {
    var documents, reading := front + [last], parse(last.content);
    forall parsed: ParsedDocument
      ensures Holds(next, parsed) <==>
              parsed.Readable() && exists document :: document in documents && parse(document.content) == parsed
    {
      assert Holds(next, parsed) <==> Holds(slots, parsed) || parsed == reading;
      if document :| document in front && parse(document.content) == parsed {
        assert document in documents;
      }
      assert last in documents;
    }
    forall kind: DocumentKind
      ensures Occupied(next, kind) <==>
              !kind.NoKind? && exists document :: document in documents && KindOf(parse, document) == kind
    {
      assert Occupied(next, kind) <==> Occupied(slots, kind) || kind == KindOf(parse, last);
      if document :| document in front && KindOf(parse, document) == kind {
        assert document in documents;
      }
      assert last in documents;
    }
  }

  /** Loading succeeds exactly when every document is readable and no two are of one kind, and
      the slots then hold what the documents say, wherever each stood. */
  lemma {:induction false} SlotsLoadExactlyWhenKindsDiffer(parse: DocumentParser, documents: seq<CorpusDocument>)
    ensures var slots := LoadSlots(parse, documents);
            && (slots.Success? <==> AllReadable(parse, documents) && DistinctKinds(parse, documents))
            && (slots.Success? ==> SlotsMirror(parse, documents, slots.value))
  {
    if documents != [] {
      var front, last := documents[..|documents| - 1], documents[|documents| - 1];
      assert documents == front + [last];
      SlotsLoadExactlyWhenKindsDiffer(parse, front);
      KindsDifferFromLast(parse, front, last);
      var slots := LoadSlots(parse, front);
      if slots.Success? {
        FillSlotExactly(parse, front, slots.value, last);
      }
    }
  }

  lemma MirrorsAgree(parse: DocumentParser, a: seq<CorpusDocument>, b: seq<CorpusDocument>, x: Slots, y: Slots)
    requires SlotsMirror(parse, a, x) && SlotsMirror(parse, b, y)
    requires forall document :: document in a <==> document in b
    ensures x == y
  {
    assert forall kind: DocumentKind :: Occupied(x, kind) == Occupied(y, kind);
    assert forall parsed: ParsedDocument :: Holds(x, parsed) == Holds(y, parsed);
    assert Occupied(x, TargetBriefKind) == Occupied(y, TargetBriefKind);
    assert Occupied(x, DonorEvidenceKind) == Occupied(y, DonorEvidenceKind);
    assert Occupied(x, TopologyOptionsKind) == Occupied(y, TopologyOptionsKind);
    assert Occupied(x, ConstraintsKind) == Occupied(y, ConstraintsKind);
    if x.target.Some? {
      assert Holds(x, ATargetBrief(x.target.value));
      assert Holds(y, ATargetBrief(x.target.value));
    }
    if x.donors.Some? {
      assert Holds(x, DonorEvidence(x.donors.value));
      assert Holds(y, DonorEvidence(x.donors.value));
    }
    if x.topologies.Some? {
      assert Holds(x, TopologyOptions(x.topologies.value));
      assert Holds(y, TopologyOptions(x.topologies.value));
    }
    if x.constraints.Some? {
      assert Holds(x, SomeConstraints(x.constraints.value));
      assert Holds(y, SomeConstraints(x.constraints.value));
    }
  }

  lemma SlotsForgetOrder(parse: DocumentParser, a: seq<CorpusDocument>, b: seq<CorpusDocument>)
    requires multiset(a) == multiset(b)
    requires LoadSlots(parse, a).Success?
    ensures LoadSlots(parse, b) == LoadSlots(parse, a)
  {
    SlotsLoadExactlyWhenKindsDiffer(parse, a);
    SlotsLoadExactlyWhenKindsDiffer(parse, b);
    forall document ensures document in a <==> document in b {
      SameMembers(a, b, document);
    }
    var key := (document: CorpusDocument) => KindOf(parse, document);
    assert DistinctKeys(a, key);
    DistinctKeysForgetOrder(a, b, key);
    forall i, j | 0 <= i < j < |b| ensures KindOf(parse, b[i]) != KindOf(parse, b[j]) {
      assert key(b[i]) != key(b[j]);
    }
    MirrorsAgree(parse, a, b, LoadSlots(parse, a).value, LoadSlots(parse, b).value);
  }

  /** Every ordering of the documents gives the same verdict, and on success the same result. */
  lemma AnalysisForgetsDocumentOrder(ports: ReconnaissancePorts, input: ReconnaissanceInput, aggregate: string,
                                     a: seq<CorpusDocument>, b: seq<CorpusDocument>)
    requires multiset(a) == multiset(b)
    ensures var x, y := Analyze(ports, input, aggregate, a), Analyze(ports, input, aggregate, b);
            x.Success? == y.Success? && (x.Success? ==> x == y)
  {
    if LoadSlots(ports.parse, a).Success? {
      SlotsForgetOrder(ports.parse, a, b);
    } else if LoadSlots(ports.parse, b).Success? {
      SlotsForgetOrder(ports.parse, b, a);
    }
  }

  // ---- When an analysis succeeds ---------------------------------------------------------------

  /** Some document reads so. */
  ghost predicate Says(parse: DocumentParser, documents: seq<CorpusDocument>, parsed: ParsedDocument) {
    exists document :: document in documents && parse(document.content) == parsed
  }

  /** The four documents an analysis rests on: the brief is for this target, some topology is
      eligible for it, and the result schema accepts what follows. */
  ghost predicate Supports(ports: ReconnaissancePorts, input: ReconnaissanceInput, aggregate: string,
                           documents: seq<CorpusDocument>, slots: Slots)
  {
    && slots.Full()
    && Says(ports.parse, documents, ATargetBrief(slots.target.value))
    && Says(ports.parse, documents, DonorEvidence(slots.donors.value))
    && Says(ports.parse, documents, TopologyOptions(slots.topologies.value))
    && Says(ports.parse, documents, SomeConstraints(slots.constraints.value))
    && Fits(ports, input, aggregate, slots)
  }

  /** Everything but the schema: four documents, the target asked for, and an eligible topology. */
  ghost predicate Drafts(input: ReconnaissanceInput, slots: Slots) {
    && slots.Full()
    && slots.target.value.application == input.targetApplication
    && slots.target.value.repositoryPosture == PostureLabel(input.targetRepositoryPosture)
    && exists option :: option in slots.topologies.value && Eligible(slots.target.value, option)
  }

  ghost predicate Fits(ports: ReconnaissancePorts, input: ReconnaissanceInput, aggregate: string, slots: Slots) {
    Drafts(input, slots) && ports.schemaAccepts(Sealed(ports, DraftFor(input, aggregate, slots)))
  }

  ghost function DraftFor(input: ReconnaissanceInput, aggregate: string, slots: Slots): ReconnaissanceResult
    requires Drafts(input, slots)
  {
    LeastEligibleTopologyIsSelected(slots.target.value, slots.topologies.value);
    DraftSlots(input, aggregate, slots).value
  }

  /** An analysis succeeds exactly when its authority is bounded, the corpus is the bound one,
      every document is readable and of its own kind, and four of them support a result; the
      result is then the sealed draft of those four. */
  lemma AnalysisSucceedsExactlyWhenSupported(ports: ReconnaissancePorts, input: ReconnaissanceInput, aggregate: string,
                                             documents: seq<CorpusDocument>)
    ensures var r := Analyze(ports, input, aggregate, documents);
            && (r.Success? <==>
                  && AuthorityIsBounded(input) && aggregate == input.expectedCorpusAggregateSha256
                  && AllReadable(ports.parse, documents) && DistinctKinds(ports.parse, documents)
                  && exists slots :: Supports(ports, input, aggregate, documents, slots))
            && forall slots :: r.Success? && Supports(ports, input, aggregate, documents, slots) ==>
                 r.value == Sealed(ports, DraftFor(input, aggregate, slots))
  {
    SlotsLoadExactlyWhenKindsDiffer(ports.parse, documents);
    var loaded := LoadSlots(ports.parse, documents);
    if loaded.Success? {
      forall slots | Supports(ports, input, aggregate, documents, slots) ensures slots == loaded.value {
        SupportIsWhatWasLoaded(ports, input, aggregate, documents, slots, loaded.value);
      }
      SlotsSupportExactly(ports, input, aggregate, documents, loaded.value);
    }
  }

  lemma SupportIsWhatWasLoaded(ports: ReconnaissancePorts, input: ReconnaissanceInput, aggregate: string,
                               documents: seq<CorpusDocument>, slots: Slots, loaded: Slots)
    requires Supports(ports, input, aggregate, documents, slots) && SlotsMirror(ports.parse, documents, loaded)
    ensures slots == loaded
  {
    assert Holds(loaded, ATargetBrief(slots.target.value));
    assert Holds(loaded, DonorEvidence(slots.donors.value));
    assert Holds(loaded, TopologyOptions(slots.topologies.value));
    assert Holds(loaded, SomeConstraints(slots.constraints.value));
  }

  lemma FullSlotsAreSaid(parse: DocumentParser, documents: seq<CorpusDocument>, slots: Slots)
    requires SlotsMirror(parse, documents, slots)
    requires slots.Full()
    ensures Says(parse, documents, ATargetBrief(slots.target.value))
    ensures Says(parse, documents, DonorEvidence(slots.donors.value))
    ensures Says(parse, documents, TopologyOptions(slots.topologies.value))
    ensures Says(parse, documents, SomeConstraints(slots.constraints.value))
  {
    assert Holds(slots, ATargetBrief(slots.target.value));
    assert Holds(slots, DonorEvidence(slots.donors.value));
    assert Holds(slots, TopologyOptions(slots.topologies.value));
    assert Holds(slots, SomeConstraints(slots.constraints.value));
  }

  lemma FreezesExactlyWhenAccepted(ports: ReconnaissancePorts, draft: ReconnaissanceResult)
    ensures Freeze(ports, draft).Success? <==> ports.schemaAccepts(Sealed(ports, draft))
    ensures Freeze(ports, draft).Success? ==> Freeze(ports, draft).value == Sealed(ports, draft)
  {
    assert Sealed(ports, draft).(resultHash := "") == draft.(resultHash := "");
  }

  lemma DraftedSlotsAreFrozen(ports: ReconnaissancePorts, input: ReconnaissanceInput, aggregate: string, slots: Slots)
    requires Drafts(input, slots)
    ensures AnalyzeSlots(ports, input, aggregate, slots) == Freeze(ports, DraftFor(input, aggregate, slots))
  {
    LeastEligibleTopologyIsSelected(slots.target.value, slots.topologies.value);
  }

  lemma UndraftedSlotsFail(ports: ReconnaissancePorts, input: ReconnaissanceInput, aggregate: string, slots: Slots)
    requires !Drafts(input, slots)
    ensures AnalyzeSlots(ports, input, aggregate, slots).Failure?
  {
    if slots.target.Some? && slots.topologies.Some? {
      LeastEligibleTopologyIsSelected(slots.target.value, slots.topologies.value);
    }
  }

  lemma SlotsFitExactly(ports: ReconnaissancePorts, input: ReconnaissanceInput, aggregate: string, slots: Slots)
    ensures var r := AnalyzeSlots(ports, input, aggregate, slots);
            && (r.Success? <==> Fits(ports, input, aggregate, slots))
            && (r.Success? ==> r.value == Sealed(ports, DraftFor(input, aggregate, slots)))
  {
    if Drafts(input, slots) {
      DraftedSlotsAreFrozen(ports, input, aggregate, slots);
      FreezesExactlyWhenAccepted(ports, DraftFor(input, aggregate, slots));
    } else {
      UndraftedSlotsFail(ports, input, aggregate, slots);
    }
  }

  lemma SlotsSupportExactly(ports: ReconnaissancePorts, input: ReconnaissanceInput, aggregate: string,
                            documents: seq<CorpusDocument>, slots: Slots)
    requires SlotsMirror(ports.parse, documents, slots)
    ensures var r := AnalyzeSlots(ports, input, aggregate, slots);
            && (r.Success? <==> Supports(ports, input, aggregate, documents, slots))
            && (r.Success? ==> r.value == Sealed(ports, DraftFor(input, aggregate, slots)))
  {
    SlotsFitExactly(ports, input, aggregate, slots);
    if Fits(ports, input, aggregate, slots) {
      FullSlotsAreSaid(ports.parse, documents, slots);
    }
  }

  // ---- What a result says ----------------------------------------------------------------------

  /** A result reads back, and no other content can carry its digest without a collision. */
  lemma FrozenResultIsSealed(ports: ReconnaissancePorts, draft: ReconnaissanceResult, other: ReconnaissanceResult)
    requires Freeze(ports, draft).Success?
    ensures var result := Freeze(ports, draft).value;
            && LoadResult(ports, result) == Success(result)
            && result.(resultHash := draft.resultHash) == draft
            && (LoadResult(ports, other).Success? && other.resultHash == result.resultHash && other != result ==>
                  ports.digest(other.(resultHash := "")) == ports.digest(result.(resultHash := "")) &&
                  other.(resultHash := "") != result.(resultHash := ""))
  {
    var result := Freeze(ports, draft).value;
    if other.(resultHash := "") == result.(resultHash := "") && other.resultHash == result.resultHash {
      assert other == other.(resultHash := "").(resultHash := other.resultHash);
      assert result == result.(resultHash := "").(resultHash := result.resultHash);
    }
  }

  /** Freezing fails only on the schema: the digest it checks is the one it has just written. */
  lemma FreezeFailsOnlyOnSchema(ports: ReconnaissancePorts, draft: ReconnaissanceResult)
    ensures Freeze(ports, draft).Failure? ==> Freeze(ports, draft) == Failure(SchemaRefused)
  {
    var result := Sealed(ports, draft);
    assert result.(resultHash := "") == draft.(resultHash := "");
  }

  lemma {:induction false} ReusableIdsAreThoseNotRejected(donors: seq<DonorDecision>, id: string)
    ensures id in ReusableIds(donors) <==>
            exists donor :: donor in donors && donor.capabilityId == id && !donor.disposition.Rejected?
  {
    if donors != [] {
      ReusableIdsAreThoseNotRejected(donors[1..], id);
      assert donors == [donors[0]] + donors[1..];
    }
  }

  lemma MembersOfMap<T, U>(f: T -> U, s: seq<T>, y: U)
    ensures y in MapSeq(f, s) <==> exists x :: x in s && f(x) == y
  {
    if y in MapSeq(f, s) {
      var i :| 0 <= i < |s| && MapSeq(f, s)[i] == y;
      assert s[i] in s;
    }
    if x :| x in s && f(x) == y {
      var i :| 0 <= i < |s| && s[i] == x;
      assert MapSeq(f, s)[i] == y;
    }
  }

  lemma CandidatesAreTheDonors(donors: seq<DonorRecord>, decision: DonorDecision)
    ensures decision in SortBy(MapSeq(ClassifyDonor, donors), DonorAtMost) <==>
            exists donor :: donor in donors && ClassifyDonor(donor) == decision
  {
    SameMembers(SortBy(MapSeq(ClassifyDonor, donors), DonorAtMost), MapSeq(ClassifyDonor, donors), decision);
    MembersOfMap(ClassifyDonor, donors, decision);
  }

  /** A result carries every blocker of the constraints and of every donor, rejected ones
      included, and no other, each once, in order; its blueprint proposes exactly the donors that
      are not rejected. */
  lemma ResultKeepsEveryBlocker(input: ReconnaissanceInput, aggregate: string, target: TargetBrief,
                                donors: seq<DonorRecord>, options: seq<TopologyOption>, constraints: Constraints,
                                selected: TopologyOption)
    ensures var result := Draft(input, aggregate, target, donors, options, constraints, selected);
            && StrictlySortedBy(result.criticalBlockers, LexAtMost)
            && (forall x :: x in result.criticalBlockers <==>
                  x in constraints.criticalBlockers || exists donor :: donor in donors && x in donor.blockers)
            && (forall id :: id in result.draftBlueprint.donorCapabilityIds <==>
                  exists donor :: donor in donors && donor.capabilityId == id &&
                                  !ClassifyDonor(donor).disposition.Rejected?)
  {
    var candidates := SortBy(MapSeq(ClassifyDonor, donors), DonorAtMost);
    LexAtMostIsTotalOrder();
    SortedUniqueIsStrict(constraints.criticalBlockers + AllBlockers(candidates), LexAtMost);
    forall x ensures x in AllBlockers(candidates) <==> exists donor :: donor in donors && x in donor.blockers {
      if x in AllBlockers(candidates) {
        var decision :| decision in candidates && x in decision.blockers;
        CandidatesAreTheDonors(donors, decision);
      }
      if donor :| donor in donors && x in donor.blockers {
        CandidatesAreTheDonors(donors, ClassifyDonor(donor));
      }
    }
    forall id ensures id in ReusableIds(candidates) <==>
                      exists donor :: donor in donors && donor.capabilityId == id &&
                                      !ClassifyDonor(donor).disposition.Rejected?
    {
      ReusableIdsAreThoseNotRejected(candidates, id);
      if decision :| decision in candidates && decision.capabilityId == id && !decision.disposition.Rejected? {
        CandidatesAreTheDonors(donors, decision);
      }
      if donor :| donor in donors && donor.capabilityId == id && !ClassifyDonor(donor).disposition.Rejected? {
        CandidatesAreTheDonors(donors, ClassifyDonor(donor));
      }
    }
  }

  /** The input binds an aggregate digest, and that digest binds the corpus: two admitted corpora
      that both pass the binding lead to one outcome, wherever and in whatever order they were
      stored, unless the digest collides on them. */
  lemma InputFixesTheOutcome(ports: ReconnaissancePorts, input: ReconnaissanceInput,
                             world: CorpusWorld, other: CorpusWorld, max: u64, otherMax: u64,
                             a: SealedCorpusManifest, b: SealedCorpusManifest)
    requires world.sha256 == other.sha256
    requires ReadManifest(world, max, a).Success? && ReadManifest(other, otherMax, b).Success?
    requires var left, right := Encode(SortBy(a.members, PathAtMost)), Encode(SortBy(b.members, PathAtMost));
             world.sha256(left) == world.sha256(right) ==> left == right
    requires var x, y := ReadManifest(world, max, a).value.documents, ReadManifest(other, otherMax, b).value.documents;
             forall k :: 0 <= k < |x| && k < |y| && world.sha256(x[k].content) == world.sha256(y[k].content) ==>
               x[k].content == y[k].content
    requires input.expectedCorpusAggregateSha256 == ReadManifest(world, max, a).value.aggregateSha256
    requires input.expectedCorpusAggregateSha256 == ReadManifest(other, otherMax, b).value.aggregateSha256
    ensures var x, y := ReadManifest(world, max, a).value, ReadManifest(other, otherMax, b).value;
            Analyze(ports, input, x.aggregateSha256, x.documents) ==
              Analyze(ports, input, y.aggregateSha256, y.documents)
  {
    AggregateFixesDocuments(world, other, max, otherMax, a, b);
  }
}

/** What an analysis reads from its documents, whatever the order inside their lists. */
module ReconnaissanceOrder {
  import opened Wrappers
  import opened Orders
  import opened Text
  import opened SealedCorpus
  import opened Reconnaissance

  ghost predicate SameText(a: seq<string>, b: seq<string>) {
    forall x :: x in a <==> x in b
  }

  /** The sorted list of a set of texts tells exactly what is in it. */
  lemma SortedUniqueTellsMembers(a: seq<string>, b: seq<string>)
    ensures TextSortedUnique(a) == TextSortedUnique(b) <==> SameText(a, b)
  {
    LexAtMostIsTotalOrder();
    SortedUniqueIsStrict(a, LexAtMost);
    SortedUniqueIsStrict(b, LexAtMost);
    if SameText(a, b) {
      StrictListIsUnique(TextSortedUnique(a), TextSortedUnique(b), LexAtMost);
    } else if TextSortedUnique(a) == TextSortedUnique(b) {
      assert forall x :: x in a <==> x in TextSortedUnique(b);
    }
  }

  // ---- Donors ------------------------------------------------------------------------------

  /** A donor with its lists read as sets. */
  datatype DonorContent = DonorContent(
    capabilityId: string,
    sourceRepo: string,
    sourceCommit: string,
    sourcePaths: set<string>,
    behaviorProven: bool,
    evidenceClass: EvidenceClass,
    allowedModes: set<ReuseMode>,
    prohibitedModes: set<ReuseMode>,
    blockers: set<string>,
    preservedTests: set<string>)

  function MembersOf<T(!new)>(s: seq<T>): (members: set<T>)
    ensures forall x :: x in members <==> x in s
  {
    set x | x in s
  }

  function ContentOfDonor(donor: DonorRecord): DonorContent {
    DonorContent(donor.capabilityId, donor.sourceRepo, donor.sourceCommit, MembersOf(donor.sourcePaths),
                 donor.behaviorProven, donor.evidenceClass, MembersOf(donor.allowedModes),
                 MembersOf(donor.prohibitedModes), MembersOf(donor.blockers), MembersOf(donor.preservedTests))
  }

  lemma SameMembersSameList(a: seq<string>, b: seq<string>)
    requires MembersOf(a) == MembersOf(b)
    ensures TextSortedUnique(a) == TextSortedUnique(b)
  {
    assert forall x :: x in a <==> x in MembersOf(b);
    SortedUniqueTellsMembers(a, b);
  }

  lemma {:induction false} FirstAdmittedReadsSets(a: DonorRecord, b: DonorRecord, modes: seq<ReuseMode>)
    requires MembersOf(a.allowedModes) == MembersOf(b.allowedModes)
    requires MembersOf(a.prohibitedModes) == MembersOf(b.prohibitedModes)
    ensures FirstAdmitted(a, modes) == FirstAdmitted(b, modes)
  {
    if modes != [] {
      assert modes[0] in a.allowedModes <==> modes[0] in MembersOf(b.allowedModes);
      assert modes[0] in a.prohibitedModes <==> modes[0] in MembersOf(b.prohibitedModes);
      FirstAdmittedReadsSets(a, b, modes[1..]);
    }
  }

  /** A donor's decision reads each of its five lists as a set. */
  lemma DecisionReadsSets(a: DonorRecord, b: DonorRecord)
    requires ContentOfDonor(a) == ContentOfDonor(b)
    ensures ClassifyDonor(a) == ClassifyDonor(b)
  {
    SameMembersSameList(a.sourcePaths, b.sourcePaths);
    SameMembersSameList(a.blockers, b.blockers);
    SameMembersSameList(a.preservedTests, b.preservedTests);
    FirstAdmittedReadsSets(a, b, REUSE_PRIORITY);
  }

  // ---- Lists that hold the same content ------------------------------------------------------

  /** `f` reads no more of a value than `g` does. */
  ghost predicate ReadsNoMore<T(!new), U, V>(f: T -> U, g: T -> V) {
    forall x, y :: g(x) == g(y) ==> f(x) == f(y)
  }

  lemma MapWithout<T, U>(f: T -> U, s: seq<T>, j: nat)
    requires j < |s|
    ensures multiset(MapSeq(f, s)) == multiset(MapSeq(f, Without(s, j))) + multiset{f(s[j])}
  {
    var mapped := MapSeq(f, s);
    assert MapSeq(f, Without(s, j)) == Without(mapped, j);
    MultisetWithout(mapped, j);
    assert mapped[j] in mapped;
  }

  lemma ImageElsewhere<T, V>(g: T -> V, a: seq<T>, b: seq<T>, i: nat) returns (j: nat)
    requires i < |a| && multiset(MapSeq(g, a)) == multiset(MapSeq(g, b))
    ensures j < |b| && g(b[j]) == g(a[i])
  {
    SameMembers(MapSeq(g, a), MapSeq(g, b), MapSeq(g, a)[i]);
    j :| 0 <= j < |b| && MapSeq(g, b)[j] == MapSeq(g, a)[i];
  }

  /** Lists with the same multiset of `g` images have the same multiset of `f` images. */
  lemma {:induction false} CoarserImagesAgree<T(!new), U, V>(f: T -> U, g: T -> V, a: seq<T>, b: seq<T>)
    requires ReadsNoMore(f, g) && multiset(MapSeq(g, a)) == multiset(MapSeq(g, b))
    ensures multiset(MapSeq(f, a)) == multiset(MapSeq(f, b))
  {
    assert |a| == |multiset(MapSeq(g, a))| == |multiset(MapSeq(g, b))| == |b|;
    if a != [] {
      var j := ImageElsewhere(g, a, b, 0);
      MapWithout(g, a, 0);
      MapWithout(g, b, j);
      MapWithout(f, a, 0);
      MapWithout(f, b, j);
      RestAgrees(multiset(MapSeq(g, Without(a, 0))), multiset(MapSeq(g, Without(b, j))), g(a[0]));
      CoarserImagesAgree(f, g, Without(a, 0), Without(b, j));
    }
  }

  lemma RestAgrees<V>(a: multiset<V>, b: multiset<V>, x: V)
    requires a + multiset{x} == b + multiset{x}
    ensures a == b
  {
    assert a == a + multiset{x} - multiset{x};
    assert b == b + multiset{x} - multiset{x};
  }

  /** The same donors, each under its own id, in any order and with their lists in any order. */
  ghost predicate SameDonors(a: seq<DonorRecord>, b: seq<DonorRecord>) {
    DistinctKeys(a, DonorId) && multiset(MapSeq(ContentOfDonor, a)) == multiset(MapSeq(ContentOfDonor, b))
  }

  function DonorId(donor: DonorRecord): string {
    donor.capabilityId
  }

  lemma DonorOrderIsTotal()
    ensures Total(DonorAtMost) && Transitive(DonorAtMost)
  {
    LexAtMostIsTotalOrder();
    forall a, b ensures DonorAtMost(a, b) || DonorAtMost(b, a) {
      assert LexAtMost(a.capabilityId, b.capabilityId) || LexAtMost(b.capabilityId, a.capabilityId);
    }
    forall a, b, c | DonorAtMost(a, b) && DonorAtMost(b, c) ensures DonorAtMost(a, c) {
      assert LexAtMost(a.capabilityId, b.capabilityId) && LexAtMost(b.capabilityId, c.capabilityId);
    }
  }

  lemma DistinctDonorsAreOrdered(donors: seq<DonorRecord>)
    requires DistinctKeys(donors, DonorId)
    ensures AntisymmetricOn(MapSeq(ClassifyDonor, donors), DonorAtMost)
  {
    LexAtMostIsTotalOrder();
    var decisions := MapSeq(ClassifyDonor, donors);
    forall x, y | x in decisions && y in decisions && DonorAtMost(x, y) && DonorAtMost(y, x) ensures x == y {
      var i :| 0 <= i < |donors| && decisions[i] == x;
      var j :| 0 <= j < |donors| && decisions[j] == y;
      assert LexAtMost(x.capabilityId, y.capabilityId) && LexAtMost(y.capabilityId, x.capabilityId);
      assert DonorId(donors[i]) == DonorId(donors[j]);
      assert i == j;
    }
  }

  /** The same donors lead to the same candidates. */
  lemma CandidatesForgetOrder(a: seq<DonorRecord>, b: seq<DonorRecord>)
    requires SameDonors(a, b)
    ensures SortBy(MapSeq(ClassifyDonor, a), DonorAtMost) == SortBy(MapSeq(ClassifyDonor, b), DonorAtMost)
  {
    forall x, y | ContentOfDonor(x) == ContentOfDonor(y) ensures ClassifyDonor(x) == ClassifyDonor(y) {
      DecisionReadsSets(x, y);
    }
    CoarserImagesAgree(ClassifyDonor, ContentOfDonor, a, b);
    DonorOrderIsTotal();
    DistinctDonorsAreOrdered(a);
    SortForgetsOrder(MapSeq(ClassifyDonor, a), MapSeq(ClassifyDonor, b), DonorAtMost);
  }

  /** Donors that share an id keep their declared order, so swapping them shows in the result. */
  lemma DonorsSharingAnIdKeepTheirOrder(a: DonorRecord, b: DonorRecord)
    requires a.capabilityId == b.capabilityId
    ensures SortBy(MapSeq(ClassifyDonor, [a, b]), DonorAtMost) == [ClassifyDonor(a), ClassifyDonor(b)]
    ensures SortBy(MapSeq(ClassifyDonor, [b, a]), DonorAtMost) == [ClassifyDonor(b), ClassifyDonor(a)]
  {
    var x, y := ClassifyDonor(a), ClassifyDonor(b);
    assert MapSeq(ClassifyDonor, [a, b]) == [x, y] && MapSeq(ClassifyDonor, [b, a]) == [y, x];
    SortOfTwo(x, y, DonorAtMost);
    SortOfTwo(y, x, DonorAtMost);
  }

  lemma SortOfTwo<T(!new)>(x: T, y: T, le: (T, T) -> bool)
    requires le(x, y)
    ensures SortBy([x, y], le) == [x, y]
  {
    assert [x, y][1..] == [y] && [y][1..] == [];
    assert SortBy([y], le) == [y];
  }

  // ---- Topology options ----------------------------------------------------------------------

  /** An option with its blockers read as a set; its deployables keep their order. */
  datatype OptionContent = OptionContent(
    topologyId: string,
    repositoryPosture: string,
    supportsNewApplication: bool,
    separateTrustActors: bool,
    complexityRank: u32,
    deployables: seq<string>,
    hardBlockers: set<string>)

  function ContentOfOption(option: TopologyOption): OptionContent {
    OptionContent(option.topologyId, option.repositoryPosture, option.supportsNewApplication,
                  option.separateTrustActors, option.complexityRank, option.deployables, MembersOf(option.hardBlockers))
  }

  function OptionId(option: TopologyOption): string {
    option.topologyId
  }

  /** The same options, each under its own id, in any order and with their blockers in any order. */
  ghost predicate SameOptions(a: seq<TopologyOption>, b: seq<TopologyOption>) {
    DistinctKeys(a, OptionId) && multiset(MapSeq(ContentOfOption, a)) == multiset(MapSeq(ContentOfOption, b))
  }

  lemma EligibilityReadsSets(target: TargetBrief, a: TopologyOption, b: TopologyOption)
    requires ContentOfOption(a) == ContentOfOption(b) && Eligible(target, a)
    ensures a == b
  {
    assert MembersOf(b.hardBlockers) == {};
    NonEmptyHasMember(b.hardBlockers);
  }

  lemma EligibleElsewhere(target: TargetBrief, a: seq<TopologyOption>, b: seq<TopologyOption>, option: TopologyOption)
    requires multiset(MapSeq(ContentOfOption, a)) == multiset(MapSeq(ContentOfOption, b))
    requires option in a && Eligible(target, option)
    ensures option in b
  {
    var i :| 0 <= i < |a| && a[i] == option;
    var j := ImageElsewhere(ContentOfOption, a, b, i);
    EligibilityReadsSets(target, option, b[j]);
  }

  lemma LeastOptionIsOne(a: seq<TopologyOption>, x: TopologyOption, y: TopologyOption)
    requires DistinctKeys(a, OptionId) && x in a && y in a && OptionAtMost(x, y) && OptionAtMost(y, x)
    ensures x == y
  {
    LexAtMostIsTotalOrder();
    var i :| 0 <= i < |a| && a[i] == x;
    var j :| 0 <= j < |a| && a[j] == y;
    assert LexAtMost(x.topologyId, y.topologyId) && LexAtMost(y.topologyId, x.topologyId);
    assert OptionId(a[i]) == OptionId(a[j]);
    assert i == j;
  }

  /** The same options lead to the same choice, or to none. */
  lemma ChoiceForgetsOrder(target: TargetBrief, a: seq<TopologyOption>, b: seq<TopologyOption>)
    requires SameOptions(a, b)
    ensures SelectTopology(target, a) == SelectTopology(target, b)
  {
    LeastEligibleTopologyIsSelected(target, a);
    LeastEligibleTopologyIsSelected(target, b);
    forall option | Eligible(target, option) ensures option in a <==> option in b {
      if option in a {
        EligibleElsewhere(target, a, b, option);
      }
      if option in b {
        EligibleElsewhere(target, b, a, option);
      }
    }
    if SelectTopology(target, a).Success? && SelectTopology(target, b).Success? {
      LeastOptionIsOne(a, SelectTopology(target, a).value, SelectTopology(target, b).value);
    }
  }

  lemma AssessmentReadsSets(a: TopologyOption, b: TopologyOption, selectedId: string)
    requires ContentOfOption(a) == ContentOfOption(b)
    ensures Assess(a, selectedId) == Assess(b, selectedId)
  {
    SameMembersSameList(a.hardBlockers, b.hardBlockers);
  }

  lemma AssessmentOrderIsTotal()
    ensures Total(AssessmentAtMost) && Transitive(AssessmentAtMost)
  {
    LexAtMostIsTotalOrder();
    forall a, b ensures AssessmentAtMost(a, b) || AssessmentAtMost(b, a) {
      assert LexAtMost(a.topologyId, b.topologyId) || LexAtMost(b.topologyId, a.topologyId);
    }
    forall a, b, c | AssessmentAtMost(a, b) && AssessmentAtMost(b, c) ensures AssessmentAtMost(a, c) {
      assert LexAtMost(a.topologyId, b.topologyId) && LexAtMost(b.topologyId, c.topologyId);
    }
  }

  lemma DistinctOptionsAreOrdered(options: seq<TopologyOption>, selectedId: string)
    requires DistinctKeys(options, OptionId)
    ensures AntisymmetricOn(AssessAll(options, selectedId), AssessmentAtMost)
  {
    LexAtMostIsTotalOrder();
    var assessed := AssessAll(options, selectedId);
    forall x, y | x in assessed && y in assessed && AssessmentAtMost(x, y) && AssessmentAtMost(y, x) ensures x == y {
      var i :| 0 <= i < |options| && assessed[i] == x;
      var j :| 0 <= j < |options| && assessed[j] == y;
      assert LexAtMost(x.topologyId, y.topologyId) && LexAtMost(y.topologyId, x.topologyId);
      assert OptionId(options[i]) == OptionId(options[j]);
      assert i == j;
    }
  }

  /** The same options lead to the same alternatives. */
  lemma AlternativesForgetOrder(a: seq<TopologyOption>, b: seq<TopologyOption>, selectedId: string)
    requires SameOptions(a, b)
    ensures TopologyAlternatives(a, selectedId) == TopologyAlternatives(b, selectedId)
  {
    var assess := (option: TopologyOption) => Assess(option, selectedId);
    forall x, y | ContentOfOption(x) == ContentOfOption(y) ensures assess(x) == assess(y) {
      AssessmentReadsSets(x, y, selectedId);
    }
    CoarserImagesAgree(assess, ContentOfOption, a, b);
    assert MapSeq(assess, a) == AssessAll(a, selectedId) && MapSeq(assess, b) == AssessAll(b, selectedId);
    AssessmentOrderIsTotal();
    DistinctOptionsAreOrdered(a, selectedId);
    SortForgetsOrder(AssessAll(a, selectedId), AssessAll(b, selectedId), AssessmentAtMost);
  }

  // ---- The whole analysis --------------------------------------------------------------------

  ghost predicate SameConstraints(a: Constraints, b: Constraints) {
    SameText(a.criticalBlockers, b.criticalBlockers) && SameText(a.verificationObligations, b.verificationObligations)
  }

  /** Two readings that differ at most in the order inside their lists. */
  ghost predicate ReadsAlike(a: ParsedDocument, b: ParsedDocument) {
    match a
    case DonorEvidence(donors) => b.DonorEvidence? && SameDonors(donors, b.donors)
    case TopologyOptions(options) => b.TopologyOptions? && SameOptions(options, b.options)
    case SomeConstraints(constraints) => b.SomeConstraints? && SameConstraints(constraints, b.constraints)
    case _ => a == b
  }

  /** The two inputs differ at most in the order of the effects they prohibit. */
  ghost predicate AsksAlike(a: ReconnaissanceInput, b: ReconnaissanceInput) {
    && SameText(a.prohibitedEffects, b.prohibitedEffects)
    && b == a.(prohibitedEffects := b.prohibitedEffects)
  }

  ghost predicate SlotsAlike(a: Slots, b: Slots) {
    && a.target == b.target
    && (if a.donors.Some? then b.donors.Some? && SameDonors(a.donors.value, b.donors.value) else b.donors.None?)
    && (if a.topologies.Some? then b.topologies.Some? && SameOptions(a.topologies.value, b.topologies.value)
        else b.topologies.None?)
    && (if a.constraints.Some? then b.constraints.Some? && SameConstraints(a.constraints.value, b.constraints.value)
        else b.constraints.None?)
  }

  ghost predicate LoadsAlike(a: Result<Slots, ReconnaissanceFault>, b: Result<Slots, ReconnaissanceFault>) {
    if a.Success? then b.Success? && SlotsAlike(a.value, b.value) else a == b
  }

  lemma FillingAgrees(a: Slots, b: Slots, x: ParsedDocument, y: ParsedDocument)
    requires SlotsAlike(a, b) && ReadsAlike(x, y)
    ensures LoadsAlike(FillSlot(a, x), FillSlot(b, y))
  {
  }

  lemma {:induction false} LoadingAgrees(parse: DocumentParser, a: seq<CorpusDocument>, b: seq<CorpusDocument>)
    requires |a| == |b| && forall k :: 0 <= k < |a| ==> ReadsAlike(parse(a[k].content), parse(b[k].content))
    ensures LoadsAlike(LoadSlots(parse, a), LoadSlots(parse, b))
  {
    if a != [] {
      var n := |a| - 1;
      LoadingAgrees(parse, a[..n], b[..n]);
      if LoadSlots(parse, a[..n]).Success? {
        FillingAgrees(LoadSlots(parse, a[..n]).value, LoadSlots(parse, b[..n]).value, parse(a[n].content),
                      parse(b[n].content));
      }
    }
  }

  lemma BlockersForgetOrder(a: Constraints, b: Constraints, candidates: seq<DonorDecision>)
    requires SameConstraints(a, b)
    ensures TextSortedUnique(a.criticalBlockers + AllBlockers(candidates)) ==
            TextSortedUnique(b.criticalBlockers + AllBlockers(candidates))
    ensures TextSortedUnique(a.verificationObligations) == TextSortedUnique(b.verificationObligations)
  {
    SortedUniqueTellsMembers(a.criticalBlockers + AllBlockers(candidates),
                             b.criticalBlockers + AllBlockers(candidates));
    SortedUniqueTellsMembers(a.verificationObligations, b.verificationObligations);
  }

  lemma DraftForgetsOrder(input: ReconnaissanceInput, other: ReconnaissanceInput, aggregate: string, a: Slots, b: Slots,
                          selected: TopologyOption)
    requires AsksAlike(input, other) && SlotsAlike(a, b)
    requires a.Full()
    ensures Draft(input, aggregate, a.target.value, a.donors.value, a.topologies.value, a.constraints.value,
                  selected) ==
            Draft(other, aggregate, b.target.value, b.donors.value, b.topologies.value, b.constraints.value, selected)
  {
    CandidatesForgetOrder(a.donors.value, b.donors.value);
    AlternativesForgetOrder(a.topologies.value, b.topologies.value, selected.topologyId);
    BlockersForgetOrder(a.constraints.value, b.constraints.value,
                        SortBy(MapSeq(ClassifyDonor, a.donors.value), DonorAtMost));
    SortedUniqueTellsMembers(input.prohibitedEffects, other.prohibitedEffects);
  }

  lemma DraftsForgetOrder(input: ReconnaissanceInput, other: ReconnaissanceInput, aggregate: string, a: Slots, b: Slots)
    requires AsksAlike(input, other) && SlotsAlike(a, b) && a.Full()
    ensures DraftSlots(input, aggregate, a) == DraftSlots(other, aggregate, b)
  {
    ChoiceForgetsOrder(a.target.value, a.topologies.value, b.topologies.value);
    var selected := SelectTopology(a.target.value, a.topologies.value);
    if selected.Success? {
      DraftForgetsOrder(input, other, aggregate, a, b, selected.value);
    }
  }

  lemma SlotsAnalyzeAlike(ports: ReconnaissancePorts, input: ReconnaissanceInput, other: ReconnaissanceInput,
                          aggregate: string, a: Slots, b: Slots)
    requires AsksAlike(input, other) && SlotsAlike(a, b)
    ensures AnalyzeSlots(ports, input, aggregate, a) == AnalyzeSlots(ports, other, aggregate, b)
  {
    if a.Full() {
      DraftsForgetOrder(input, other, aggregate, a, b);
    }
  }

  /** The order inside the documents and the input does not matter either: reordering donors,
      options, paths, modes, blockers, tests, obligations or prohibited effects gives the same
      result or the same fault, as long as donors and options have ids of their own. */
  lemma AnalysisForgetsListOrder(ports: ReconnaissancePorts, input: ReconnaissanceInput, other: ReconnaissanceInput,
                                 aggregate: string, a: seq<CorpusDocument>, b: seq<CorpusDocument>)
    requires AsksAlike(input, other) && |a| == |b|
    requires forall k :: 0 <= k < |a| ==> ReadsAlike(ports.parse(a[k].content), ports.parse(b[k].content))
    ensures Analyze(ports, input, aggregate, a) == Analyze(ports, other, aggregate, b)
  {
    LoadingAgrees(ports.parse, a, b);
    var loaded := LoadSlots(ports.parse, a);
    if loaded.Success? {
      SlotsAnalyzeAlike(ports, input, other, aggregate, loaded.value, LoadSlots(ports.parse, b).value);
    }
  }
}

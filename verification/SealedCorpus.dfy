/** Reading a sealed, candidate-visible corpus, and the encoding its aggregate digest seals. */
module SealedCorpus {
  import opened Wrappers
  import opened Orders
  import opened Text

  const MAX_MEMBER_COUNT: nat := 64
  const MAX_MEMBER_BYTES: nat := 256 * 1024
  const NUL: char := '\0'

  type Sha256Hex = s: string | IsValidHash(s)
    witness seq(64, _ => '0')

  datatype CorpusMember = CorpusMember(path: string, sha256: string, sizeBytes: u64)

  datatype SealedCorpusManifest = SealedCorpusManifest(
    schemaVersion: string,
    corpusId: string,
    exposureClass: string,
    aggregateProfile: string,
    members: seq<CorpusMember>)

  datatype CorpusDocument = CorpusDocument(relativePath: string, sha256: string, sizeBytes: u64, content: string)

  datatype CorpusReceipt = CorpusReceipt(
    corpusId: string,
    aggregateSha256: string,
    memberCount: nat,
    totalBytes: u64,
    documents: seq<CorpusDocument>)

  /** What the file system says of one path: its length and its bytes are read separately. */
  datatype FileEntry = FileEntry(regular: bool, insideRoot: bool, metadataLen: u64, bytes: string)

  datatype CorpusWorld = CorpusWorld(
    rootIsRealDirectory: bool,
    files: map<seq<string>, FileEntry>,
    sha256: string -> Sha256Hex,
    isUtf8: string -> bool,
    parseManifest: string -> Option<SealedCorpusManifest>)

  datatype CorpusRequest = CorpusRequest(manifestPath: string, maxTotalBytes: u64)

  datatype CorpusFault =
    | RootNotADirectory
    | PathNotAdmitted
    | NotAConfinedFile
    | ManifestUnreadable
    | ManifestNotAdmitted
    | MemberCountOutOfBounds
    | DuplicateMemberPath
    | OracleComponent
    | SizeMismatch
    | ByteCountOverflowed
    | ByteBudgetExceeded
    | DigestMismatch
    | NotUtf8

  // ---- Paths -----------------------------------------------------------------------------

  /** The pieces between slashes, empty ones included. */
  function SplitPath(raw: string): (pieces: seq<string>)
    ensures pieces != []
  {
    if raw == "" then [""]
    else
      var last := raw[|raw| - 1];
      var before := SplitPath(raw[..|raw| - 1]);
      if last == '/' then before + [""]
      else before[..|before| - 1] + [before[|before| - 1] + [last]]
  }

  predicate IsNormalPiece(piece: string) {
    piece != "" && piece != "."
  }

  function Normal(pieces: seq<string>): seq<string> {
    if pieces == [] then []
    else Normal(pieces[..|pieces| - 1]) + (if IsNormalPiece(pieces[|pieces| - 1]) then [pieces[|pieces| - 1]] else [])
  }

  /** The components of an admitted path. Inside a path, empty and `.` pieces vanish; a leading
      `.` or `/`, or `..` anywhere, is refused. */
  function ValidateRelativePath(raw: string): Result<seq<string>, CorpusFault> {
    var pieces := SplitPath(raw);
    if raw == "" || '\\' in raw || ':' in raw then Failure(PathNotAdmitted)
    else if pieces[0] == "" || pieces[0] == "." || ".." in pieces then Failure(PathNotAdmitted)
    else Success(Normal(pieces))
  }

  predicate IsOracleLabel(component: string) {
    ToAsciiLowercase(component) in ["oracle", "hidden_oracle", "hidden-oracle"]
  }

  /** The regular file a path names below the root. A NUL never names a file, and a path that
      ends in `/` or `/.` names a directory. */
  function ConfinedRegularFile(world: CorpusWorld, raw: string, components: seq<string>): Result<FileEntry, CorpusFault>
  {
    var pieces := SplitPath(raw);
    if NUL in raw || !IsNormalPiece(pieces[|pieces| - 1]) || components !in world.files then Failure(NotAConfinedFile)
    else
      var entry := world.files[components];
      if entry.regular && entry.insideRoot then Success(entry) else Failure(NotAConfinedFile)
  }

  // ---- The aggregate encoding --------------------------------------------------------------

  function EncodeMember(member: CorpusMember): string {
    member.path + [NUL] + member.sha256 + [NUL] + Decimal(member.sizeBytes) + ['\n']
  }

  function Encode(members: seq<CorpusMember>): string {
    if members == [] then "" else Encode(members[..|members| - 1]) + EncodeMember(members[|members| - 1])
  }

  /** Members whose text cannot be mistaken for a separator. */
  predicate Encodable(member: CorpusMember) {
    NUL !in member.path && NUL !in member.sha256
  }

  /** The text before the first `mark`. */
  function Until(s: string, mark: char): (prefix: string)
    ensures prefix <= s && mark !in prefix
    ensures mark in s ==> |prefix| < |s| && s[|prefix|] == mark
  {
    if s == "" || s[0] == mark then ""
    else
      assert s == [s[0]] + s[1..];
      [s[0]] + Until(s[1..], mark)
  }

  lemma {:induction false} UntilFindsMark(text: string, mark: char, rest: string)
    requires mark !in text
    ensures Until(text + [mark] + rest, mark) == text
  {
    var s := text + [mark] + rest;
    if text != "" {
      assert s[1..] == text[1..] + [mark] + rest;
      UntilFindsMark(text[1..], mark, rest);
      assert text == [text[0]] + text[1..];
    }
  }

  /** The text up to the first `mark`, and the text behind it. */
  function Cut(s: string, mark: char): (cut: Option<(string, string)>)
    ensures cut.Some? ==> |cut.value.1| < |s|
  {
    var field := Until(s, mark);
    if |field| == |s| then None else Some((field, s[|field| + 1..]))
  }

  /** The first member of a preimage, and the rest of it. */
  function DecodeFirst(s: string): (first: Option<(CorpusMember, string)>)
    ensures first.Some? ==> |first.value.1| < |s|
  {
    match Cut(s, NUL)
    case None => None
    case Some((path, afterPath)) =>
      match Cut(afterPath, NUL)
      case None => None
      case Some((digest, afterDigest)) =>
        match Cut(afterDigest, '\n')
        case None => None
        case Some((size, rest)) =>
          if DecimalValue(size) >= U64_BOUND then None else Some((CorpusMember(path, digest, DecimalValue(size)), rest))
  }

  function Decode(s: string): Option<seq<CorpusMember>> {
    if s == "" then Some([])
    else match DecodeFirst(s)
      case None => None
      case Some((member, rest)) =>
        match Decode(rest)
        case None => None
        case Some(tail) => Some([member] + tail)
  }

  /** A field, its mark and the rest come apart again. */
  lemma FieldComesApart(text: string, mark: char, rest: string)
    requires mark !in text
    ensures var s := text + [mark] + rest;
            Cut(s, mark) == Some((text, rest))
  {
    UntilFindsMark(text, mark, rest);
  }

  function SizeField(member: CorpusMember, rest: string): string {
    Decimal(member.sizeBytes) + ['\n'] + rest
  }

  function DigestField(member: CorpusMember, rest: string): string {
    member.sha256 + [NUL] + SizeField(member, rest)
  }

  lemma EncodedFields(member: CorpusMember, rest: string)
    ensures EncodeMember(member) + rest == member.path + [NUL] + DigestField(member, rest)
  {
  }

  lemma DecodeMember(member: CorpusMember, rest: string)
    requires Encodable(member)
    ensures DecodeFirst(EncodeMember(member) + rest) == Some((member, rest))
  {
    EncodedFields(member, rest);
    FieldComesApart(member.path, NUL, DigestField(member, rest));
    FieldComesApart(member.sha256, NUL, SizeField(member, rest));
    FieldComesApart(Decimal(member.sizeBytes), '\n', rest);
    DecimalRoundTrip(member.sizeBytes);
  }

  lemma {:induction false} EncodeFromFront(members: seq<CorpusMember>)
    requires members != []
    ensures Encode(members) == EncodeMember(members[0]) + Encode(members[1..])
  {
    var front, last := members[..|members| - 1], EncodeMember(members[|members| - 1]);
    var tail := members[1..];
    if front == [] {
      assert Encode(front) == "" && Encode(tail) == "";
    } else {
      EncodeFromFront(front);
      assert tail[..|tail| - 1] == front[1..];
      calc {
        Encode(members);
        Encode(front) + last;
        EncodeMember(members[0]) + Encode(front[1..]) + last;
        EncodeMember(members[0]) + (Encode(front[1..]) + last);
        EncodeMember(members[0]) + Encode(tail);
      }
    }
  }

  /** The preimage is uniquely decodable: it gives the member list back, whole and in order. */
  lemma {:induction false} AggregateRoundTrip(members: seq<CorpusMember>)
    requires forall member :: member in members ==> Encodable(member)
    ensures Decode(Encode(members)) == Some(members)
  {
    if members != [] {
      EncodeFromFront(members);
      AggregateRoundTrip(members[1..]);
      DecodeMember(members[0], Encode(members[1..]));
      assert members == [members[0]] + members[1..];
    }
  }

  // ---- Reading ---------------------------------------------------------------------------

  datatype CorpusRead = CorpusRead(
    seen: set<string>,
    totalBytes: u64,
    aggregatePreimage: string,
    documents: seq<CorpusDocument>)

  function ReadMember(world: CorpusWorld, maxTotalBytes: u64, read: CorpusRead, member: CorpusMember)
    : Result<CorpusRead, CorpusFault>
  {
    if member.path in read.seen then Failure(DuplicateMemberPath)
    else
      var relative :- ValidateRelativePath(member.path);
      if exists component :: component in relative && IsOracleLabel(component) then Failure(OracleComponent)
      else
        var file :- ConfinedRegularFile(world, member.path, relative);
        if file.metadataLen != member.sizeBytes || file.metadataLen > MAX_MEMBER_BYTES then Failure(SizeMismatch)
        else if read.totalBytes + file.metadataLen >= U64_BOUND then Failure(ByteCountOverflowed)
        else if read.totalBytes + file.metadataLen > maxTotalBytes then Failure(ByteBudgetExceeded)
        else if world.sha256(file.bytes) != member.sha256 then Failure(DigestMismatch)
        else if !world.isUtf8(file.bytes) then Failure(NotUtf8)
        else
          Success(CorpusRead(read.seen + {member.path}, read.totalBytes + file.metadataLen,
                             read.aggregatePreimage + EncodeMember(member),
                             read.documents +
                               [CorpusDocument(member.path, member.sha256, member.sizeBytes, file.bytes)]))
  }

  function ReadMembers(world: CorpusWorld, maxTotalBytes: u64, members: seq<CorpusMember>)
    : Result<CorpusRead, CorpusFault>
  {
    if members == [] then Success(CorpusRead({}, 0, "", []))
    else
      var read :- ReadMembers(world, maxTotalBytes, members[..|members| - 1]);
      ReadMember(world, maxTotalBytes, read, members[|members| - 1])
  }

  predicate PathAtMost(a: CorpusMember, b: CorpusMember) {
    LexAtMost(a.path, b.path)
  }

  predicate AdmittedManifest(manifest: SealedCorpusManifest) {
    && manifest.schemaVersion == "FraaSealedCorpusManifest.v0"
    && manifest.exposureClass == "candidate_visible"
    && manifest.aggregateProfile == "path-sha256-size-v1"
  }

  function ReadManifest(world: CorpusWorld, maxTotalBytes: u64, manifest: SealedCorpusManifest)
    : Result<CorpusReceipt, CorpusFault>
  {
    if !AdmittedManifest(manifest) then Failure(ManifestNotAdmitted)
    else if !(1 <= |manifest.members| <= MAX_MEMBER_COUNT) then Failure(MemberCountOutOfBounds)
    else
      var read :- ReadMembers(world, maxTotalBytes, SortBy(manifest.members, PathAtMost));
      Success(CorpusReceipt(manifest.corpusId, world.sha256(read.aggregatePreimage), |read.documents|,
                            read.totalBytes, read.documents))
  }

  function LoadManifest(world: CorpusWorld, request: CorpusRequest): Result<SealedCorpusManifest, CorpusFault> {
    if !world.rootIsRealDirectory then Failure(RootNotADirectory)
    else
      var relative :- ValidateRelativePath(request.manifestPath);
      var file :- ConfinedRegularFile(world, request.manifestPath, relative);
      if !world.isUtf8(file.bytes) || world.parseManifest(file.bytes).None? then Failure(ManifestUnreadable)
      else Success(world.parseManifest(file.bytes).value)
  }

  method ReadCandidateVisible(world: CorpusWorld, request: CorpusRequest)
    returns (r: Result<CorpusReceipt, CorpusFault>)
    ensures r == match LoadManifest(world, request)
                 case Failure(fault) => Failure(fault)
                 case Success(manifest) => ReadManifest(world, request.maxTotalBytes, manifest)
  {
    var loaded := LoadManifest(world, request);
    if loaded.Failure? {
      return Failure(loaded.error);
    }
    var manifest := loaded.value;
    if !AdmittedManifest(manifest) {
      return Failure(ManifestNotAdmitted);
    }
    if manifest.members == [] || |manifest.members| > MAX_MEMBER_COUNT {
      return Failure(MemberCountOutOfBounds);
    }
    var members := SortBy(manifest.members, PathAtMost);
    var read := ReadInOrder(world, request.maxTotalBytes, members);
    if read.Failure? {
      return Failure(read.error);
    }
    r := Success(CorpusReceipt(manifest.corpusId, world.sha256(read.value.aggregatePreimage), |read.value.documents|,
                               read.value.totalBytes, read.value.documents));
  }

  /** One pass of the loop: checks one member against its file and adds it to what was read. */
  method ReadNext(world: CorpusWorld, maxTotalBytes: u64, read: CorpusRead, member: CorpusMember)
    returns (r: Result<CorpusRead, CorpusFault>)
    ensures r == ReadMember(world, maxTotalBytes, read, member)
  {
    if member.path in read.seen {
      return Failure(DuplicateMemberPath);
    }
    var seen := read.seen + {member.path};
    var relative :- ValidateRelativePath(member.path);
    if exists component :: component in relative && IsOracleLabel(component) {
      return Failure(OracleComponent);
    }
    var file :- ConfinedRegularFile(world, member.path, relative);
    var len := file.metadataLen;
    if len != member.sizeBytes || len > MAX_MEMBER_BYTES {
      return Failure(SizeMismatch);
    }
    if read.totalBytes + len >= U64_BOUND {
      return Failure(ByteCountOverflowed);
    }
    var totalBytes := read.totalBytes + len;
    if totalBytes > maxTotalBytes {
      return Failure(ByteBudgetExceeded);
    }
    var observed := world.sha256(file.bytes);
    if observed != member.sha256 {
      return Failure(DigestMismatch);
    }
    if !world.isUtf8(file.bytes) {
      return Failure(NotUtf8);
    }
    r := Success(CorpusRead(seen, totalBytes, read.aggregatePreimage + EncodeMember(member),
                            read.documents +
                              [CorpusDocument(member.path, member.sha256, member.sizeBytes, file.bytes)]));
  }

  /** The loop over the sorted members. */
  method ReadInOrder(world: CorpusWorld, maxTotalBytes: u64, members: seq<CorpusMember>)
    returns (r: Result<CorpusRead, CorpusFault>)
    ensures r == ReadMembers(world, maxTotalBytes, members)
  {
    var read := CorpusRead({}, 0, "", []);
    for n := 0 to |members|
      invariant ReadMembers(world, maxTotalBytes, members[..n]) == Success(read)
    {
      NextMember(world, maxTotalBytes, members, n, read);
      read :- ReadNext(world, maxTotalBytes, read, members[n]);
    }
    assert members[..|members|] == members;
    r := Success(read);
  }

  /** One more member: its fault is final, and otherwise it extends what was read. */
  lemma NextMember(world: CorpusWorld, maxTotalBytes: u64, members: seq<CorpusMember>, n: nat, read: CorpusRead)
    requires n < |members| && ReadMembers(world, maxTotalBytes, members[..n]) == Success(read)
    ensures var next := ReadMember(world, maxTotalBytes, read, members[n]);
            && ReadMembers(world, maxTotalBytes, members[..n + 1]) == next
            && (next.Failure? ==> ReadMembers(world, maxTotalBytes, members) == Failure(next.error))
  {
    var front := members[..n + 1];
    assert front[..|front| - 1] == members[..n];
    FirstFaultIsFinal(world, maxTotalBytes, members, n + 1);
  }

  /** Reading stops at the first member that fails. */
  lemma {:induction false} FirstFaultIsFinal(world: CorpusWorld, maxTotalBytes: u64, members: seq<CorpusMember>, n: nat)
    requires n <= |members|
    ensures var first := ReadMembers(world, maxTotalBytes, members[..n]);
            first.Failure? ==> ReadMembers(world, maxTotalBytes, members) == Failure(first.error)
    decreases |members|
  {
    if n < |members| {
      var front := members[..|members| - 1];
      assert front[..n] == members[..n];
      FirstFaultIsFinal(world, maxTotalBytes, front, n);
    } else {
      assert members[..n] == members;
    }
  }

  // ---- When a corpus is admitted, and what its receipt says ----------------------------------

  /** The file a member names, if its path is admitted and confined. */
  function MemberFile(world: CorpusWorld, member: CorpusMember): Option<FileEntry> {
    match ValidateRelativePath(member.path)
    case Failure(_) => None
    case Success(relative) =>
      match ConfinedRegularFile(world, member.path, relative)
      case Failure(_) => None
      case Success(file) => Some(file)
  }

  predicate AvoidsOracle(member: CorpusMember) {
    var relative := ValidateRelativePath(member.path);
    relative.Success? ==> forall component :: component in relative.value ==> !IsOracleLabel(component)
  }

  /** The member on its own: an admitted path, and a file that is what the manifest says. */
  predicate SoundMember(world: CorpusWorld, member: CorpusMember) {
    var file := MemberFile(world, member);
    && AvoidsOracle(member)
    && file.Some?
    && file.value.metadataLen == member.sizeBytes <= MAX_MEMBER_BYTES
    && world.sha256(file.value.bytes) == member.sha256
    && world.isUtf8(file.value.bytes)
  }

  function DocumentOf(world: CorpusWorld, member: CorpusMember): CorpusDocument
    requires SoundMember(world, member)
  {
    CorpusDocument(member.path, member.sha256, member.sizeBytes, MemberFile(world, member).value.bytes)
  }

  function PathOf(member: CorpusMember): string {
    member.path
  }

  function SizeOf(member: CorpusMember): nat {
    member.sizeBytes
  }

  function TotalSize(members: seq<CorpusMember>): nat {
    Sum(members, SizeOf)
  }

  ghost predicate DistinctPaths(members: seq<CorpusMember>) {
    DistinctKeys(members, PathOf)
  }

  ghost predicate AllSound(world: CorpusWorld, members: seq<CorpusMember>) {
    forall member :: member in members ==> SoundMember(world, member)
  }

  /** The loop has read exactly these members. */
  ghost predicate HasRead(world: CorpusWorld, members: seq<CorpusMember>, read: CorpusRead) {
    && AllSound(world, members)
    && read.seen == (set member | member in members :: member.path)
    && read.totalBytes == TotalSize(members)
    && read.aggregatePreimage == Encode(members)
    && |read.documents| == |members|
    && forall k :: 0 <= k < |members| ==> read.documents[k] == DocumentOf(world, members[k])
  }

  lemma ReadMemberExactly(world: CorpusWorld, maxTotalBytes: u64, read: CorpusRead, member: CorpusMember)
    ensures var next := ReadMember(world, maxTotalBytes, read, member);
            && (next.Success? <==> member.path !in read.seen && SoundMember(world, member) &&
                                   read.totalBytes + member.sizeBytes <= maxTotalBytes)
            && (next.Success? ==>
                  next.value == CorpusRead(read.seen + {member.path}, read.totalBytes + member.sizeBytes,
                                           read.aggregatePreimage + EncodeMember(member),
                                           read.documents + [DocumentOf(world, member)]))
  {
  }

  lemma {:induction false} ReadMembersExactly(world: CorpusWorld, maxTotalBytes: u64, members: seq<CorpusMember>)
    ensures var read := ReadMembers(world, maxTotalBytes, members);
            && (read.Success? <==>
                DistinctPaths(members) && AllSound(world, members) && TotalSize(members) <= maxTotalBytes)
            && (read.Success? ==> HasRead(world, members, read.value))
  {
    if members != [] {
      var front, last := members[..|members| - 1], members[|members| - 1];
      assert members == front + [last];
      ReadMembersExactly(world, maxTotalBytes, front);
      var read := ReadMembers(world, maxTotalBytes, front);
      if read.Success? {
        ReadMemberExactly(world, maxTotalBytes, read.value, last);
        PathIsNew(front, last);
      }
    }
  }

  lemma PathIsNew(front: seq<CorpusMember>, last: CorpusMember)
    ensures DistinctPaths(front + [last]) <==>
            DistinctPaths(front) && last.path !in (set member | member in front :: member.path)
  {
    var members := front + [last];
    if DistinctPaths(members) {
      forall i, j | 0 <= i < j < |front| ensures front[i].path != front[j].path {
        assert members[i] == front[i] && members[j] == front[j];
      }
      forall member | member in front ensures member.path != last.path {
        var i :| 0 <= i < |front| && front[i] == member;
        assert members[i] == member && members[|front|] == last;
      }
    }
  }

  // ---- The manifest's order does not matter --------------------------------------------------

  lemma PathOrderIsTotal()
    ensures Total(PathAtMost) && Transitive(PathAtMost)
    ensures forall a, b :: PathAtMost(a, b) && PathAtMost(b, a) ==> a.path == b.path
  {
    LexAtMostIsTotalOrder();
    forall a, b | PathAtMost(a, b) && PathAtMost(b, a) ensures a.path == b.path {
      assert LexAtMost(a.path, b.path) && LexAtMost(b.path, a.path);
    }
    forall a, b ensures PathAtMost(a, b) || PathAtMost(b, a) {
      assert LexAtMost(a.path, b.path) || LexAtMost(b.path, a.path);
    }
    forall a, b, c | PathAtMost(a, b) && PathAtMost(b, c) ensures PathAtMost(a, c) {
      assert LexAtMost(a.path, b.path) && LexAtMost(b.path, c.path);
    }
  }

  /** What a receipt reports, read off the manifest's members in path order. */
  ghost predicate ReportsMembers(world: CorpusWorld, manifest: SealedCorpusManifest, members: seq<CorpusMember>,
                                 receipt: CorpusReceipt)
  {
    && AllSound(world, members)
    && receipt.corpusId == manifest.corpusId
    && receipt.aggregateSha256 == world.sha256(Encode(members))
    && receipt.memberCount == |receipt.documents| == |members|
    && receipt.totalBytes == TotalSize(members)
    && forall k :: 0 <= k < |members| ==> receipt.documents[k] == DocumentOf(world, members[k])
  }

  /** A corpus is admitted exactly when its manifest is, its paths differ, every member is sound
      on its own, and the exact sum of their sizes fits the request: conditions in which no
      order occurs. The receipt lists each member once, in path order, under that sum. */
  lemma CorpusIsAdmittedExactlyWhen(world: CorpusWorld, maxTotalBytes: u64, manifest: SealedCorpusManifest)
    ensures var r := ReadManifest(world, maxTotalBytes, manifest);
            && (r.Success? <==>
                  && AdmittedManifest(manifest) && 1 <= |manifest.members| <= MAX_MEMBER_COUNT
                  && DistinctPaths(manifest.members) && AllSound(world, manifest.members)
                  && TotalSize(manifest.members) <= maxTotalBytes)
            && (r.Success? ==>
                  var members := SortBy(manifest.members, PathAtMost);
                  && multiset(members) == multiset(manifest.members)
                  && SortedBy(members, PathAtMost) && DistinctPaths(members)
                  && ReportsMembers(world, manifest, members, r.value)
                  && r.value.totalBytes == TotalSize(manifest.members) <= maxTotalBytes)
  {
    var members := SortBy(manifest.members, PathAtMost);
    PathOrderIsTotal();
    SortByIsSorted(manifest.members, PathAtMost);
    ReadMembersExactly(world, maxTotalBytes, members);
    SumForgetsOrder(members, manifest.members, SizeOf);
    SoundnessForgetsOrder(world, members, manifest.members);
    if DistinctPaths(members) {
      DistinctKeysForgetOrder(members, manifest.members, PathOf);
    }
    if DistinctPaths(manifest.members) {
      DistinctKeysForgetOrder(manifest.members, members, PathOf);
    }
  }

  lemma SoundnessForgetsOrder(world: CorpusWorld, a: seq<CorpusMember>, b: seq<CorpusMember>)
    requires multiset(a) == multiset(b)
    ensures AllSound(world, a) <==> AllSound(world, b)
  {
    forall member ensures member in a <==> member in b {
      SameMembers(a, b, member);
    }
  }

  /** Every ordering of one member list gives the same verdict, and on success the same receipt. */
  lemma ReceiptForgetsManifestOrder(world: CorpusWorld, maxTotalBytes: u64, a: SealedCorpusManifest,
                                    b: SealedCorpusManifest)
    requires b == a.(members := b.members) && multiset(a.members) == multiset(b.members)
    ensures var x, y := ReadManifest(world, maxTotalBytes, a), ReadManifest(world, maxTotalBytes, b);
            x.Success? == y.Success? && (x.Success? ==> x == y)
  {
    assert |a.members| == |multiset(a.members)| == |multiset(b.members)| == |b.members|;
    CorpusIsAdmittedExactlyWhen(world, maxTotalBytes, a);
    CorpusIsAdmittedExactlyWhen(world, maxTotalBytes, b);
    SumForgetsOrder(a.members, b.members, SizeOf);
    SoundnessForgetsOrder(world, a.members, b.members);
    if DistinctPaths(b.members) {
      DistinctKeysForgetOrder(b.members, a.members, PathOf);
    }
    if DistinctPaths(a.members) {
      DistinctKeysForgetOrder(a.members, b.members, PathOf);
      PathOrderIsTotal();
      DistinctPathsTellMembersApart(a.members);
      SortForgetsOrder(a.members, b.members, PathAtMost);
    }
  }

  lemma DistinctPathsTellMembersApart(members: seq<CorpusMember>)
    requires DistinctPaths(members)
    ensures AntisymmetricOn(members, PathAtMost)
  {
    PathOrderIsTotal();
    forall x, y | x in members && y in members && PathAtMost(x, y) && PathAtMost(y, x) ensures x == y {
      var i :| 0 <= i < |members| && members[i] == x;
      var j :| 0 <= j < |members| && members[j] == y;
      assert i == j;
    }
  }

  /** No overflow was reported, and at most `n` members' worth of bytes was counted. */
  predicate CountsWithin(r: Result<CorpusRead, CorpusFault>, n: nat) {
    r != Failure(ByteCountOverflowed) && (r.Success? ==> r.value.totalBytes <= n * MAX_MEMBER_BYTES)
  }

  /** The checked sum never overflows: the member bounds keep it far below 64 bits. */
  lemma {:induction false} ByteCountNeverOverflows(world: CorpusWorld, maxTotalBytes: u64, members: seq<CorpusMember>)
    requires |members| <= MAX_MEMBER_COUNT
    ensures CountsWithin(ReadMembers(world, maxTotalBytes, members), |members|)
  {
    if members != [] {
      var front, last := members[..|members| - 1], members[|members| - 1];
      ByteCountNeverOverflows(world, maxTotalBytes, front);
      var read := ReadMembers(world, maxTotalBytes, front);
      if read.Success? {
        MemberKeepsCountWithin(world, maxTotalBytes, read.value, last, |front|);
        assert ReadMembers(world, maxTotalBytes, members) == ReadMember(world, maxTotalBytes, read.value, last);
      }
    }
  }

  lemma MemberKeepsCountWithin(world: CorpusWorld, maxTotalBytes: u64, read: CorpusRead, member: CorpusMember, n: nat)
    requires n < MAX_MEMBER_COUNT && read.totalBytes <= n * MAX_MEMBER_BYTES
    ensures CountsWithin(ReadMember(world, maxTotalBytes, read, member), n + 1)
  {
  }

  // ---- What the aggregate digest fixes --------------------------------------------------------

  lemma SoundMembersAreEncodable(world: CorpusWorld, members: seq<CorpusMember>)
    requires AllSound(world, members)
    ensures forall member :: member in members ==> Encodable(member)
  {
    forall member | member in members ensures Encodable(member) {
      assert IsValidHash(member.sha256);
    }
  }

  /** Two admitted corpora with one aggregate digest hold the same documents, byte for byte, so
      long as the digest does not collide on their two preimages or on the contents of a shared
      member. */
  lemma AggregateFixesDocuments(world: CorpusWorld, other: CorpusWorld, max: u64, otherMax: u64,
                                a: SealedCorpusManifest, b: SealedCorpusManifest)
    requires world.sha256 == other.sha256
    requires ReadManifest(world, max, a).Success? && ReadManifest(other, otherMax, b).Success?
    requires ReadManifest(world, max, a).value.aggregateSha256 == ReadManifest(other, otherMax, b).value.aggregateSha256
    requires var left, right := Encode(SortBy(a.members, PathAtMost)), Encode(SortBy(b.members, PathAtMost));
             world.sha256(left) == world.sha256(right) ==> left == right
    requires var x, y := ReadManifest(world, max, a).value.documents, ReadManifest(other, otherMax, b).value.documents;
             forall k :: 0 <= k < |x| && k < |y| && world.sha256(x[k].content) == world.sha256(y[k].content) ==>
               x[k].content == y[k].content
    ensures ReadManifest(world, max, a).value.documents == ReadManifest(other, otherMax, b).value.documents
    ensures ReadManifest(world, max, a).value.totalBytes == ReadManifest(other, otherMax, b).value.totalBytes
  {
    var left, right := SortBy(a.members, PathAtMost), SortBy(b.members, PathAtMost);
    CorpusIsAdmittedExactlyWhen(world, max, a);
    CorpusIsAdmittedExactlyWhen(other, otherMax, b);
    SoundMembersAreEncodable(world, left);
    SoundMembersAreEncodable(other, right);
    AggregateRoundTrip(left);
    AggregateRoundTrip(right);
    assert left == right;
    var x, y := ReadManifest(world, max, a).value.documents, ReadManifest(other, otherMax, b).value.documents;
    forall k | 0 <= k < |x| ensures x[k] == y[k] {
      assert left[k] in left && right[k] in right;
    }
  }

  // ---- One file under two spellings -----------------------------------------------------------

  function Join(pieces: seq<string>): string
    requires pieces != []
  {
    if |pieces| == 1 then pieces[0] else Join(pieces[..|pieces| - 1]) + ['/'] + pieces[|pieces| - 1]
  }

  predicate SlashFree(pieces: seq<string>) {
    forall piece :: piece in pieces ==> '/' !in piece
  }

  lemma {:induction false} SplitIsSlashFree(raw: string)
    ensures SlashFree(SplitPath(raw))
  {
    if raw != "" {
      SplitIsSlashFree(raw[..|raw| - 1]);
    }
  }

  /** The pieces with more text at the end of the last one. */
  function Lengthen(pieces: seq<string>, text: string): (r: seq<string>)
    requires pieces != []
    ensures |r| == |pieces|
  {
    pieces[..|pieces| - 1] + [pieces[|pieces| - 1] + text]
  }

  lemma LengthenTwice(pieces: seq<string>, first: string, second: string)
    requires pieces != []
    ensures Lengthen(Lengthen(pieces, first), second) == Lengthen(pieces, first + second)
  {
    var last := pieces[|pieces| - 1];
    assert last + first + second == last + (first + second);
  }

  lemma SplitAppend(raw: string, c: char)
    ensures SplitPath(raw + [c]) == if c == '/' then SplitPath(raw) + [""] else Lengthen(SplitPath(raw), [c])
  {
    assert (raw + [c])[..|raw|] == raw;
  }

  lemma {:induction false} SplitExtendsLastPiece(raw: string, text: string)
    requires '/' !in text
    ensures SplitPath(raw + text) == Lengthen(SplitPath(raw), text)
  {
    if text == "" {
      assert raw + text == raw;
      LengthenByNothing(SplitPath(raw));
    } else {
      var front, c := text[..|text| - 1], text[|text| - 1];
      assert text == front + [c] && raw + text == raw + front + [c];
      SplitExtendsLastPiece(raw, front);
      SplitAppend(raw + front, c);
      LengthenTwice(SplitPath(raw), front, [c]);
    }
  }

  lemma LengthenByNothing(pieces: seq<string>)
    requires pieces != []
    ensures Lengthen(pieces, "") == pieces
  {
    assert pieces[|pieces| - 1] + "" == pieces[|pieces| - 1];
  }

  /** Splitting undoes joining. */
  lemma {:induction false} SplitJoin(pieces: seq<string>)
    requires pieces != [] && SlashFree(pieces)
    ensures SplitPath(Join(pieces)) == pieces
  {
    var front, last := pieces[..|pieces| - 1], pieces[|pieces| - 1];
    assert pieces == front + [last];
    if front == [] {
      SplitExtendsLastPiece("", last);
      assert "" + last == last;
    } else {
      SplitJoin(front);
      SplitAppend(Join(front), '/');
      SplitExtendsLastPiece(Join(front) + ['/'], last);
      assert "" + last == last;
    }
  }

  lemma {:induction false} NormalMembers(pieces: seq<string>)
    ensures forall piece :: piece in Normal(pieces) <==> piece in pieces && IsNormalPiece(piece)
  {
    if pieces != [] {
      var front, last := pieces[..|pieces| - 1], pieces[|pieces| - 1];
      assert pieces == front + [last];
      NormalMembers(front);
    }
  }

  /** A path spelled without its empty and `.` pieces. */
  function Plain(raw: string): string {
    var components := Normal(SplitPath(raw));
    if components == [] then "" else Join(components)
  }

  /** Two admitted paths name one file exactly when they have one plain spelling. */
  lemma OneFileExactlyWhenOnePlainSpelling(a: string, b: string)
    requires ValidateRelativePath(a).Success? && ValidateRelativePath(b).Success?
    ensures ValidateRelativePath(a) == ValidateRelativePath(b) <==> Plain(a) == Plain(b)
  {
    AdmittedComponentsSplitBack(a);
    AdmittedComponentsSplitBack(b);
  }

  lemma AdmittedComponentsSplitBack(raw: string)
    requires ValidateRelativePath(raw).Success?
    ensures SplitPath(Plain(raw)) == ValidateRelativePath(raw).value
  {
    var pieces := SplitPath(raw);
    SplitIsSlashFree(raw);
    NormalMembers(pieces);
    assert pieces[0] in Normal(pieces);
    SplitJoin(Normal(pieces));
  }

  function ComponentsOf(member: CorpusMember): seq<string> {
    var relative := ValidateRelativePath(member.path);
    if relative.Success? then relative.value else []
  }

  function PlainPath(member: CorpusMember): string {
    Plain(member.path)
  }

  /** The exact condition: an admitted corpus reads no file twice if and only if the plain
      spellings of its paths differ. */
  lemma EachFileIsReadOnceExactlyWhenPlainPathsDiffer(world: CorpusWorld, maxTotalBytes: u64,
                                                      manifest: SealedCorpusManifest)
    requires ReadManifest(world, maxTotalBytes, manifest).Success?
    ensures forall member :: member in manifest.members ==>
              ComponentsOf(member) in world.files &&
                MemberFile(world, member) == Some(world.files[ComponentsOf(member)])
    ensures DistinctKeys(manifest.members, ComponentsOf) <==> DistinctKeys(manifest.members, PlainPath)
  {
    CorpusIsAdmittedExactlyWhen(world, maxTotalBytes, manifest);
    var members := manifest.members;
    forall i, j | 0 <= i < j < |members|
      ensures ComponentsOf(members[i]) == ComponentsOf(members[j]) <==> PlainPath(members[i]) == PlainPath(members[j])
    {
      assert SoundMember(world, members[i]) && SoundMember(world, members[j]);
      OneFileExactlyWhenOnePlainSpelling(members[i].path, members[j].path);
    }
  }

  lemma {:induction false} NormalKeepsNormalPieces(pieces: seq<string>)
    requires forall piece :: piece in pieces ==> IsNormalPiece(piece)
    ensures Normal(pieces) == pieces
  {
    if pieces != [] {
      var front, last := pieces[..|pieces| - 1], pieces[|pieces| - 1];
      assert pieces == front + [last];
      NormalKeepsNormalPieces(front);
    }
  }

  /** The duplicate check compares spellings, so one file can be read, counted and sealed twice. */
  lemma OneFileUnderTwoSpellings(world: CorpusWorld, maxTotalBytes: u64, manifest: SealedCorpusManifest,
                                 member: CorpusMember)
    requires AdmittedManifest(manifest) && manifest.members == [member, member.(path := "a//b")]
    requires member.path == "a/b" && SoundMember(world, member) && 2 * member.sizeBytes <= maxTotalBytes
    ensures ReadManifest(world, maxTotalBytes, manifest).Success?
    ensures ReadManifest(world, maxTotalBytes, manifest).value.totalBytes == 2 * member.sizeBytes
    ensures MemberFile(world, manifest.members[0]) == MemberFile(world, manifest.members[1])
  {
    var first, second := member, member.(path := "a//b");
    SpellingKeepsSoundness(world, first);
    TwoSoundMembersAreAdmitted(world, maxTotalBytes, manifest, first, second);
  }

  lemma TwoSoundMembersAreAdmitted(world: CorpusWorld, maxTotalBytes: u64, manifest: SealedCorpusManifest,
                                   a: CorpusMember, b: CorpusMember)
    requires AdmittedManifest(manifest) && manifest.members == [a, b] && a.path != b.path
    requires SoundMember(world, a) && SoundMember(world, b) && a.sizeBytes + b.sizeBytes <= maxTotalBytes
    ensures ReadManifest(world, maxTotalBytes, manifest).Success?
    ensures ReadManifest(world, maxTotalBytes, manifest).value.totalBytes == a.sizeBytes + b.sizeBytes
  {
    TotalOfTwo(a, b);
    CorpusIsAdmittedExactlyWhen(world, maxTotalBytes, manifest);
  }

  lemma TotalOfTwo(a: CorpusMember, b: CorpusMember)
    ensures TotalSize([a, b]) == a.sizeBytes + b.sizeBytes
  {
    SumSplits([a], [b], SizeOf);
    assert [a] + [b] == [a, b];
  }

  lemma SameComponentsSameFile(world: CorpusWorld, member: CorpusMember, other: CorpusMember)
    requires other == member.(path := other.path) && SoundMember(world, member)
    requires ValidateRelativePath(other.path) == ValidateRelativePath(member.path)
    requires NUL !in other.path && IsNormalPiece(SplitPath(other.path)[|SplitPath(other.path)| - 1])
    ensures SoundMember(world, other) && MemberFile(world, other) == MemberFile(world, member)
  {
  }

  lemma SpellingKeepsSoundness(world: CorpusWorld, member: CorpusMember)
    requires member.path == "a/b" && SoundMember(world, member)
    ensures SoundMember(world, member.(path := "a//b"))
    ensures MemberFile(world, member) == MemberFile(world, member.(path := "a//b"))
  {
    TwoSpellingsNormalise();
    SplitExamples();
    SameComponentsSameFile(world, member, member.(path := "a//b"));
  }

  lemma TwoSpellingsNormalise()
    ensures ValidateRelativePath("a/b") == ValidateRelativePath("a//b") == Success(["a", "b"])
  {
    SplitExamples();
    NormalExamples();
    SingleSpellingAdmitted("a/b");
    DoubleSpellingAdmitted("a//b");
  }

  lemma SingleSpellingAdmitted(raw: string)
    requires raw == "a/b" && SplitPath(raw) == ["a", "b"]
    ensures ValidateRelativePath(raw) == Success(Normal(["a", "b"]))
  {
    assert |".."| == 2 && |"a"| == |"b"| == 1;
    AdmittedByPieces(raw, ["a", "b"]);
  }

  lemma DoubleSpellingAdmitted(raw: string)
    requires raw == "a//b" && SplitPath(raw) == ["a", "", "b"]
    ensures ValidateRelativePath(raw) == Success(Normal(["a", "", "b"]))
  {
    assert |".."| == 2 && |"a"| == |"b"| == 1 && |""| == 0;
    AdmittedByPieces(raw, ["a", "", "b"]);
  }

  lemma AdmittedByPieces(raw: string, pieces: seq<string>)
    requires SplitPath(raw) == pieces && raw != "" && '\\' !in raw && ':' !in raw
    requires IsNormalPiece(pieces[0]) && ".." !in pieces
    ensures ValidateRelativePath(raw) == Success(Normal(pieces))
  {
  }

  lemma NormalExamples()
    ensures Normal(["a", "b"]) == Normal(["a", "", "b"]) == ["a", "b"]
  {
    NormalKeepsNormalPieces(["a", "b"]);
    NormalKeepsNormalPieces(["a"]);
    assert ["a", "", "b"][..2] == ["a", ""];
    assert ["a", ""][..1] == ["a"];
  }

  lemma SplitExamples()
    ensures SplitPath("a/b") == ["a", "b"]
    ensures SplitPath("a//b") == ["a", "", "b"]
  {
    SplitJoin(["a", "b"]);
    SplitJoin(["a", "", "b"]);
    assert ["a", "b"][..1] == ["a"];
    assert ["a", "", "b"][..2] == ["a", ""];
    assert ["a", ""][..1] == ["a"];
    assert Join(["a", "b"]) == "a/b";
    assert Join(["a", "", "b"]) == "a//b";
  }
}

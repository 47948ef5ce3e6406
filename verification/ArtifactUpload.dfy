/** The resumable multipart upload session: a revisioned state machine whose finalization checks
    that the recorded parts make up the expected object. */
module ArtifactUpload {
  import opened Common
  import opened PartArithmetic
  import StableSort
  import TenantScope

  datatype State = Open | Finalizing | Completed | Aborted | Expired

  datatype VerifiedObject = VerifiedObject(opaqueLocator: string, objectVersionId: string)

  datatype Part = Part(partNumber: int, contentSha256: string, byteSize: int, uploadedAt: string)

  datatype Identity = Identity(
    sessionId: string,
    artifactId: string,
    artifactVersionId: string,
    intakeId: string,
    policyVersionId: string)

  datatype Session = Session(
    identity: Identity,
    authorizationEpoch: int,
    tenantScope: TenantScope.TenantScope,
    expectedSha256: string,
    expectedByteSize: int,
    mediaType: string,
    partSize: int,
    totalParts: int,
    parts: seq<Part>,
    state: State,
    verifiedObject: Option<VerifiedObject>,
    createdAt: string,
    expiresAt: string,
    revision: int)

  datatype UploadError =
    | InvalidIdentifier | InvalidScope | InvalidTimestamp | InvalidHash | InvalidSize | InvalidMediaType
    | InvalidPart | InvalidState | RevisionConflict | MissingParts | SizeMismatch | DigestMismatch | PastExpiry

  /** The text formats and the clock: `dateParse` is `Date.parse`, `None` where it is NaN. */
  datatype Formats = Formats(
    dateParse: string -> Option<int>,
    isTimestamp: string -> bool,
    isHash: string -> bool,
    isLocator: string -> bool,
    isObjectVersion: string -> bool)
  {
    predicate After(a: string, b: string) {
      dateParse(a).Some? && dateParse(b).Some? && dateParse(a).value > dateParse(b).value
    }

    predicate NotAfter(a: string, b: string) {
      dateParse(a).Some? && dateParse(b).Some? && dateParse(a).value <= dateParse(b).value
    }
  }

  /** Session input; `identity`, the scope and the media type are `None` when a parser rejects them. */
  datatype CreateInput = CreateInput(
    identity: Option<Identity>,
    authorizationEpoch: int,
    tenantScope: Option<TenantScope.TenantScope>,
    expectedSha256: string,
    expectedByteSize: int,
    mediaType: Option<string>,
    partSize: int,
    createdAt: string,
    expiresAt: string)

  const MAX_PART_SIZE: nat := 1024 * 1024 * 1024
  const MAX_PARTS: nat := 10000

  function Create(fmt: Formats, input: CreateInput): Result<Session, UploadError> {
    if input.identity.None? then Rejected(InvalidIdentifier)
    else if !SafeInteger(input.authorizationEpoch) || input.authorizationEpoch < 1 then Rejected(InvalidState)
    else if input.tenantScope.None? then Rejected(InvalidScope)
    else if !fmt.isHash(input.expectedSha256) then Rejected(InvalidHash)
    else if !SafeInteger(input.expectedByteSize) || input.expectedByteSize < 0 then Rejected(InvalidSize)
    else if !SafeInteger(input.partSize) || input.partSize <= 0 || input.partSize > MAX_PART_SIZE then Rejected(InvalidSize)
    else if input.mediaType.None? then Rejected(InvalidMediaType)
    else if !fmt.isTimestamp(input.createdAt) || !fmt.isTimestamp(input.expiresAt)
            || fmt.NotAfter(input.expiresAt, input.createdAt) then Rejected(InvalidTimestamp)
    else
      var totalParts := Max(1, CeilDiv(input.expectedByteSize, input.partSize));
      if totalParts > MAX_PARTS then Rejected(InvalidSize)
      else Accepted(Session(
        input.identity.value, input.authorizationEpoch, input.tenantScope.value, input.expectedSha256,
        input.expectedByteSize, input.mediaType.value, input.partSize, totalParts, [], Open, None,
        input.createdAt, input.expiresAt, 1))
  }

  predicate ByNumber(a: Part, b: Part) {
    a.partNumber <= b.partNumber
  }

  function FindPart(parts: seq<Part>, partNumber: int): Option<Part> {
    if parts == [] then None
    else if parts[0].partNumber == partNumber then Some(parts[0])
    else FindPart(parts[1..], partNumber)
  }

  predicate ValidPart(fmt: Formats, s: Session, part: Part) {
    && SafeInteger(part.partNumber) && 1 <= part.partNumber <= s.totalParts
    && fmt.isHash(part.contentSha256)
    && SafeInteger(part.byteSize) && 0 <= part.byteSize <= s.partSize
    && fmt.isTimestamp(part.uploadedAt)
    && (part.partNumber < s.totalParts ==> part.byteSize == s.partSize)
  }

  function RecordPart(fmt: Formats, s: Session, part: Part, expectedRevision: int): Result<Session, UploadError> {
    if s.state != Open then Rejected(InvalidState)
    else if fmt.After(part.uploadedAt, s.expiresAt) then Rejected(PastExpiry)
    else if expectedRevision != s.revision then Rejected(RevisionConflict)
    else if !ValidPart(fmt, s, part) then Rejected(InvalidPart)
    else
      match FindPart(s.parts, part.partNumber)
      case Some(existing) =>
        if existing.contentSha256 == part.contentSha256 && existing.byteSize == part.byteSize then Accepted(s)
        else Rejected(DigestMismatch)
      case None =>
        Accepted(s.(parts := StableSort.Sort(ByNumber, s.parts + [part]), revision := s.revision + 1))
  }

  function TotalBytes(parts: seq<Part>): int {
    if parts == [] then 0 else TotalBytes(parts[..|parts| - 1]) + parts[|parts| - 1].byteSize
  }

  function BeginFinalization(fmt: Formats, s: Session, assembledSha256: string, expectedRevision: int)
    : Result<Session, UploadError>
  {
    if s.state != Open then Rejected(InvalidState)
    else if expectedRevision != s.revision then Rejected(RevisionConflict)
    else if !fmt.isHash(assembledSha256) then Rejected(InvalidHash)
    else if |s.parts| != s.totalParts then Rejected(MissingParts)
    else if exists i :: 0 <= i < |s.parts| && s.parts[i].partNumber != i + 1 then Rejected(MissingParts)
    else if TotalBytes(s.parts) != s.expectedByteSize then Rejected(SizeMismatch)
    else if assembledSha256 != s.expectedSha256 then Rejected(DigestMismatch)
    else Accepted(s.(state := Finalizing, revision := s.revision + 1))
  }

  function CompleteFinalization(fmt: Formats, s: Session, opaqueLocator: string, objectVersionId: string,
                                expectedRevision: int): Result<Session, UploadError>
  {
    if s.state != Finalizing then Rejected(InvalidState)
    else if expectedRevision != s.revision then Rejected(RevisionConflict)
    else if !fmt.isLocator(opaqueLocator) || !fmt.isObjectVersion(objectVersionId) then Rejected(InvalidState)
    else Accepted(s.(state := Completed, verifiedObject := Some(VerifiedObject(opaqueLocator, objectVersionId)),
                     revision := s.revision + 1))
  }

  function Abort(s: Session, expectedRevision: int): Result<Session, UploadError> {
    if s.state != Open && s.state != Finalizing then Rejected(InvalidState)
    else if expectedRevision != s.revision then Rejected(RevisionConflict)
    else Accepted(s.(state := Aborted, revision := s.revision + 1))
  }

  function Expire(fmt: Formats, s: Session, now: string): Result<Session, UploadError> {
    if !fmt.isTimestamp(now) then Rejected(InvalidTimestamp)
    else if s.state != Open && s.state != Finalizing then Rejected(InvalidState)
    else if fmt.After(s.expiresAt, now) then Rejected(InvalidTimestamp)
    else Accepted(s.(state := Expired, revision := s.revision + 1))
  }

  // ---- runs ------------------------------------------------------------------------------

  datatype Operation =
    | Record(part: Part, expectedRevision: int)
    | Begin(assembledSha256: string, expectedRevision: int)
    | Complete(opaqueLocator: string, objectVersionId: string, expectedRevision: int)
    | AbortOp(expectedRevision: int)
    | ExpireOp(now: string)

  function Apply(fmt: Formats, s: Session, op: Operation): Result<Session, UploadError> {
    match op
    case Record(part, r) => RecordPart(fmt, s, part, r)
    case Begin(sha, r) => BeginFinalization(fmt, s, sha, r)
    case Complete(l, v, r) => CompleteFinalization(fmt, s, l, v, r)
    case AbortOp(r) => Abort(s, r)
    case ExpireOp(now) => Expire(fmt, s, now)
  }

  /** A caller keeps its session when an operation is rejected. */
  function Step(fmt: Formats, s: Session, op: Operation): Session {
    match Apply(fmt, s, op)
    case Rejected(_) => s
    case Accepted(s') => s'
  }

  function Run(fmt: Formats, s: Session, ops: seq<Operation>): Session {
    if ops == [] then s else Step(fmt, Run(fmt, s, ops[..|ops| - 1]), ops[|ops| - 1])
  }

  /** How many operations of a run changed the session. */
  function Changes(fmt: Formats, s: Session, ops: seq<Operation>): nat {
    if ops == [] then 0
    else
      var before := Run(fmt, s, ops[..|ops| - 1]);
      Changes(fmt, s, ops[..|ops| - 1]) + if Step(fmt, before, ops[|ops| - 1]) != before then 1 else 0
  }

  // ---- the invariant ---------------------------------------------------------------------

  predicate PartFits(s: Session, part: Part) {
    && 1 <= part.partNumber <= s.totalParts
    && 0 <= part.byteSize <= s.partSize
    && (part.partNumber < s.totalParts ==> part.byteSize == s.partSize)
  }

  ghost predicate Increasing(parts: seq<Part>) {
    forall i, j :: 0 <= i < j < |parts| ==> parts[i].partNumber < parts[j].partNumber
  }

  ghost predicate HoldsAllParts(s: Session) {
    && |s.parts| == s.totalParts >= 1
    && (forall i :: 0 <= i < |s.parts| ==> s.parts[i].partNumber == i + 1)
    && s.parts[|s.parts| - 1].byteSize == s.expectedByteSize - s.partSize * (s.totalParts - 1)
  }

  /** What every reachable session is. */
  ghost predicate Valid(s: Session) {
    && 0 < s.partSize <= MAX_PART_SIZE && 0 <= s.expectedByteSize
    && s.totalParts == Max(1, CeilDiv(s.expectedByteSize, s.partSize)) && s.totalParts <= MAX_PARTS
    && Increasing(s.parts)
    && (forall i :: 0 <= i < |s.parts| ==> PartFits(s, s.parts[i]))
    && (s.state == Finalizing || s.state == Completed ==> HoldsAllParts(s))
    && (s.state == Completed <==> s.verifiedObject.Some?)
  }

  lemma CreatedIsValid(fmt: Formats, input: CreateInput)
    requires Create(fmt, input).Accepted?
    ensures var s := Create(fmt, input).value;
            Valid(s) && s.state == Open && s.revision == 1 && s.parts == []
            && input.identity == Some(s.identity) && input.expectedByteSize == s.expectedByteSize
            && input.partSize == s.partSize && input.expectedSha256 == s.expectedSha256
  {
  }

  lemma ByNumberIsTotal()
    ensures StableSort.TotalPreorder(ByNumber)
  {
  }

  lemma {:induction false} FindPartFinds(parts: seq<Part>, partNumber: int)
    ensures match FindPart(parts, partNumber)
            case Some(p) => p in parts && p.partNumber == partNumber
            case None => forall p :: p in parts ==> p.partNumber != partNumber
  {
    if parts != [] {
      FindPartFinds(parts[1..], partNumber);
      assert parts == [parts[0]] + parts[1..];
    }
  }

  ghost predicate NumbersDistinct(parts: seq<Part>) {
    forall i, j :: 0 <= i < |parts| && 0 <= j < |parts| && i != j ==> parts[i].partNumber != parts[j].partNumber
  }

  lemma DistinctSeparates(parts: seq<Part>)
    requires NumbersDistinct(parts)
    ensures StableSort.Separates(ByNumber, parts)
  {
  }

  /** Sorting parts with distinct numbers puts them in strictly increasing order. */
  lemma SortIncreases(parts: seq<Part>)
    requires NumbersDistinct(parts)
    ensures Increasing(StableSort.Sort(ByNumber, parts))
    ensures forall p :: p in StableSort.Sort(ByNumber, parts) <==> p in parts
  {
    var r := StableSort.Sort(ByNumber, parts);
    ByNumberIsTotal();
    StableSort.SortSorts(ByNumber, parts);
    StableSort.SortPermutes(ByNumber, parts);
    forall p
      ensures p in r <==> p in parts
    {
      assert p in r <==> p in multiset(r);
      assert p in parts <==> p in multiset(parts);
    }
    forall i, j | 0 <= i < j < |r|
      ensures r[i].partNumber < r[j].partNumber
    {
      assert ByNumber(r[i], r[j]);
      if r[i].partNumber == r[j].partNumber {
        SameNumberSamePart(parts, r[i], r[j]);
        StableSort.OccursTwice(r, i, j);
        var k :| 0 <= k < |parts| && parts[k] == r[i];
        assert forall m :: 0 <= m < |parts| && m != k ==> parts[m].partNumber != parts[k].partNumber;
        StableSort.OccursOnce(parts, k);
      }
    }
  }

  lemma SameNumberSamePart(parts: seq<Part>, p: Part, q: Part)
    requires NumbersDistinct(parts) && p in parts && q in parts && p.partNumber == q.partNumber
    ensures p == q
  {
    var i :| 0 <= i < |parts| && parts[i] == p;
    var j :| 0 <= j < |parts| && parts[j] == q;
    assert i == j;
  }

  lemma NewPartIsDistinct(parts: seq<Part>, part: Part)
    requires Increasing(parts) && FindPart(parts, part.partNumber).None?
    ensures NumbersDistinct(parts + [part])
  {
    FindPartFinds(parts, part.partNumber);
    var more := parts + [part];
    forall i, j | 0 <= i < j < |more|
      ensures more[i].partNumber != more[j].partNumber
    {
      assert parts[i] in parts;
    }
  }

  lemma RecordStaysValid(fmt: Formats, s: Session, part: Part, expectedRevision: int)
    requires Valid(s) && RecordPart(fmt, s, part, expectedRevision).Accepted?
    ensures Valid(RecordPart(fmt, s, part, expectedRevision).value)
  {
    if FindPart(s.parts, part.partNumber).None? {
      NewPartIsDistinct(s.parts, part);
      SortIncreases(s.parts + [part]);
      var s' := RecordPart(fmt, s, part, expectedRevision).value;
      forall i | 0 <= i < |s'.parts|
        ensures PartFits(s', s'.parts[i])
      {
        assert s'.parts[i] in s'.parts && s'.parts[i] in s.parts + [part];
        assert s'.parts[i] == part || s'.parts[i] in s.parts;
      }
    }
  }

  /** `n` increasing numbers from 1 to `n` are 1, 2, ..., n. */
  lemma {:induction false} FullNumbersCount(parts: seq<Part>, n: nat, i: nat)
    requires Increasing(parts) && |parts| == n && i < n
    requires forall k :: 0 <= k < n ==> 1 <= parts[k].partNumber <= n
    ensures parts[i].partNumber == i + 1
  {
    AtLeast(parts, i);
    AtMost(parts, n, i);
  }

  lemma {:induction false} AtLeast(parts: seq<Part>, i: nat)
    requires Increasing(parts) && i < |parts|
    requires forall k :: 0 <= k < |parts| ==> 1 <= parts[k].partNumber
    ensures parts[i].partNumber >= i + 1
  {
    if i > 0 {
      AtLeast(parts, i - 1);
      assert parts[i - 1].partNumber < parts[i].partNumber;
    }
  }

  lemma {:induction false} AtMost(parts: seq<Part>, n: nat, i: nat)
    requires Increasing(parts) && |parts| == n && i < n
    requires forall k :: 0 <= k < n ==> parts[k].partNumber <= n
    ensures parts[i].partNumber <= i + 1
    decreases n - i
  {
    if i + 1 < n {
      AtMost(parts, n, i + 1);
      assert parts[i].partNumber < parts[i + 1].partNumber;
    }
  }

  lemma {:induction false} FullPartsTotal(parts: seq<Part>, size: int)
    requires forall i :: 0 <= i < |parts| ==> parts[i].byteSize == size
    ensures TotalBytes(parts) == size * |parts|
  {
    if parts != [] {
      FullPartsTotal(parts[..|parts| - 1], size);
    }
  }

  lemma {:induction false} TotalIsBounded(parts: seq<Part>, size: nat)
    requires forall i :: 0 <= i < |parts| ==> 0 <= parts[i].byteSize <= size
    ensures 0 <= TotalBytes(parts) <= size * |parts|
  {
    if parts != [] {
      TotalIsBounded(parts[..|parts| - 1], size);
    }
  }

  /** No sum of a valid session's parts leaves the safe integers. */
  lemma TotalsAreSafe(s: Session, n: nat)
    requires Valid(s) && n <= |s.parts|
    ensures 0 <= TotalBytes(s.parts[..n]) <= 10737418240000 < MAX_SAFE_INTEGER
  {
    TotalIsBounded(s.parts[..n], s.partSize);
    forall i | 0 <= i < |s.parts|
      ensures 1 <= s.parts[i].partNumber <= s.totalParts
    {
      assert PartFits(s, s.parts[i]);
    }
    if |s.parts| > 0 {
      AtLeast(s.parts, |s.parts| - 1);
      assert |s.parts| <= s.totalParts;
    }
    ProductBound(s.partSize, n, MAX_PART_SIZE, MAX_PARTS);
  }

  /** With all parts present the size check looks at the last part only: it passes exactly when
      that part is what the other, full parts leave over, and that much always fits. */
  lemma SizeCheckDecides(s: Session)
    requires Valid(s) && |s.parts| == s.totalParts
    ensures forall i :: 0 <= i < |s.parts| ==> s.parts[i].partNumber == i + 1
    ensures TotalBytes(s.parts) == s.expectedByteSize
            <==> s.parts[|s.parts| - 1].byteSize == s.expectedByteSize - s.partSize * (s.totalParts - 1)
    ensures 0 <= s.expectedByteSize - s.partSize * (s.totalParts - 1) <= s.partSize
  {
    var n := s.totalParts;
    forall i | 0 <= i < n
      ensures s.parts[i].partNumber == i + 1 && (i < n - 1 ==> s.parts[i].byteSize == s.partSize)
    {
      assert forall k :: 0 <= k < n ==> PartFits(s, s.parts[k]);
      FullNumbersCount(s.parts, n, i);
      assert PartFits(s, s.parts[i]);
    }
    FullPartsTotal(s.parts[..n - 1], s.partSize);
    LastPartRoom(s.expectedByteSize, s.partSize, n);
  }

  lemma StepStaysValid(fmt: Formats, s: Session, op: Operation)
    requires Valid(s)
    ensures Valid(Step(fmt, s, op))
  {
    if Apply(fmt, s, op).Accepted? {
      match op
      case Record(part, r) => RecordStaysValid(fmt, s, part, r);
      case Begin(sha, r) => SizeCheckDecides(s);
      case _ =>
    }
  }

  /** Every session any run can reach keeps its parts in order, in range and of the right sizes;
      one that is finalizing or completed holds all of them, adding up to the expected size. */
  lemma {:induction false} RunStaysValid(fmt: Formats, s: Session, ops: seq<Operation>)
    requires Valid(s)
    ensures Valid(Run(fmt, s, ops))
  {
    if ops != [] {
      RunStaysValid(fmt, s, ops[..|ops| - 1]);
      StepStaysValid(fmt, Run(fmt, s, ops[..|ops| - 1]), ops[|ops| - 1]);
    }
  }

  lemma FinalizedAddsUp(s: Session)
    requires Valid(s) && (s.state == Finalizing || s.state == Completed)
    ensures TotalBytes(s.parts) == s.expectedByteSize
  {
    SizeCheckDecides(s);
  }

  /** A finalizing or completed session was begun with the expected digest. */
  lemma {:induction false} FinalizedCheckedDigest(fmt: Formats, s: Session, ops: seq<Operation>) returns (k: nat)
    requires s.state == Open && Run(fmt, s, ops).state in {Finalizing, Completed}
    ensures k < |ops| && ops[k].Begin? && ops[k].assembledSha256 == s.expectedSha256
    ensures Apply(fmt, Run(fmt, s, ops[..k]), ops[k]).Accepted?
  {
    var init := ops[..|ops| - 1];
    var before := Run(fmt, s, init);
    KeepsTerms(fmt, s, init);
    if before.state in {Finalizing, Completed} {
      k := FinalizedCheckedDigest(fmt, s, init);
      assert init[..k] == ops[..k];
    } else {
      k := |ops| - 1;
    }
  }

  /** What was agreed at creation never changes. */
  lemma {:induction false} KeepsTerms(fmt: Formats, s: Session, ops: seq<Operation>)
    ensures var t := Run(fmt, s, ops);
            t == s.(parts := t.parts, state := t.state, verifiedObject := t.verifiedObject, revision := t.revision)
  {
    if ops != [] {
      KeepsTerms(fmt, s, ops[..|ops| - 1]);
    }
  }

  /** The revision counts the changes. */
  lemma {:induction false} RevisionCountsChanges(fmt: Formats, s: Session, ops: seq<Operation>)
    ensures Run(fmt, s, ops).revision == s.revision + Changes(fmt, s, ops)
  {
    if ops != [] {
      RevisionCountsChanges(fmt, s, ops[..|ops| - 1]);
    }
  }

  /** Completed, aborted and expired sessions refuse everything, for ever. */
  lemma {:induction false} TerminalStatesAbsorb(fmt: Formats, s: Session, ops: seq<Operation>)
    requires s.state in {Completed, Aborted, Expired}
    ensures Run(fmt, s, ops) == s
    ensures forall op :: Apply(fmt, s, op).Rejected?
  {
    if ops != [] {
      TerminalStatesAbsorb(fmt, s, ops[..|ops| - 1]);
    }
  }

  /** Each accepted operation moves along one edge of the life cycle. */
  lemma LifeCycle(fmt: Formats, s: Session, op: Operation)
    requires Apply(fmt, s, op).Accepted?
    ensures var after := Apply(fmt, s, op).value.state;
            match op
            case Record(_, _) => s.state == Open && after == Open
            case Begin(_, _) => s.state == Open && after == Finalizing
            case Complete(_, _, _) => s.state == Finalizing && after == Completed
            case AbortOp(_) => s.state in {Open, Finalizing} && after == Aborted
            case ExpireOp(now) => s.state in {Open, Finalizing} && after == Expired && !fmt.After(s.expiresAt, now)
  {
  }

  // ---- which operations are accepted -----------------------------------------------------

  /** Both times are known and `time` is the later one. */
  predicate Past(fmt: Formats, time: string, limit: string) {
    var (t, l) := (fmt.dateParse(time), fmt.dateParse(limit));
    t.Some? && l.Some? && t.value > l.value
  }

  /** Every recorded part of this number is this part, whenever it was uploaded. */
  ghost predicate SameWhereRecorded(s: Session, part: Part) {
    forall p :: p in s.parts && p.partNumber == part.partNumber
      ==> p.contentSha256 == part.contentSha256 && p.byteSize == part.byteSize
  }

  ghost predicate Recorded(s: Session, part: Part) {
    exists p :: p in s.parts && p.partNumber == part.partNumber
  }

  /** Recording is accepted if and only if the session is open, the part was not uploaded after the
      expiry, the revision is the session's own, the part is well formed and fits its place, and
      what is recorded under its number is the same content. Otherwise the code names the first of
      these that fails; other content under a recorded number is a digest mismatch. */
  lemma RecordAcceptedIff(fmt: Formats, s: Session, part: Part, expectedRevision: int)
    requires Valid(s)
    ensures var r := RecordPart(fmt, s, part, expectedRevision);
            var intime := s.state == Open && !Past(fmt, part.uploadedAt, s.expiresAt);
            var current := intime && expectedRevision == s.revision;
            var fits := current && fmt.isHash(part.contentSha256) && fmt.isTimestamp(part.uploadedAt) && PartFits(s, part);
            && (r.Accepted? <==> fits && SameWhereRecorded(s, part))
            && (r == Rejected(InvalidState) <==> s.state != Open)
            && (r == Rejected(PastExpiry) <==> s.state == Open && !intime)
            && (r == Rejected(RevisionConflict) <==> intime && !current)
            && (r == Rejected(InvalidPart) <==> current && !fits)
            && (r == Rejected(DigestMismatch) <==> fits && !SameWhereRecorded(s, part))
  {
    FindPartFinds(s.parts, part.partNumber);
    IncreasingIsDistinct(s.parts);
    var found := FindPart(s.parts, part.partNumber);
    forall p | p in s.parts && p.partNumber == part.partNumber
      ensures found == Some(p)
    {
      SameNumberSamePart(s.parts, p, found.value);
    }
  }

  /** An accepted recording of a recorded number gives the session itself; that of a new one adds
      this one part in its place and raises the revision. */
  lemma RecordAddsThePart(fmt: Formats, s: Session, part: Part, expectedRevision: int)
    requires Valid(s) && RecordPart(fmt, s, part, expectedRevision).Accepted?
    ensures var t := RecordPart(fmt, s, part, expectedRevision).value;
            if Recorded(s, part) then t == s
            else && t == s.(parts := t.parts, revision := s.revision + 1)
                 && multiset(t.parts) == multiset(s.parts) + multiset{part} && Increasing(t.parts)
  {
    FindPartFinds(s.parts, part.partNumber);
    if !Recorded(s, part) {
      NewPartIsDistinct(s.parts, part);
      SortIncreases(s.parts + [part]);
      ByNumberIsTotal();
      StableSort.SortPermutes(ByNumber, s.parts + [part]);
    }
  }

  /** Creation is accepted if and only if every field parses, the sizes are safe integers in their
      limits, the expiry is not known to be at or before the creation, and at most 10,000 parts are
      needed. The refusals come in the order of the fields. */
  lemma CreateAcceptedIff(fmt: Formats, input: CreateInput)
    ensures var r := Create(fmt, input);
            var known := input.identity.Some?;
            var authorized := known && 1 <= input.authorizationEpoch <= MAX_SAFE_INTEGER;
            var scoped := authorized && input.tenantScope.Some?;
            var hashed := scoped && fmt.isHash(input.expectedSha256);
            var sized := hashed && 0 <= input.expectedByteSize <= MAX_SAFE_INTEGER && 0 < input.partSize <= 1073741824;
            var typed := sized && input.mediaType.Some?;
            var dated := typed && fmt.isTimestamp(input.createdAt) && fmt.isTimestamp(input.expiresAt)
                         && (Past(fmt, input.expiresAt, input.createdAt)
                             || fmt.dateParse(input.createdAt).None? || fmt.dateParse(input.expiresAt).None?);
            var few := dated && input.expectedByteSize <= 10000 * input.partSize;
            && (r.Accepted? <==> few)
            && (r == Rejected(InvalidIdentifier) <==> !known)
            && (r == Rejected(InvalidState) <==> known && !authorized)
            && (r == Rejected(InvalidScope) <==> authorized && !scoped)
            && (r == Rejected(InvalidHash) <==> scoped && !hashed)
            && (r == Rejected(InvalidSize) <==> (hashed && !sized) || (dated && !few))
            && (r == Rejected(InvalidMediaType) <==> sized && !typed)
            && (r == Rejected(InvalidTimestamp) <==> typed && !dated)
  {
    if input.expectedByteSize >= 0 && input.partSize > 0 {
      CeilDivAtMost(input.expectedByteSize, input.partSize, MAX_PARTS);
    }
  }

  /** A created session is open, empty, at revision 1 and has the agreed terms; its parts are the
      fewest, and at least one, that hold the expected bytes. */
  lemma CreatedHasTheTerms(fmt: Formats, input: CreateInput, n: int)
    requires Create(fmt, input).Accepted?
    ensures var s := Create(fmt, input).value;
            && s == Session(input.identity.value, input.authorizationEpoch, input.tenantScope.value, input.expectedSha256,
                            input.expectedByteSize, input.mediaType.value, input.partSize, s.totalParts, [], Open, None,
                            input.createdAt, input.expiresAt, 1)
            && (n >= s.totalParts <==> n >= 1 && n * s.partSize >= s.expectedByteSize)
  {
    CeilDivAtMost(input.expectedByteSize, input.partSize, n);
  }

  /** Finalization begins if and only if the session is open, the revision its own, the digest well
      formed, the parts are numbers 1 to the last in order, their bytes the expected size and the
      digest the expected one. */
  lemma BeginAcceptedIff(fmt: Formats, s: Session, assembledSha256: string, expectedRevision: int)
    ensures var r := BeginFinalization(fmt, s, assembledSha256, expectedRevision);
            var current := s.state == Open && expectedRevision == s.revision;
            var hashed := current && fmt.isHash(assembledSha256);
            var whole := hashed && |s.parts| == s.totalParts && forall i :: 0 <= i < |s.parts| ==> s.parts[i].partNumber == i + 1;
            var sized := whole && TotalBytes(s.parts) == s.expectedByteSize;
            var matched := sized && assembledSha256 == s.expectedSha256;
            && (r.Accepted? <==> matched)
            && (r.Accepted? ==> r.value == s.(state := Finalizing, revision := s.revision + 1))
            && (r == Rejected(InvalidState) <==> s.state != Open)
            && (r == Rejected(RevisionConflict) <==> s.state == Open && !current)
            && (r == Rejected(InvalidHash) <==> current && !hashed)
            && (r == Rejected(MissingParts) <==> hashed && !whole)
            && (r == Rejected(SizeMismatch) <==> whole && !sized)
            && (r == Rejected(DigestMismatch) <==> sized && !matched)
  {
  }

  /** A session ends in one of three ways, each from its own states and under its own conditions,
      and nothing but state, revision and the verified object changes. */
  lemma EndingAcceptedIff(fmt: Formats, s: Session, locator: string, version: string, now: string, expectedRevision: int)
    ensures var r := CompleteFinalization(fmt, s, locator, version, expectedRevision);
            var current := s.state == Finalizing && expectedRevision == s.revision;
            && (r.Accepted? <==> current && fmt.isLocator(locator) && fmt.isObjectVersion(version))
            && (r.Accepted? ==> r.value == s.(state := Completed, revision := s.revision + 1,
                                              verifiedObject := Some(VerifiedObject(locator, version))))
            && (r == Rejected(RevisionConflict) <==> s.state == Finalizing && !current)
            && (r.Accepted? || r == Rejected(RevisionConflict) || r == Rejected(InvalidState))
    ensures var r := Abort(s, expectedRevision);
            var live := s.state == Open || s.state == Finalizing;
            && (r.Accepted? <==> live && expectedRevision == s.revision)
            && (r.Accepted? ==> r.value == s.(state := Aborted, revision := s.revision + 1))
            && (r == Rejected(InvalidState) <==> !live)
            && (r == Rejected(RevisionConflict) <==> live && expectedRevision != s.revision)
    ensures var r := Expire(fmt, s, now);
            var live := s.state == Open || s.state == Finalizing;
            && (r.Accepted? <==> fmt.isTimestamp(now) && live && !Past(fmt, s.expiresAt, now))
            && (r.Accepted? ==> r.value == s.(state := Expired, revision := s.revision + 1))
            && (r == Rejected(InvalidState) <==> fmt.isTimestamp(now) && !live)
            && (r.Accepted? || r == Rejected(InvalidState) || r == Rejected(InvalidTimestamp))
  {
  }

  // ---- order independence ----------------------------------------------------------------

  /** Records part after part, each at the revision it finds. */
  function RecordAll(fmt: Formats, s: Session, parts: seq<Part>): Session {
    if parts == [] then s
    else
      var before := RecordAll(fmt, s, parts[..|parts| - 1]);
      Step(fmt, before, Record(parts[|parts| - 1], before.revision))
  }

  /** Recording a recorded number again never changes anything: the same content is accepted and
      other content is refused. */
  lemma RerecordChangesNothing(fmt: Formats, s: Session, part: Part, again: Part)
    requires Valid(s) && part in s.parts && s.state == Open && again.partNumber == part.partNumber
    requires ValidPart(fmt, s, again) && !fmt.After(again.uploadedAt, s.expiresAt)
    ensures RecordPart(fmt, s, again, s.revision)
            == if again.(uploadedAt := part.uploadedAt) == part then Accepted(s) else Rejected(DigestMismatch)
  {
    RecordAcceptedIff(fmt, s, again, s.revision);
    if RecordPart(fmt, s, again, s.revision).Accepted? {
      RecordAddsThePart(fmt, s, again, s.revision);
    }
  }

  lemma IncreasingIsDistinct(parts: seq<Part>)
    requires Increasing(parts)
    ensures NumbersDistinct(parts)
  {
  }

  /** The parts a session does not have yet. */
  function Missing(s: Session, parts: seq<Part>): seq<Part> {
    if parts == [] then []
    else
      var init, last := Missing(s, parts[..|parts| - 1]), parts[|parts| - 1];
      if FindPart(s.parts, last.partNumber).None? then init + [last] else init
  }

  lemma {:induction false} MissingMembers(s: Session, parts: seq<Part>)
    ensures forall p :: p in Missing(s, parts) <==> p in parts && FindPart(s.parts, p.partNumber).None?
  {
    if parts != [] {
      MissingMembers(s, parts[..|parts| - 1]);
      assert parts == parts[..|parts| - 1] + [parts[|parts| - 1]];
    }
  }

  lemma {:induction false} MissingCounts(s: Session, parts: seq<Part>)
    ensures forall p :: multiset(Missing(s, parts))[p] == if FindPart(s.parts, p.partNumber).None? then multiset(parts)[p] else 0
  {
    if parts != [] {
      MissingCounts(s, parts[..|parts| - 1]);
      assert parts == parts[..|parts| - 1] + [parts[|parts| - 1]];
    }
  }

  lemma {:induction false} MissingDistinct(s: Session, parts: seq<Part>)
    requires NumbersDistinct(parts)
    ensures NumbersDistinct(s.parts) ==> NumbersDistinct(s.parts + Missing(s, parts))
  {
    if parts != [] && NumbersDistinct(s.parts) {
      var init, last := parts[..|parts| - 1], parts[|parts| - 1];
      MissingDistinct(s, init);
      MissingMembers(s, init);
      if FindPart(s.parts, last.partNumber).None? {
        var all := s.parts + Missing(s, init);
        FindPartFinds(s.parts, last.partNumber);
        assert s.parts + Missing(s, parts) == all + [last];
        forall i | 0 <= i < |all|
          ensures all[i].partNumber != last.partNumber
        {
          if i < |s.parts| {
            assert all[i] in s.parts;
          } else {
            assert all[i] in Missing(s, init);
            var k :| 0 <= k < |init| && init[k] == all[i];
            assert parts[k].partNumber != parts[|parts| - 1].partNumber;
          }
        }
      } else {
        assert Missing(s, parts) == Missing(s, init);
      }
    }
  }

  ghost predicate Acceptable(fmt: Formats, s: Session, parts: seq<Part>) {
    forall p :: p in parts ==> RecordPart(fmt, s, p, s.revision).Accepted?
  }

  lemma DistinctPrefix(all: seq<Part>, last: Part)
    requires NumbersDistinct(all + [last])
    ensures NumbersDistinct(all)
    ensures forall p :: p in all ==> p.partNumber != last.partNumber
  {
    var more := all + [last];
    assert forall i :: 0 <= i < |all| ==> more[i] == all[i];
    forall i | 0 <= i < |all|
      ensures all[i].partNumber != last.partNumber
    {
      assert more[i].partNumber != more[|all|].partNumber;
    }
    forall i, j | 0 <= i < |all| && 0 <= j < |all| && i != j
      ensures all[i].partNumber != all[j].partNumber
    {
      assert more[i].partNumber != more[j].partNumber;
    }
  }

  /** Sorting the sorted parts with one more sorts them all. */
  lemma SortOnce(all: seq<Part>, last: Part)
    requires NumbersDistinct(all + [last])
    ensures StableSort.Sort(ByNumber, StableSort.Sort(ByNumber, all) + [last]) == StableSort.Sort(ByNumber, all + [last])
  {
    var sorted := StableSort.Sort(ByNumber, all);
    ByNumberIsTotal();
    StableSort.SortPermutes(ByNumber, all);
    DistinctSeparates(all + [last]);
    StableSort.SortIgnoresOrder(ByNumber, all + [last], sorted + [last]);
  }

  lemma StillMissing(all: seq<Part>, last: Part)
    requires NumbersDistinct(all + [last])
    ensures FindPart(StableSort.Sort(ByNumber, all), last.partNumber) == None
  {
    DistinctPrefix(all, last);
    SortIncreases(all);
    FindPartFinds(StableSort.Sort(ByNumber, all), last.partNumber);
  }

  lemma RecordMissing(fmt: Formats, s: Session, t: Session, last: Part)
    requires RecordPart(fmt, s, last, s.revision).Accepted?
    requires t == s.(parts := t.parts, revision := t.revision)
    requires FindPart(t.parts, last.partNumber) == None
    ensures RecordPart(fmt, t, last, t.revision)
            == Accepted(t.(parts := StableSort.Sort(ByNumber, t.parts + [last]), revision := t.revision + 1))
  {
    assert ValidPart(fmt, t, last);
  }

  lemma RecordPresent(fmt: Formats, s: Session, t: Session, all: seq<Part>, last: Part)
    requires RecordPart(fmt, s, last, s.revision).Accepted?
    requires t == s.(parts := StableSort.Sort(ByNumber, all), revision := t.revision)
    requires FindPart(s.parts, last.partNumber).Some? && s.parts <= all && NumbersDistinct(all)
    ensures RecordPart(fmt, t, last, t.revision) == Accepted(t)
  {
    var had := FindPart(s.parts, last.partNumber).value;
    FindPartFinds(s.parts, last.partNumber);
    FindPartFinds(t.parts, last.partNumber);
    SortIncreases(all);
    assert had in all && had in t.parts;
    SameNumberSamePart(all, had, FindPart(t.parts, last.partNumber).value);
  }

  /** The outcome of recording a batch, said without an order. */
  lemma {:induction false} RecordAllIsOneSort(fmt: Formats, s: Session, parts: seq<Part>)
    requires Valid(s) && NumbersDistinct(parts) && Acceptable(fmt, s, parts)
    ensures RecordAll(fmt, s, parts)
            == s.(parts := StableSort.Sort(ByNumber, s.parts + Missing(s, parts)), revision := s.revision + |Missing(s, parts)|)
  {
    IncreasingIsDistinct(s.parts);
    if parts == [] {
      assert s.parts + [] == s.parts;
      StableSort.SortKeepsSorted(ByNumber, s.parts);
    } else {
      var init, last := parts[..|parts| - 1], parts[|parts| - 1];
      assert forall p :: p in init ==> p in parts;
      RecordAllIsOneSort(fmt, s, init);
      MissingDistinct(s, init);
      MissingDistinct(s, parts);
      var t, all := RecordAll(fmt, s, init), s.parts + Missing(s, init);
      if FindPart(s.parts, last.partNumber).None? {
        assert s.parts + Missing(s, parts) == all + [last];
        StillMissing(all, last);
        RecordMissing(fmt, s, t, last);
        SortOnce(all, last);
      } else {
        RecordPresent(fmt, s, t, all, last);
      }
    }
  }

  lemma MissingOfPermutation(s: Session, a: seq<Part>, b: seq<Part>)
    requires multiset(a) == multiset(b)
    ensures multiset(Missing(s, a)) == multiset(Missing(s, b)) && |Missing(s, a)| == |Missing(s, b)|
  {
    MissingCounts(s, a);
    MissingCounts(s, b);
    StableSort.SameMultisetSameLength(Missing(s, a), Missing(s, b));
  }

  lemma AcceptableOfPermutation(fmt: Formats, s: Session, a: seq<Part>, b: seq<Part>)
    requires multiset(a) == multiset(b) && Acceptable(fmt, s, a)
    ensures Acceptable(fmt, s, b)
  {
    forall p | p in b
      ensures p in a
    {
      assert p in multiset(a);
    }
  }

  /** Recording any batch of acceptable, distinctly numbered parts in any two orders, each part
      at the revision it finds, gives the same session, re-recorded parts included. */
  lemma RecordingIgnoresOrder(fmt: Formats, s: Session, a: seq<Part>, b: seq<Part>)
    requires Valid(s) && multiset(a) == multiset(b)
    requires NumbersDistinct(a) && NumbersDistinct(b) && Acceptable(fmt, s, a)
    ensures RecordAll(fmt, s, a) == RecordAll(fmt, s, b)
  {
    AcceptableOfPermutation(fmt, s, a, b);
    RecordAllIsOneSort(fmt, s, a);
    RecordAllIsOneSort(fmt, s, b);
    MissingOfPermutation(s, a, b);
    var x, y := s.parts + Missing(s, a), s.parts + Missing(s, b);
    IncreasingIsDistinct(s.parts);
    MissingDistinct(s, a);
    DistinctSeparates(x);
    ByNumberIsTotal();
    assert multiset(x) == multiset(y);
    StableSort.SortIgnoresOrder(ByNumber, x, y);
  }
}

/** The object-storage port's multipart plan: part arithmetic, receipts and the completion
    request, and how it agrees with the domain's upload session. */
module MultipartPlan {
  import opened Common
  import opened PartArithmetic
  import ArtifactUpload

  const MIN_PART_BYTES: int := 8 * 1024 * 1024
  const MAX_PART_BYTES: int := 64 * 1024 * 1024
  const MAX_OBJECT_BYTES: int := 20 * 1024 * 1024 * 1024
  const MAX_PARTS: int := 10000

  type Bytes = seq<bv8>

  /** The patterns of references and digests. */
  datatype Formats = Formats(isReference: string -> bool, isSha256: string -> bool)

  datatype ContractError = ProviderContractError

  datatype PlanInput = PlanInput(objectKey: string, expectedSha256: string, expectedByteLength: int, partSizeBytes: int)

  datatype Plan = Plan(
    objectKey: string,
    expectedSha256: string,
    expectedByteLength: int,
    partSizeBytes: int,
    maximumParts: int)

  predicate PositiveInteger(n: int, maximum: int) {
    SafeInteger(n) && 0 < n <= maximum
  }

  function DefinePlan(fmt: Formats, input: PlanInput): Result<Plan, ContractError> {
    if !fmt.isReference(input.objectKey) || !fmt.isSha256(input.expectedSha256)
       || !PositiveInteger(input.expectedByteLength, MAX_OBJECT_BYTES)
       || !PositiveInteger(input.partSizeBytes, MAX_PART_BYTES) || input.partSizeBytes < MIN_PART_BYTES
    then Rejected(ProviderContractError)
    else
      var maximumParts := CeilDiv(input.expectedByteLength, input.partSizeBytes);
      if maximumParts > MAX_PARTS then Rejected(ProviderContractError)
      else Accepted(Plan(input.objectKey, input.expectedSha256, input.expectedByteLength, input.partSizeBytes, maximumParts))
  }

  /** An upload handle; `handle` is its identity, `plan` the plan it was registered with. */
  datatype Upload = Upload(handle: nat, uploadRef: string, plan: Plan)

  datatype ObjectPart = ObjectPart(partNumber: int, content: Bytes, sha256: string)

  datatype ReceiptState = ReceiptState(upload: Upload, partNumber: int, sha256: string, byteLength: int, receiptRef: string)

  /** A receipt; `state` is what was registered for it, `None` for a forged one. */
  datatype Receipt = Receipt(partNumber: int, sha256: string, byteLength: int, receiptRef: string, state: Option<ReceiptState>)

  datatype CompleteRequest = CompleteRequest(
    upload: Upload,
    uploadRef: string,
    orderedParts: seq<Receipt>,
    expectedSha256: string,
    expectedByteLength: int)

  function DefinePart(fmt: Formats, partNumber: int, content: Bytes, sha256: string): Result<ObjectPart, ContractError> {
    if !PositiveInteger(partNumber, MAX_PARTS) || content == [] || |content| > MAX_PART_BYTES || !fmt.isSha256(sha256)
    then Rejected(ProviderContractError)
    else Accepted(ObjectPart(partNumber, content, sha256))
  }

  function ExpectedPartByteLength(plan: Plan, partNumber: int): Option<int> {
    if partNumber < 1 || partNumber > plan.maximumParts then None
    else if partNumber < plan.maximumParts then Some(plan.partSizeBytes)
    else Some(plan.expectedByteLength - plan.partSizeBytes * (plan.maximumParts - 1))
  }

  predicate PartBelongsToUpload(upload: Upload, part: ObjectPart) {
    ExpectedPartByteLength(upload.plan, part.partNumber) == Some(|part.content|)
  }

  function DefineUploadedPart(fmt: Formats, upload: Upload, part: ObjectPart, receiptRef: string)
    : Result<Receipt, ContractError>
  {
    if !fmt.isReference(receiptRef) || !PartBelongsToUpload(upload, part) then Rejected(ProviderContractError)
    else
      var state := ReceiptState(upload, part.partNumber, part.sha256, |part.content|, receiptRef);
      Accepted(Receipt(part.partNumber, part.sha256, |part.content|, receiptRef, Some(state)))
  }

  /** The receipt was registered for this upload and position, and still says what was registered. */
  predicate ReceiptFits(upload: Upload, receipt: Receipt, partNumber: int) {
    && receipt.state.Some?
    && receipt.state.value.upload == upload
    && receipt.state.value.partNumber == partNumber
    && ExpectedPartByteLength(upload.plan, partNumber) == Some(receipt.state.value.byteLength)
    && receipt.partNumber == receipt.state.value.partNumber
    && receipt.sha256 == receipt.state.value.sha256
    && receipt.byteLength == receipt.state.value.byteLength
    && receipt.receiptRef == receipt.state.value.receiptRef
  }

  /** Accepts exactly the complete, ordered list of this upload's own receipts. The total that is
      checked after the loop decides nothing: no list that passes the loop is refused. */
  method DefineCompleteRequest(fmt: Formats, upload: Upload, orderedParts: seq<Receipt>, idempotencyKeyPresent: bool)
    returns (r: Result<CompleteRequest, ContractError>)
    requires Defined(fmt, upload.plan)
    ensures r.Accepted? <==>
              && idempotencyKeyPresent && |orderedParts| == upload.plan.maximumParts
              && forall i :: 0 <= i < |orderedParts| ==> ReceiptFits(upload, orderedParts[i], i + 1)
    ensures r.Accepted? ==> r.value == CompleteRequest(upload, upload.uploadRef, orderedParts,
                                                       upload.plan.expectedSha256, upload.plan.expectedByteLength)
  {
    var plan := upload.plan;
    if |orderedParts| > 10000 || |orderedParts| != plan.maximumParts {
      CapUnreachable(fmt, plan);
      return Rejected(ProviderContractError);
    }
    if !idempotencyKeyPresent {
      return Rejected(ProviderContractError);
    }
    var totalByteLength := 0;
    var validatedParts: seq<Receipt> := [];
    for index := 0 to |orderedParts|
      invariant validatedParts == orderedParts[..index]
      invariant forall i :: 0 <= i < index ==> ReceiptFits(upload, orderedParts[i], i + 1)
      invariant totalByteLength == TotalOfParts(plan, index)
    {
      var receipt := orderedParts[index];
      var expectedPartNumber := index + 1;
      if receipt.state.None? {
        return Rejected(ProviderContractError);
      }
      var state := receipt.state.value;
      if state.upload != upload || state.partNumber != expectedPartNumber
         || ExpectedPartByteLength(plan, expectedPartNumber) != Some(state.byteLength)
         || receipt.partNumber != state.partNumber || receipt.sha256 != state.sha256
         || receipt.byteLength != state.byteLength || receipt.receiptRef != state.receiptRef {
        assert !ReceiptFits(upload, receipt, index + 1);
        return Rejected(ProviderContractError);
      }
      totalByteLength := totalByteLength + state.byteLength;
      validatedParts := validatedParts + [receipt];
    }
    PartsPartitionObject(fmt, plan);
    assert validatedParts == orderedParts;
    if totalByteLength != plan.expectedByteLength {
      assert false;
    }
    return Accepted(CompleteRequest(upload, upload.uploadRef, validatedParts, plan.expectedSha256, plan.expectedByteLength));
  }

  // ---- the parts of a plan ---------------------------------------------------------------

  /** The plan came out of `DefinePlan`. */
  ghost predicate Defined(fmt: Formats, plan: Plan) {
    exists input :: DefinePlan(fmt, input) == Accepted(plan)
  }

  /** The bytes of the first `n` parts. */
  ghost function TotalOfParts(plan: Plan, n: nat): int {
    if n == 0 then 0
    else TotalOfParts(plan, n - 1) + match ExpectedPartByteLength(plan, n) case Some(b) => b case None => 0
  }

  lemma PlanFacts(fmt: Formats, plan: Plan)
    requires Defined(fmt, plan)
    ensures 0 < plan.expectedByteLength <= MAX_OBJECT_BYTES
    ensures MIN_PART_BYTES <= plan.partSizeBytes <= MAX_PART_BYTES
    ensures plan.maximumParts == CeilDiv(plan.expectedByteLength, plan.partSizeBytes) >= 1
    ensures plan.partSizeBytes * (plan.maximumParts - 1) < plan.expectedByteLength <= plan.partSizeBytes * plan.maximumParts
  {
    CeilDivBounds(plan.expectedByteLength, plan.partSizeBytes);
  }

  /** The declared limits make the part cap unreachable: no plan within them has more than 2560
      parts, so the cap check never refuses one. */
  lemma CapUnreachable(fmt: Formats, plan: Plan)
    requires Defined(fmt, plan)
    ensures plan.maximumParts <= 2560 < MAX_PARTS
  {
    PlanFacts(fmt, plan);
    Scale(plan.maximumParts - 1, MIN_PART_BYTES, plan.partSizeBytes);
    assert MIN_PART_BYTES * (plan.maximumParts - 1) < MAX_OBJECT_BYTES;
  }

  /** Which inputs make a plan: the limits alone decide. The plan keeps the key, digest and sizes of
      its input, and has the fewest parts that hold the object. */
  lemma PlanGrantedIff(fmt: Formats, input: PlanInput, n: int)
    ensures DefinePlan(fmt, input).Accepted?
            <==> && fmt.isReference(input.objectKey) && fmt.isSha256(input.expectedSha256)
                 && 0 < input.expectedByteLength <= 21474836480
                 && 8388608 <= input.partSizeBytes <= 67108864
    ensures DefinePlan(fmt, input).Accepted? ==>
              var plan := DefinePlan(fmt, input).value;
              && plan == Plan(input.objectKey, input.expectedSha256, input.expectedByteLength, input.partSizeBytes, plan.maximumParts)
              && (plan.maximumParts <= n <==> plan.expectedByteLength <= n * plan.partSizeBytes)
  {
    if 0 < input.expectedByteLength <= MAX_OBJECT_BYTES && MIN_PART_BYTES <= input.partSizeBytes <= MAX_PART_BYTES {
      var c := CeilDiv(input.expectedByteLength, input.partSizeBytes);
      CeilDivBounds(input.expectedByteLength, input.partSizeBytes);
      CeilDivAtMost(input.expectedByteLength, input.partSizeBytes, n);
      Scale(c - 1, MIN_PART_BYTES, input.partSizeBytes);
      assert MIN_PART_BYTES * (c - 1) < MAX_OBJECT_BYTES;
      NonPositiveHoldsNothing(n, input.partSizeBytes);
    }
  }

  lemma NonPositiveHoldsNothing(n: int, size: int)
    requires size > 0
    ensures n < 1 ==> n * size <= 0
  {
  }

  lemma {:induction false} PrefixTotal(plan: Plan, n: nat)
    requires n < plan.maximumParts
    ensures TotalOfParts(plan, n) == plan.partSizeBytes * n
  {
    if n > 0 {
      PrefixTotal(plan, n - 1);
      assert plan.partSizeBytes * n == plan.partSizeBytes * (n - 1) + plan.partSizeBytes;
    }
  }

  /** The parts of a plan partition its object: none is empty, none exceeds the part size, and
      together they are exactly the expected bytes. */
  lemma PartsPartitionObject(fmt: Formats, plan: Plan)
    requires Defined(fmt, plan)
    ensures forall n :: 1 <= n <= plan.maximumParts ==>
              ExpectedPartByteLength(plan, n).Some? && 1 <= ExpectedPartByteLength(plan, n).value <= plan.partSizeBytes
    ensures TotalOfParts(plan, plan.maximumParts) == plan.expectedByteLength
  {
    PlanFacts(fmt, plan);
    PrefixTotal(plan, plan.maximumParts - 1);
    assert plan.partSizeBytes * plan.maximumParts == plan.partSizeBytes * (plan.maximumParts - 1) + plan.partSizeBytes;
  }

  // ---- split and join --------------------------------------------------------------------

  function PartLength(plan: Plan, n: int): nat {
    match ExpectedPartByteLength(plan, n)
    case Some(b) => if b < 0 then 0 else b
    case None => 0
  }

  /** Cuts content into the first `n` parts of the plan. */
  function Split(plan: Plan, content: Bytes, n: nat): seq<Bytes>
    decreases n
  {
    if n == 0 then []
    else
      var cut := if |content| <= PartLength(plan, n) then 0 else |content| - PartLength(plan, n);
      Split(plan, content[..cut], n - 1) + [content[cut..]]
  }

  function Join(chunks: seq<Bytes>): Bytes {
    if chunks == [] then [] else Join(chunks[..|chunks| - 1]) + chunks[|chunks| - 1]
  }

  ghost predicate CutToPlan(plan: Plan, chunks: seq<Bytes>) {
    forall i :: 0 <= i < |chunks| ==> ExpectedPartByteLength(plan, i + 1) == Some(|chunks[i]|)
  }

  ghost predicate LengthsDefined(plan: Plan, n: nat) {
    forall i :: 1 <= i <= n ==> ExpectedPartByteLength(plan, i).Some? && ExpectedPartByteLength(plan, i).value >= 0
  }

  lemma {:induction false} SplitThenJoin(plan: Plan, content: Bytes, n: nat)
    requires LengthsDefined(plan, n) && |content| == TotalOfParts(plan, n)
    ensures |Split(plan, content, n)| == n && CutToPlan(plan, Split(plan, content, n))
    ensures Join(Split(plan, content, n)) == content
    decreases n
  {
    if n > 0 {
      TotalIsNatural(plan, n - 1);
      var cut := |content| - PartLength(plan, n);
      SplitThenJoin(plan, content[..cut], n - 1);
      var init, chunks := Split(plan, content[..cut], n - 1), Split(plan, content, n);
      assert chunks == init + [content[cut..]];
      assert chunks[..|chunks| - 1] == init;
      assert content == content[..cut] + content[cut..];
    }
  }

  lemma {:induction false} TotalIsNatural(plan: Plan, n: nat)
    requires LengthsDefined(plan, n)
    ensures TotalOfParts(plan, n) >= 0
  {
    if n > 0 {
      TotalIsNatural(plan, n - 1);
    }
  }

  lemma {:induction false} JoinThenSplit(plan: Plan, chunks: seq<Bytes>)
    requires CutToPlan(plan, chunks)
    ensures |Join(chunks)| == TotalOfParts(plan, |chunks|)
    ensures Split(plan, Join(chunks), |chunks|) == chunks
  {
    if chunks != [] {
      var init, last := chunks[..|chunks| - 1], chunks[|chunks| - 1];
      JoinThenSplit(plan, init);
      assert ExpectedPartByteLength(plan, |init| + 1) == Some(|last|);
      var content := Join(chunks);
      assert content == Join(init) + last;
      assert content[..|Join(init)|] == Join(init) && content[|Join(init)|..] == last;
      assert chunks == init + [last];
    }
  }

  /** Splitting an object of the expected size into the plan's parts and joining them again is
      the identity, and so is joining parts cut to the plan and splitting them again. */
  lemma SplitAndJoinAreInverse(fmt: Formats, plan: Plan, content: Bytes, chunks: seq<Bytes>)
    requires Defined(fmt, plan)
    ensures |content| == plan.expectedByteLength ==>
              var parts := Split(plan, content, plan.maximumParts);
              && |parts| == plan.maximumParts && CutToPlan(plan, parts) && Join(parts) == content
    ensures |chunks| == plan.maximumParts && CutToPlan(plan, chunks) ==>
              |Join(chunks)| == plan.expectedByteLength && Split(plan, Join(chunks), plan.maximumParts) == chunks
  {
    PartsPartitionObject(fmt, plan);
    if |content| == plan.expectedByteLength {
      SplitThenJoin(plan, content, plan.maximumParts);
    }
    if |chunks| == plan.maximumParts && CutToPlan(plan, chunks) {
      JoinThenSplit(plan, chunks);
    }
  }

  /** A part is granted if and only if its number, its bytes and its digest are within the limits, and
      is what was asked for. */
  lemma PartGrantedIff(fmt: Formats, partNumber: int, content: Bytes, sha256: string)
    ensures var r := DefinePart(fmt, partNumber, content, sha256);
            && (r.Accepted? <==> 1 <= partNumber <= 10000 && 1 <= |content| <= 67108864 && fmt.isSha256(sha256))
            && (r.Accepted? ==> r.value == ObjectPart(partNumber, content, sha256))
  {
  }

  /** A receipt is granted if and only if the part has a number of the upload's plan and exactly the
      bytes the plan gives that number. It repeats the part's number, digest and length, and is
      registered with them for this upload. */
  lemma ReceiptGrantedIff(fmt: Formats, upload: Upload, part: ObjectPart, receiptRef: string)
    requires Defined(fmt, upload.plan)
    ensures var r, plan, n, length := DefineUploadedPart(fmt, upload, part, receiptRef), upload.plan, part.partNumber, |part.content|;
            && (r.Accepted? <==>
                  && fmt.isReference(receiptRef) && 1 <= n <= plan.maximumParts && 0 < length <= plan.partSizeBytes
                  && if n < plan.maximumParts then length == plan.partSizeBytes
                     else plan.partSizeBytes * (n - 1) + length == plan.expectedByteLength)
            && (r.Accepted? ==> r.value == Receipt(n, part.sha256, length, receiptRef,
                                                   Some(ReceiptState(upload, n, part.sha256, length, receiptRef))))
  {
    PlannedLength(fmt, upload.plan, part.partNumber, |part.content|);
  }

  lemma PlannedLength(fmt: Formats, plan: Plan, n: int, length: int)
    requires Defined(fmt, plan)
    ensures ExpectedPartByteLength(plan, n) == Some(length)
            <==> && 1 <= n <= plan.maximumParts && 0 < length <= plan.partSizeBytes
                 && if n < plan.maximumParts then length == plan.partSizeBytes
                    else plan.partSizeBytes * (n - 1) + length == plan.expectedByteLength
  {
    if 1 <= n <= plan.maximumParts {
      PartsPartitionObject(fmt, plan);
    }
  }

  /** The receipts completion takes at a place are those that were granted for this upload and a part
      of that number. */
  lemma FittingReceiptsWereGranted(fmt: Formats, upload: Upload, receipt: Receipt, partNumber: int)
    requires Defined(fmt, upload.plan) && fmt.isReference(receipt.receiptRef)
    ensures ReceiptFits(upload, receipt, partNumber)
            <==> exists part: ObjectPart :: part.partNumber == partNumber
                                && DefineUploadedPart(fmt, upload, part, receipt.receiptRef) == Accepted(receipt)
  {
    PartsPartitionObject(fmt, upload.plan);
    if ReceiptFits(upload, receipt, partNumber) {
      var part := ObjectPart(partNumber, seq(receipt.byteLength, _ => 0), receipt.sha256);
      assert DefineUploadedPart(fmt, upload, part, receipt.receiptRef) == Accepted(receipt);
    }
  }

  /** Any object of the expected size can be uploaded: its chunks make parts, the parts make
      receipts, and the receipts fit their positions in the completion request. */
  lemma ChunksMakeFittingReceipts(fmt: Formats, upload: Upload, content: Bytes, i: nat, sha256: string, receiptRef: string)
    requires Defined(fmt, upload.plan) && |content| == upload.plan.expectedByteLength && i < upload.plan.maximumParts
    requires fmt.isSha256(sha256) && fmt.isReference(receiptRef)
    ensures i < |Split(upload.plan, content, upload.plan.maximumParts)|
    ensures var chunk := Split(upload.plan, content, upload.plan.maximumParts)[i];
            && DefinePart(fmt, i + 1, chunk, sha256).Accepted?
            && var made := DefineUploadedPart(fmt, upload, DefinePart(fmt, i + 1, chunk, sha256).value, receiptRef);
               made.Accepted? && ReceiptFits(upload, made.value, i + 1) && made.value.byteLength == |chunk|
  {
    var plan := upload.plan;
    SplitAndJoinAreInverse(fmt, plan, content, []);
    PartsPartitionObject(fmt, plan);
    CapUnreachable(fmt, plan);
    PlanFacts(fmt, plan);
    var chunk := Split(plan, content, plan.maximumParts)[i];
    assert ExpectedPartByteLength(plan, i + 1) == Some(|chunk|);
  }

  // ---- the domain session ----------------------------------------------------------------

  /** For an object of positive size and the same part size, the two independent computations
      agree: a session that is being finalized has the plan's part count and its part lengths. */
  lemma FinalizedSessionMatchesPlan(fmt: Formats, plan: Plan, s: ArtifactUpload.Session)
    requires Defined(fmt, plan) && ArtifactUpload.Valid(s)
    requires s.state == ArtifactUpload.Finalizing || s.state == ArtifactUpload.Completed
    requires s.expectedByteSize == plan.expectedByteLength && s.partSize == plan.partSizeBytes
    ensures s.totalParts == plan.maximumParts == |s.parts|
    ensures forall i :: 0 <= i < |s.parts| ==>
              && s.parts[i].partNumber == i + 1
              && ExpectedPartByteLength(plan, i + 1) == Some(s.parts[i].byteSize)
  {
    PlanFacts(fmt, plan);
    ArtifactUpload.SizeCheckDecides(s);
    forall i | 0 <= i < |s.parts|
      ensures ExpectedPartByteLength(plan, i + 1) == Some(s.parts[i].byteSize)
    {
      assert ArtifactUpload.PartFits(s, s.parts[i]);
    }
  }

  /** Conversely, an open session holding every part in the plan's lengths passes the session's
      own count, order and size checks: only the digest is left to decide. */
  lemma PlannedPartsFinalize(fmt: Formats, upload: ArtifactUpload.Formats, plan: Plan, s: ArtifactUpload.Session)
    requires Defined(fmt, plan) && ArtifactUpload.Valid(s) && s.state == ArtifactUpload.Open
    requires s.expectedByteSize == plan.expectedByteLength && s.partSize == plan.partSizeBytes
    requires |s.parts| == plan.maximumParts
    requires forall i :: 0 <= i < |s.parts| ==> ExpectedPartByteLength(plan, i + 1) == Some(s.parts[i].byteSize)
    requires upload.isHash(s.expectedSha256)
    ensures ArtifactUpload.BeginFinalization(upload, s, s.expectedSha256, s.revision).Accepted?
  {
    PlanFacts(fmt, plan);
    ArtifactUpload.SizeCheckDecides(s);
  }
}

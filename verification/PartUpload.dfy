/** Resuming a multipart upload: the parts the service already has and the parts still to send tile the artifact. */
module PartUpload {
  import opened Common

  const MAX_PART_BYTES := 64 * 1024 * 1024
  const MAX_PARTS := 10_000
  const MD5_BYTES := 16

  /** A part the service reports; the checksum is known by its decoded length, None when it does not decode. */
  datatype CompletedPart = CompletedPart(number: int, byteSize: int, md5: Option<nat>)

  datatype View = View(partSize: int, partCount: int, completed: seq<CompletedPart>)

  datatype UploadError = Internal | Validation | Transfer

  function DivCeil(total: int, size: int): int
    requires size > 0
  {
    (total + size - 1) / size
  }

  predicate Fits(total: nat, view: View) {
    && 0 < view.partSize <= MAX_PART_BYTES && 0 < view.partCount <= MAX_PARTS
    && view.partCount == DivCeil(total, view.partSize)
  }

  function Offset(view: View, number: int): int {
    (number - 1) * view.partSize
  }

  function PartBytes(total: nat, view: View, number: int): int {
    MinInt(total - Offset(view, number), view.partSize)
  }

  predicate ValidPart(total: nat, view: View, part: CompletedPart) {
    && 1 <= part.number <= view.partCount
    && part.byteSize == PartBytes(total, view, part.number)
    && part.md5 == Some(MD5_BYTES)
  }

  predicate Accepted(total: nat, view: View) {
    && Fits(total, view)
    && (forall i :: 0 <= i < |view.completed| ==> ValidPart(total, view, view.completed[i]))
    && (forall i, j :: 0 <= i < j < |view.completed| ==> view.completed[i].number != view.completed[j].number)
  }

  function Numbers(parts: seq<CompletedPart>): set<int> {
    set p | p in parts :: p.number
  }

  function CompletedBytes(parts: seq<CompletedPart>): int {
    if parts == [] then 0 else CompletedBytes(parts[..|parts| - 1]) + parts[|parts| - 1].byteSize
  }

  // ---------- arithmetic of the tiling ----------

  lemma ProductIsMonotone(a: int, b: int, size: int)
    requires a <= b && size > 0
    ensures a * size <= b * size
  {
  }

  lemma LastPartStartsInside(total: nat, view: View)
    requires Fits(total, view)
    ensures (view.partCount - 1) * view.partSize < total <= view.partCount * view.partSize
  {
    var sum, rest := total + view.partSize - 1, (total + view.partSize - 1) % view.partSize;
    assert sum == view.partSize * view.partCount + rest && 0 <= rest < view.partSize;
    assert (view.partCount - 1) * view.partSize == view.partCount * view.partSize - view.partSize;
  }

  lemma QuotientIs(position: int, size: int, quotient: int)
    requires size > 0 && quotient * size <= position < quotient * size + size
    ensures position / size == quotient
  {
    var actual := position / size;
    assert position == size * actual + position % size;
    if actual < quotient {
      ProductIsMonotone(actual + 1, quotient, size);
    } else if actual > quotient {
      ProductIsMonotone(quotient + 1, actual, size);
    }
  }

  /** A view fits an artifact exactly if its parts are of 1 byte to 64 MiB, at most 10000, and the last of them is
      needed and enough. */
  lemma FitsExactly(total: nat, view: View)
    ensures Fits(total, view) <==>
              1 <= view.partSize <= 67_108_864 && 1 <= view.partCount <= 10_000
              && (view.partCount - 1) * view.partSize < total <= view.partCount * view.partSize
  {
    if view.partSize > 0 {
      var sum, size := total + view.partSize - 1, view.partSize;
      assert sum == size * (sum / size) + sum % size;
      if (view.partCount - 1) * size < total <= view.partCount * size {
        assert (view.partCount - 1) * size == view.partCount * size - size;
        QuotientIs(sum, size, view.partCount);
      }
      if Fits(total, view) {
        LastPartStartsInside(total, view);
      }
    }
  }

  /** A reported part counts exactly if it is one of the parts, as long as the others but for the last, and has a
      checksum of 16 bytes. */
  lemma ValidPartExactly(total: nat, view: View, part: CompletedPart)
    requires Fits(total, view)
    ensures ValidPart(total, view, part) <==>
              1 <= part.number <= view.partCount && part.md5 == Some(16)
              && part.byteSize == if part.number < view.partCount then view.partSize
                                  else total - (view.partCount - 1) * view.partSize
  {
    LastPartStartsInside(total, view);
    if 1 <= part.number < view.partCount {
      ProductIsMonotone(part.number, view.partCount - 1, view.partSize);
      assert part.number * view.partSize == (part.number - 1) * view.partSize + view.partSize;
    }
  }

  /** Where part `number` ends. */
  function End(total: nat, view: View, number: int): int {
    MinInt(number * view.partSize, total)
  }

  lemma PartsAreAdjacent(total: nat, view: View, number: int)
    requires Fits(total, view) && 1 <= number <= view.partCount
    ensures Offset(view, number) == End(total, view, number - 1) < total
    ensures PartBytes(total, view, number) > 0
    ensures Offset(view, number) + PartBytes(total, view, number) == End(total, view, number)
  {
    LastPartStartsInside(total, view);
    ProductIsMonotone(number - 1, view.partCount - 1, view.partSize);
    assert number * view.partSize == (number - 1) * view.partSize + view.partSize;
  }

  lemma LastPartEndsTheArtifact(total: nat, view: View)
    requires Fits(total, view)
    ensures End(total, view, view.partCount) == total && End(total, view, 0) == 0
  {
    LastPartStartsInside(total, view);
  }

  predicate Covers(total: nat, view: View, number: int, position: int) {
    1 <= number <= view.partCount
        && Offset(view, number) <= position < Offset(view, number) + PartBytes(total, view, number)
  }

  lemma CoveredByOne(total: nat, view: View, n: int, position: int)
    requires Fits(total, view) && Covers(total, view, n, position)
    ensures 0 <= position < total && n == position / view.partSize + 1
  {
    PartsAreAdjacent(total, view, n);
    ProductIsMonotone(0, n - 1, view.partSize);
    QuotientIs(position, view.partSize, n - 1);
  }

  lemma InsideIsCovered(total: nat, view: View, position: int)
    requires Fits(total, view) && 0 <= position < total
    ensures Covers(total, view, position / view.partSize + 1, position)
  {
    var quotient, size := position / view.partSize, view.partSize;
    assert position == size * quotient + position % size;
    LastPartStartsInside(total, view);
    if quotient >= view.partCount {
      ProductIsMonotone(view.partCount, quotient, size);
    }
    PartsAreAdjacent(total, view, quotient + 1);
    assert (quotient + 1) * size == quotient * size + size;
  }

  /** No gap and no overlap: every byte of the artifact lies in exactly one part, and no part reaches outside. */
  lemma EveryByteIsInExactlyOnePart(total: nat, view: View, position: int)
    requires Fits(total, view)
    ensures 0 <= position < total ==> Covers(total, view, position / view.partSize + 1, position)
    ensures forall n :: Covers(total, view, n, position) ==> 0 <= position < total && n == position / view.partSize + 1
  {
    forall n | Covers(total, view, n, position) ensures 0 <= position < total && n == position / view.partSize + 1 {
      CoveredByOne(total, view, n, position);
    }
    if 0 <= position < total {
      InsideIsCovered(total, view, position);
    }
  }

  // ---------- sums over completed parts ----------

  /** The bytes of the first `upto` parts that are in `numbers`. */
  function BytesIn(total: nat, view: View, numbers: set<int>, upto: nat): int {
    if upto == 0 then 0
    else BytesIn(total, view, numbers, upto - 1) + if upto in numbers then PartBytes(total, view, upto) else 0
  }

  lemma {:induction false} BytesInOneMore(total: nat, view: View, numbers: set<int>, number: int, upto: nat)
    requires number >= 1 && number !in numbers
    ensures BytesIn(total, view, numbers + {number}, upto)
         == BytesIn(total, view, numbers, upto) + if number <= upto then PartBytes(total, view, number) else 0
  {
    if upto > 0 {
      BytesInOneMore(total, view, numbers, number, upto - 1);
    }
  }

  lemma {:induction false} NoBytesIn(total: nat, view: View, upto: nat)
    ensures BytesIn(total, view, {}, upto) == 0
  {
    if upto > 0 {
      NoBytesIn(total, view, upto - 1);
    }
  }

  lemma {:induction false} CompletedBytesAreBytesIn(total: nat, view: View, parts: seq<CompletedPart>)
    requires Fits(total, view)
    requires forall i :: 0 <= i < |parts| ==> ValidPart(total, view, parts[i])
    requires forall i, j :: 0 <= i < j < |parts| ==> parts[i].number != parts[j].number
    ensures CompletedBytes(parts) == BytesIn(total, view, Numbers(parts), view.partCount)
    decreases |parts|
  {
    if parts == [] {
      assert Numbers(parts) == {};
      NoBytesIn(total, view, view.partCount);
    } else {
      var rest, last := parts[..|parts| - 1], parts[|parts| - 1];
      CompletedBytesAreBytesIn(total, view, rest);
      assert parts == rest + [last];
      assert Numbers(parts) == Numbers(rest) + {last.number};
      forall p | p in rest ensures p.number != last.number {
        var i :| 0 <= i < |rest| && parts[i] == p;
      }
      BytesInOneMore(total, view, Numbers(rest), last.number, view.partCount);
    }
  }

  // ---------- the upload ----------

  type Bytes = seq<bv8>

  function PartOf(file: Bytes, total: nat, view: View, number: int): Bytes
    requires Fits(total, view) && 1 <= number <= view.partCount && total <= |file|
  {
    PartsAreAdjacent(total, view, number);
    ProductIsMonotone(0, number - 1, view.partSize);
    file[End(total, view, number - 1)..End(total, view, number)]
  }

  function Assembled(file: Bytes, total: nat, view: View, upto: nat): Bytes
    requires Fits(total, view) && upto <= view.partCount && total <= |file|
  {
    if upto == 0 then [] else Assembled(file, total, view, upto - 1) + PartOf(file, total, view, upto)
  }

  /** The parts in order are the artifact. */
  lemma {:induction false} AssembledPartsAreTheFile(file: Bytes, total: nat, view: View, upto: nat)
    requires Fits(total, view) && upto <= view.partCount && total <= |file|
    ensures End(total, view, upto) >= 0 && Assembled(file, total, view, upto) == file[..End(total, view, upto)]
    ensures upto == view.partCount ==> Assembled(file, total, view, upto) == file[..total]
  {
    if upto > 0 {
      AssembledPartsAreTheFile(file, total, view, upto - 1);
      PartsAreAdjacent(total, view, upto);
      assert file[..End(total, view, upto)]
             == file[..End(total, view, upto - 1)] + file[End(total, view, upto - 1)..End(total, view, upto)];
    }
    LastPartEndsTheArtifact(total, view);
  }

  /** The service side of one upload: the parts recorded by this run. */
  class PartSink {
    var sent: map<int, Bytes>

    constructor ()
      ensures sent == map[]
    {
      sent := map[];
    }

    /** Signing, sending and recording one part; any of the three calls may fail. */
    method SendPart(number: int, bytes: Bytes, fails: bool) returns (ok: bool)
      modifies this
      ensures ok == !fails
      ensures sent == if ok then old(sent)[number := bytes] else old(sent)
    {
      ok := !fails;
      if ok {
        sent := sent[number := bytes];
      }
    }
  }

  /** The first loop: every reported part is in range, has its size and a checksum, and is reported once. */
  method CheckCompleted(total: nat, view: View) returns (completed: Option<set<int>>)
    requires Fits(total, view)
    ensures completed.Some? <==> Accepted(total, view)
    ensures completed.Some? ==> completed.value == Numbers(view.completed)
  {
    var seen: set<int> := {};
    for i := 0 to |view.completed|
      invariant seen == Numbers(view.completed[..i])
      invariant forall k :: 0 <= k < i ==> ValidPart(total, view, view.completed[k])
      invariant forall k, l :: 0 <= k < l < i ==> view.completed[k].number != view.completed[l].number
    {
      var part := view.completed[i];
      if part.number < 1 || part.number > view.partCount || part.byteSize <= 0
         || part.byteSize != PartBytes(total, view, part.number) || part.md5 != Some(MD5_BYTES) {
        if ValidPart(total, view, part) {
          PartsAreAdjacent(total, view, part.number);
        }
        return None;
      }
      if part.number in seen {
        var p :| p in view.completed[..i] && p.number == part.number;
        var k :| 0 <= k < i && view.completed[k] == p;
        return None;
      }
      assert view.completed[..i + 1] == view.completed[..i] + [part];
      seen := seen + {part.number};
    }
    assert view.completed[..|view.completed|] == view.completed;
    completed := Some(seen);
  }

  /** What of the file a part needs is there, and the transfer of the part works. */
  predicate CanSend(file: Bytes, total: nat, view: View, failing: set<int>, number: int) {
    Offset(view, number) + PartBytes(total, view, number) <= |file| && number !in failing
  }

  predicate IsPart(file: Bytes, total: nat, view: View, number: int, bytes: Bytes) {
    && 0 <= Offset(view, number) <= Offset(view, number) + PartBytes(total, view, number) <= |file|
    && bytes == file[Offset(view, number)..Offset(view, number) + PartBytes(total, view, number)]
  }

  /** Up to `upto`, exactly the parts that were not completed are sent, each with its own bytes of the file. */
  predicate Settled(file: Bytes, total: nat, view: View, done: set<int>, failing: set<int>, sent: map<int, Bytes>,
                    upto: int, number: int) {
    && (number in sent <==> 1 <= number < upto && number !in done)
    && (number in sent ==> number !in failing && IsPart(file, total, view, number, sent[number]))
  }

  ghost predicate AllSettled(file: Bytes, total: nat, view: View, done: set<int>, failing: set<int>,
                             sent: map<int, Bytes>, upto: int) {
    forall n :: Settled(file, total, view, done, failing, sent, upto, n)
  }

  lemma SkippedPartIsSettled(file: Bytes, total: nat, view: View, done: set<int>, failing: set<int>,
                             sent: map<int, Bytes>, upto: int)
    requires AllSettled(file, total, view, done, failing, sent, upto) && upto in done
    ensures AllSettled(file, total, view, done, failing, sent, upto + 1)
  {
    var next := upto + 1;
    forall n ensures Settled(file, total, view, done, failing, sent, next, n) {
      assert Settled(file, total, view, done, failing, sent, upto, n);
    }
  }

  lemma SentPartIsSettled(file: Bytes, total: nat, view: View, done: set<int>, failing: set<int>, sent: map<int, Bytes>,
                          upto: int, bytes: Bytes)
    requires AllSettled(file, total, view, done, failing, sent, upto) && upto !in done && upto >= 1
    requires upto !in failing && IsPart(file, total, view, upto, bytes)
    ensures AllSettled(file, total, view, done, failing, sent[upto := bytes], upto + 1)
  {
    var more := sent[upto := bytes];
    var next := upto + 1;
    forall n ensures Settled(file, total, view, done, failing, more, next, n) {
      assert Settled(file, total, view, done, failing, sent, upto, n);
    }
  }

  /** The bytes sent and the bytes completed make up the artifact, and what is sent are the missing parts.
      `opens` says whether the file can be opened, `failing` which parts cannot be transferred. */
  method UploadArtifact(sink: PartSink, file: Bytes, total: nat, view: View, opens: bool, failing: set<int>)
    returns (transferred: Result<int, UploadError>, ghost reached: int)
    requires sink.sent == map[]
    modifies sink
    ensures AllSettled(file, total, view, Numbers(view.completed), failing, sink.sent, reached)
    ensures !Accepted(total, view) ==> transferred == Err(Internal) && sink.sent == map[]
    ensures Accepted(total, view) && !opens ==> transferred == Err(Validation) && sink.sent == map[]
    ensures Accepted(total, view) ==> 1 <= reached <= view.partCount + 1
    ensures Accepted(total, view) && opens ==> (transferred.Ok? <==> reached == view.partCount + 1)
    ensures Accepted(total, view) && opens && transferred.Err? ==>
              reached !in Numbers(view.completed) && !CanSend(file, total, view, failing, reached)
              && transferred.error
                  == if Offset(view, reached) + PartBytes(total, view, reached) > |file| then Validation else Transfer
    ensures transferred.Ok? ==>
              Accepted(total, view) && opens && CompletedBytes(view.completed) + transferred.value == total
  {
    reached := 1;
    if view.partSize <= 0 || view.partSize > MAX_PART_BYTES || view.partCount <= 0 || view.partCount > MAX_PARTS
       || view.partCount != DivCeil(total, view.partSize) {
      return Err(Internal), reached;
    }
    var completed := CheckCompleted(total, view);
    if completed.None? {
      return Err(Internal), reached;
    }
    if !opens {
      return Err(Validation), reached;
    }
    var done := completed.value;
    var count := 0;
    var number := 1;
    LastPartEndsTheArtifact(total, view);
    while number <= view.partCount
      invariant 1 <= number <= view.partCount + 1
      invariant count + BytesIn(total, view, done, number - 1) == End(total, view, number - 1)
      invariant AllSettled(file, total, view, done, failing, sink.sent, number)
    {
      PartsAreAdjacent(total, view, number);
      if number in done {
        SkippedPartIsSettled(file, total, view, done, failing, sink.sent, number);
      } else {
        ProductIsMonotone(0, number - 1, view.partSize);
        var offset, size := Offset(view, number), PartBytes(total, view, number);
        if offset + size > |file| {
          return Err(Validation), number;
        }
        var bytes := file[offset..offset + size];
        ghost var before := sink.sent;
        var ok := sink.SendPart(number, bytes, number in failing);
        if !ok {
          return Err(Transfer), number;
        }
        SentPartIsSettled(file, total, view, done, failing, before, number, bytes);
        count := count + size;
      }
      number := number + 1;
    }
    CompletedBytesAreBytesIn(total, view, view.completed);
    return Ok(count), number;
  }

  /** Success is exactly: an accepted view, and every missing part can be read and sent. */
  lemma UploadSucceedsExactly(file: Bytes, total: nat, view: View, failing: set<int>, sent: map<int, Bytes>,
                              reached: int)
    requires Accepted(total, view) && 1 <= reached <= view.partCount + 1
    requires AllSettled(file, total, view, Numbers(view.completed), failing, sent, reached)
    requires reached <= view.partCount ==>
              reached !in Numbers(view.completed) && !CanSend(file, total, view, failing, reached)
    ensures reached == view.partCount + 1 <==>
            forall n :: 1 <= n <= view.partCount && n !in Numbers(view.completed) ==>
                CanSend(file, total, view, failing, n)
  {
    if reached == view.partCount + 1 {
      forall n | 1 <= n <= view.partCount && n !in Numbers(view.completed)
        ensures CanSend(file, total, view, failing, n)
      {
        assert Settled(file, total, view, Numbers(view.completed), failing, sent, reached, n);
      }
    }
  }

  function Joined(sent: map<int, Bytes>, stored: map<int, Bytes>, upto: nat): Bytes {
    if upto == 0 then []
    else Joined(sent, stored, upto - 1) + if upto in sent then sent[upto] else if upto in stored then stored[upto]
        else []
  }

  /** If the completed parts hold their own bytes too, putting all parts together gives the artifact. */
  lemma {:induction false} CompletedAndSentPartsAreTheArtifact(file: Bytes, total: nat, view: View, failing: set<int>,
                                                               sent: map<int, Bytes>,
                                                              stored: map<int, Bytes>, upto: nat)
    requires Accepted(total, view) && total <= |file| && upto <= view.partCount
    requires AllSettled(file, total, view, Numbers(view.completed), failing, sent, view.partCount + 1)
    requires forall n :: n in Numbers(view.completed) ==> n in stored && IsPart(file, total, view, n, stored[n])
    ensures forall n :: 1 <= n <= upto ==> n in sent || n in stored
    ensures Joined(sent, stored, upto) == Assembled(file, total, view, upto)
  {
    if upto > 0 {
      CompletedAndSentPartsAreTheArtifact(file, total, view, failing, sent, stored, upto - 1);
      assert Settled(file, total, view, Numbers(view.completed), failing, sent, view.partCount + 1, upto);
      PartsAreAdjacent(total, view, upto);
    }
  }
}

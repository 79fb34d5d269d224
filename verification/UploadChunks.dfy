/** The body of a crash request on its way to the spool file, the digest and a multipart upload. */
module UploadChunks {
  import opened Common

  const MAX_COMPRESSED_BYTES := 64 * 1024 * 1024
  const MULTIPART_CHUNK_BYTES := 8 * 1024 * 1024

  newtype Byte = b: int | 0 <= b < 256

  /** What waiting for the next chunk can yield. */
  datatype Item = Data(bytes: seq<Byte>) | Broken | TimedOut

  datatype Error = InvalidRequest | RequestTooLarge | Unavailable

  datatype Status = Idle | Open | Completed | Aborted

  /** Which calls fail or time out: spool writes by chunk number, part uploads by part number. */
  datatype Faults = Faults(spoolOpen: bool, start: bool, spoolWrites: set<nat>, parts: set<nat>, sync: bool,
                           complete: bool)

  predicate NoFault(faults: Faults) {
    !faults.spoolOpen && !faults.start && faults.spoolWrites == {} && faults.parts == {} && !faults.sync
        && !faults.complete
  }

  function Bytes(stream: seq<Item>): seq<Byte> {
    if stream == [] then []
    else Bytes(stream[..|stream| - 1]) + if stream[|stream| - 1].Data? then stream[|stream| - 1].bytes else []
  }

  function Flatten(parts: seq<seq<Byte>>): seq<Byte> {
    if parts == [] then [] else Flatten(parts[..|parts| - 1]) + parts[|parts| - 1]
  }

  /** The verdict on a stream when no call fails, `size` bytes having been read already. */
  function Verdict(stream: seq<Item>, size: nat): Result<nat, Error> {
    if stream == [] then (if size == 0 then Err(InvalidRequest) else Ok(size))
    else
      match stream[0]
      case TimedOut => Err(Unavailable)
      case Broken => Err(InvalidRequest)
      case Data(bytes) =>
        if size + |bytes| > MAX_COMPRESSED_BYTES then Err(RequestTooLarge) else Verdict(stream[1..], size + |bytes|)
  }

  predicate AllData(stream: seq<Item>) {
    forall i :: 0 <= i < |stream| ==> stream[i].Data?
  }

  lemma {:induction false} BytesOfConcat(a: seq<Item>, b: seq<Item>)
    ensures Bytes(a + b) == Bytes(a) + Bytes(b)
  {
    if b == [] {
      assert a + b == a;
    } else {
      var last := |b| - 1;
      BytesOfConcat(a, b[..last]);
      assert (a + b)[..|a + b| - 1] == a + b[..last];
    }
  }

  /** Without failing calls a request is stored exactly when its stream is whole, not empty and within the limit. */
  lemma {:induction false} VerdictIsOkExactlyWithinTheLimit(stream: seq<Item>, size: nat)
    requires size <= 67_108_864
    ensures Verdict(stream, size).Ok? <==> AllData(stream) && 0 < size + |Bytes(stream)| <= 67_108_864
    ensures Verdict(stream, size).Ok? ==> Verdict(stream, size).value == size + |Bytes(stream)|
    ensures AllData(stream) && size + |Bytes(stream)| > 67_108_864 ==>
              Verdict(stream, size) == Err(RequestTooLarge)
    decreases |stream|
  {
    if stream != [] {
      BytesOfConcat([stream[0]], stream[1..]);
      assert [stream[0]] + stream[1..] == stream;
      assert [stream[0]][..0] == [];
      assert Bytes([stream[0]]) == if stream[0].Data? then stream[0].bytes else [];
      if stream[0].Data? && size + |stream[0].bytes| <= MAX_COMPRESSED_BYTES {
        VerdictIsOkExactlyWithinTheLimit(stream[1..], size + |stream[0].bytes|);
        assert AllData(stream) <==> AllData(stream[1..]);
      }
    }
  }

  /** Every part has 8 MiB except perhaps the last, which is not empty. */
  predicate WellCut(parts: seq<seq<Byte>>) {
    && (forall i :: 0 <= i < |parts| - 1 ==> |parts[i]| == 8_388_608)
    && (parts != [] ==> 0 < |parts[|parts| - 1]| <= 8_388_608)
  }

  predicate AllFull(parts: seq<seq<Byte>>) {
    forall i :: 0 <= i < |parts| ==> |parts[i]| == MULTIPART_CHUNK_BYTES
  }

  lemma {:induction false} FullPartsSize(parts: seq<seq<Byte>>)
    requires AllFull(parts)
    ensures |Flatten(parts)| == MULTIPART_CHUNK_BYTES * |parts|
  {
    if parts != [] {
      FullPartsSize(parts[..|parts| - 1]);
    }
  }

  /** The cut is forced: part k is the slice of the body from k chunk sizes on. */
  lemma {:induction false} PartIsSlice(parts: seq<seq<Byte>>, k: nat)
    requires WellCut(parts) && k < |parts|
    ensures var from := k * MULTIPART_CHUNK_BYTES;
            var to := MinInt(from + MULTIPART_CHUNK_BYTES, |Flatten(parts)|);
            from < to && parts[k] == Flatten(parts)[from..to]
    decreases |parts|
  {
    var last := |parts| - 1;
    var rest := parts[..last];
    assert Flatten(parts) == Flatten(rest) + parts[last];
    if k < last {
      PartIsSlice(rest, k);
      var from := k * MULTIPART_CHUNK_BYTES;
      var to := MinInt(from + MULTIPART_CHUNK_BYTES, |Flatten(rest)|);
      assert |parts[k]| == MULTIPART_CHUNK_BYTES && to == from + MULTIPART_CHUNK_BYTES;
      assert Flatten(parts)[from..to] == Flatten(rest)[from..to];
    } else {
      FullPartsSize(rest);
      assert Flatten(parts)[|Flatten(rest)|..] == parts[last];
    }
  }

  class UploadSession {
    var status: Status
    var spool: seq<Byte>
    var digested: seq<Byte>
    var parts: seq<seq<Byte>>

    constructor ()
      ensures status == Idle && spool == [] && digested == [] && parts == []
    {
      status, spool, digested, parts := Idle, [], [], [];
    }

    method PutPart(part: seq<Byte>, faults: Faults) returns (ok: bool)
      modifies this
      ensures status == (if |old(parts)| in faults.parts then Aborted else old(status))
      ensures parts == if |old(parts)| in faults.parts then old(parts) else old(parts) + [part]
      ensures ok <==> |old(parts)| !in faults.parts
      ensures spool == old(spool) && digested == old(digested)
    {
      if |parts| in faults.parts {
        status := Aborted;
        return false;
      }
      parts := parts + [part];
      return true;
    }

    /** Cuts one chunk into the part buffer, sending every part that fills up. */
    method Feed(chunk: seq<Byte>, buffered: seq<Byte>, faults: Faults) returns (ok: bool, part: seq<Byte>)
      requires |buffered| < MULTIPART_CHUNK_BYTES && AllFull(parts)
      modifies this
      ensures spool == old(spool) && digested == old(digested)
      ensures ok ==> status == old(status) && |part| < MULTIPART_CHUNK_BYTES && AllFull(parts)
                     && Flatten(parts) + part == old(Flatten(parts)) + buffered + chunk
      ensures !ok ==> status == Aborted && faults.parts != {}
    {
      var remaining := chunk;
      part := buffered;
      while remaining != []
        invariant |part| < MULTIPART_CHUNK_BYTES && AllFull(parts) && status == old(status)
        invariant spool == old(spool) && digested == old(digested)
        invariant Flatten(parts) + part + remaining == old(Flatten(parts)) + buffered + chunk
        decreases |remaining|
      {
        var count := MinInt(MULTIPART_CHUNK_BYTES - |part|, |remaining|);
        ghost var sent := Flatten(parts);
        assert sent + part + remaining == sent + (part + remaining[..count]) + remaining[count..];
        part := part + remaining[..count];
        remaining := remaining[count..];
        if |part| == MULTIPART_CHUNK_BYTES {
          ghost var before := parts;
          ok := PutPart(part, faults);
          if !ok {
            return;
          }
          assert parts[..|parts| - 1] == before;
          assert Flatten(parts) + [] == sent + part;
          part := [];
        }
      }
      ok := true;
    }

    /** After the stream ended: the last partial part, then the completion of the upload. */
    method FinishUpload(part: seq<Byte>, byteSize: nat, faults: Faults) returns (result: Result<nat, Error>)
      requires status == Open && AllFull(parts) && |part| < MULTIPART_CHUNK_BYTES
      modifies this
      ensures spool == old(spool) && digested == old(digested)
      ensures result.Ok? ==> status == Completed && result.value == byteSize > 0
                             && Flatten(parts) == old(Flatten(parts)) + part && WellCut(parts)
      ensures result.Err? ==> status == Aborted
      ensures byteSize == 0 ==> result == Err(InvalidRequest)
      ensures byteSize > 0 && NoFault(faults) ==> result.Ok?
      ensures byteSize > 0 && result.Err? ==> result == Err(Unavailable)
    {
      if byteSize == 0 {
        status := Aborted;
        return Err(InvalidRequest);
      }
      if faults.sync {
        status := Aborted;
        return Err(Unavailable);
      }
      if part != [] {
        ghost var before := parts;
        var ok := PutPart(part, faults);
        if !ok {
          return Err(Unavailable);
        }
        assert parts[..|parts| - 1] == before;
      } else {
        assert Flatten(parts) + [] == Flatten(parts);
      }
      if faults.complete {
        status := Aborted;
        return Err(Unavailable);
      }
      status := Completed;
      return Ok(byteSize);
    }

    /** The whole upload. Every failure after the upload was opened aborts it. */
    method StoreRequest(stream: seq<Item>, faults: Faults) returns (result: Result<nat, Error>)
      requires status == Idle && spool == [] && digested == [] && parts == []
      modifies this
      ensures result.Ok? ==>
        status == Completed && AllData(stream) && result.value == |Bytes(stream)|
        && Flatten(parts) == spool == digested == Bytes(stream) && WellCut(parts)
      ensures result.Err? ==> status == if faults.spoolOpen || faults.start then Idle else Aborted
      ensures NoFault(faults) ==> result == Verdict(stream, 0)
      ensures !NoFault(faults) ==> result == Verdict(stream, 0) || result == Err(Unavailable)
    {
      if faults.spoolOpen || faults.start {
        return Err(Unavailable);
      }
      status := Open;
      var byteSize := 0;
      var part: seq<Byte> := [];
      for i := 0 to |stream|
        invariant status == Open && byteSize == |Bytes(stream[..i])| <= MAX_COMPRESSED_BYTES
        invariant AllData(stream[..i]) && spool == digested == Bytes(stream[..i])
        invariant Flatten(parts) + part == Bytes(stream[..i])
        invariant AllFull(parts) && |part| < MULTIPART_CHUNK_BYTES
        invariant Verdict(stream, 0) == Verdict(stream[i..], byteSize)
      {
        assert stream[..i + 1][..i] == stream[..i] && stream[i..][0] == stream[i]
               && stream[i..][1..] == stream[i + 1..];
        match stream[i]
        case TimedOut =>
          status := Aborted;
          return Err(Unavailable);
        case Broken =>
          status := Aborted;
          return Err(InvalidRequest);
        case Data(chunk) =>
          byteSize := byteSize + |chunk|;
          if byteSize > MAX_COMPRESSED_BYTES {
            status := Aborted;
            return Err(RequestTooLarge);
          }
          digested := digested + chunk;
          if i in faults.spoolWrites {
            status := Aborted;
            return Err(Unavailable);
          }
          spool := spool + chunk;
          ghost var earlier := Flatten(parts) + part;
          var ok, rest := Feed(chunk, part, faults);
          if !ok {
            return Err(Unavailable);
          }
          part := rest;
          assert Flatten(parts) + part == earlier + chunk;
      }
      assert stream[..|stream|] == stream && stream[|stream|..] == [];
      result := FinishUpload(part, byteSize, faults);
    }
  }
}

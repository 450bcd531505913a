/** Bounded copying that measures what it copies: the writers of
    generator_runner.rs, generator_output_checkpoint.rs and
    generator_publication.rs, and the streamed object check of storage.rs. */
module Measured {
  import opened Core

  datatype IoError = LimitExceeded | WriteZero | Device

  /** What the file under the writer does with one call: fail, or take some bytes. */
  datatype SinkReply = Fault | Take(upTo: nat)

  class MeasuringWriter {
    var sink: seq<byte>
    var count: u64
    var hashed: seq<byte>
    const limit: u64

    constructor (limit: u64)
      ensures Valid() && sink == [] && this.limit == limit
    {
      this.sink, this.count, this.hashed, this.limit := [], 0, [], limit;
    }

    /** The count is the number of bytes written, never above the limit, and the
        hasher has consumed exactly those bytes. */
    ghost predicate Valid()
      reads this
    {
      count as int == |sink| && hashed == sink && count <= limit
    }

    function Digest(): Sha256
      reads this
    {
      Sha256(hashed)
    }

    /** One `write`: a buffer that could cross the limit is refused whole, before
        any byte reaches the sink; otherwise the sink may still take a prefix. */
    method Write(bytes: seq<byte>, reply: SinkReply) returns (r: Result<nat, IoError>)
      requires Valid()
      modifies this
      ensures Valid()
      ensures |bytes| > limit - old(count) ==> r == Err(LimitExceeded)
      ensures r.Err? ==> unchanged(this) && (r.error == LimitExceeded <==> |bytes| > limit - count)
      ensures r.Ok? ==> r.value <= |bytes| && sink == old(sink) + bytes[..r.value]
      ensures |bytes| <= limit - old(count) && reply.Take? ==>
                r == Ok(if reply.upTo < |bytes| then reply.upTo else |bytes|)
    {
      if |bytes| > limit - count {
        return Err(LimitExceeded);
      }
      if reply.Fault? {
        return Err(Device);
      }
      var taken := if reply.upTo < |bytes| then reply.upTo else |bytes|;
      sink := sink + bytes[..taken];
      count := count + taken;
      hashed := hashed + bytes[..taken];
      return Ok(taken);
    }

    /** `write_all`: repeats `write` on the rest of the buffer. The replies of the
        sink are consumed in order; once they run out it takes everything. */
    method WriteAll(bytes: seq<byte>, replies: seq<SinkReply>)
      returns (r: Result<(), IoError>, rest: seq<SinkReply>)
      requires Valid()
      modifies this
      ensures Valid()
      ensures r.Ok? ==> sink == old(sink) + bytes
      ensures r.Err? ==> old(sink) <= sink <= old(sink) + bytes
      ensures r == Err(LimitExceeded) ==> |old(sink)| + |bytes| > limit
      ensures |old(sink)| + |bytes| <= limit && Progressing(replies) ==> r.Ok?
      ensures Progressing(replies) ==> Progressing(rest)
      ensures bytes != [] && |old(sink)| + |bytes| > limit ==> r.Err?
    {
      var i := 0;
      rest := replies;
      while i < |bytes|
        invariant Valid()
        invariant i <= |bytes| && sink == old(sink) + bytes[..i]
        invariant Progressing(replies) ==> Progressing(rest)
        invariant i > 0 ==> |old(sink)| + |bytes| <= limit
      {
        var reply := if rest == [] then Take(|bytes|) else rest[0];
        rest := if rest == [] then [] else rest[1..];
        var w := Write(bytes[i..], reply);
        match w {
          case Err(e) => return Err(e), rest;
          case Ok(n) =>
            if n == 0 { return Err(WriteZero), rest; }
            assert bytes[..i + n] == bytes[..i] + bytes[i..][..n];
            i := i + n;
        }
      }
      assert bytes[..i] == bytes;
      return Ok(()), rest;
    }

    /** `std::io::copy`: the source delivers its bytes in arbitrary chunks. */
    method CopyFrom(chunks: seq<seq<byte>>, replies: seq<SinkReply>) returns (r: Result<(), IoError>)
      requires Valid()
      modifies this
      ensures Valid()
      ensures r.Ok? ==> sink == old(sink) + Flatten(chunks)
      ensures old(sink) <= sink <= old(sink) + Flatten(chunks)
      ensures Progressing(replies) ==> (r.Ok? <==> |old(sink)| + |Flatten(chunks)| <= limit)
    {
      var i, rest := 0, replies;
      assert chunks[..0] == [];
      while i < |chunks|
        invariant i <= |chunks| && Valid()
        invariant sink == old(sink) + Flatten(chunks[..i])
        invariant Progressing(replies) ==> Progressing(rest)
      {
        assert chunks[..i + 1] == chunks[..i] + [chunks[i]];
        FlattenAppend(chunks[..i], chunks[i]);
        FlattenSplit(chunks, i + 1);
        var w;
        w, rest := WriteAll(chunks[i], rest);
        if w.Err? {
          return w;
        }
        i := i + 1;
      }
      assert chunks[..i] == chunks;
      return Ok(());
    }
  }

  /** The sink never fails and never takes zero bytes of a non-empty buffer. */
  predicate Progressing(replies: seq<SinkReply>) {
    forall i :: 0 <= i < |replies| ==> replies[i].Take? && replies[i].upTo > 0
  }

  /** `measure_copy`, `retain_candidate` and the retained copy of `accept_final`:
      a copy bounded by the declared length, then both measurements compared.
      The verdict does not depend on chunk boundaries or on short writes. */
  method MeasureCopy(chunks: seq<seq<byte>>, replies: seq<SinkReply>, byteLength: u64, sha: Sha256)
    returns (r: Option<seq<byte>>)
    ensures r.Some? ==> r.value == Flatten(chunks)
    ensures r.Some? ==> |Flatten(chunks)| == byteLength && Sha256(Flatten(chunks)) == sha
    ensures Progressing(replies) && |Flatten(chunks)| == byteLength && Sha256(Flatten(chunks)) == sha ==> r.Some?
  {
    var writer := new MeasuringWriter(byteLength);
    var copied := writer.CopyFrom(chunks, replies);
    if copied.Err? || writer.count != byteLength || writer.Digest() != sha {
      return None;
    }
    return Some(writer.sink);
  }

  /** `verify_object_metadata`: lengths arrive as signed 64-bit values, so a
      negative or absent one never equals the declared length. */
  predicate MetadataMatches(length: Option<int>, contentType: Option<string>, expectedType: string, expectedLen: u64) {
    length == Some(expectedLen) && contentType == Some(expectedType)
  }

  /** `verify_object_body`: stops at the first chunk past the declared length, yet
      accepts exactly the streams whose concatenation has the length and digest. */
  method VerifyObjectBody(chunks: seq<seq<byte>>, expectedLen: u64, sha: Sha256) returns (ok: bool)
    ensures ok <==> |Flatten(chunks)| == expectedLen && Sha256(Flatten(chunks)) == sha
  {
    var length: u64, hashed, i := 0, [], 0;
    assert chunks[..0] == [];
    while i < |chunks|
      invariant i <= |chunks|
      invariant hashed == Flatten(chunks[..i]) && length as int == |hashed| && length <= expectedLen
    {
      assert chunks[..i + 1] == chunks[..i] + [chunks[i]];
      FlattenAppend(chunks[..i], chunks[i]);
      FlattenSplit(chunks, i + 1);
      if length + |chunks[i]| >= U64_LIMIT {
        return false;
      }
      length := length + |chunks[i]|;
      if length > expectedLen {
        return false;
      }
      hashed := hashed + chunks[i];
      i := i + 1;
    }
    assert chunks[..i] == chunks;
    if length != expectedLen {
      return false;
    }
    return Sha256(hashed) == sha;
  }
}

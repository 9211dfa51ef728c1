/** Draining a child's output to the end while bounding what is kept in memory and
    what is written to a diagnostic file. */
module Tee {
  import opened Wrappers
  import opened Machine

  const BUFFER_SIZE: nat := 8 * 1024

  /** How the stream ends after the chunks that were read. */
  datatype StreamEnd = EndOfFile | ReadError

  /** What one `write_all` call does: a failing call may have written a part. */
  datatype WriteOutcome = Written | Failed(partial: nat)

  datatype BoundedBytes = BoundedBytes(bytes: seq<byte>, truncated: bool)

  datatype BoundedTee = BoundedTee(
    bytes: seq<byte>,
    retainedTruncated: bool,
    persistedTruncated: bool,
    persistError: bool)

  /** The diagnostic file. Its failures are chosen freely when it is created; once a
      call has failed, no further call is allowed. */
  class Sink {
    var written: seq<byte>
    var failed: bool
    var next: nat
    const outcomes: seq<WriteOutcome>
    const flushFails: bool

    constructor (outcomes: seq<WriteOutcome>, flushFails: bool)
      ensures written == [] && !failed && next == 0
      ensures this.outcomes == outcomes && this.flushFails == flushFails
    {
      written, failed, next := [], false, 0;
      this.outcomes, this.flushFails := outcomes, flushFails;
    }

    method WriteAll(bytes: seq<byte>) returns (ok: bool)
      requires !failed
      modifies this
      ensures ok <==> !failed
      ensures ok ==> written == old(written) + bytes
      ensures old(written) <= written <= old(written) + bytes
      ensures ok <==> old(next) >= |outcomes| || outcomes[old(next)].Written?
      ensures next == old(next) + 1
    {
      ok := next >= |outcomes| || outcomes[next].Written?;
      if ok {
        written := written + bytes;
      } else {
        written := written + bytes[..Min(outcomes[next].partial, |bytes|)];
        failed := true;
      }
      next := next + 1;
    }

    method Flush() returns (ok: bool)
      requires !failed
      modifies this
      ensures ok <==> !failed
      ensures ok <==> !flushFails
      ensures written == old(written)
    {
      ok := !flushFails;
      failed := !ok;
    }
  }

  function Flatten(chunks: seq<seq<byte>>): seq<byte> {
    if chunks == [] then [] else Flatten(chunks[..|chunks| - 1]) + chunks[|chunks| - 1]
  }

  predicate ReadSizes(chunks: seq<seq<byte>>) {
    forall i :: 0 <= i < |chunks| ==> 0 < |chunks[i]| <= BUFFER_SIZE
  }

  lemma FlattenNext(chunks: seq<seq<byte>>, i: nat)
    requires i < |chunks|
    ensures Flatten(chunks[..i + 1]) == Flatten(chunks[..i]) + chunks[i]
  {
    assert chunks[..i + 1][..i] == chunks[..i];
  }

  /** Keeps exactly the first `max` bytes of the stream, however it is chunked. */
  method DrainBoundedBytes(chunks: seq<seq<byte>>, end: StreamEnd, max: usize)
    returns (r: Result<BoundedBytes, StreamEnd>)
    requires ReadSizes(chunks)
    ensures r.Failure? <==> end == ReadError
    ensures r.Success? ==>
      && r.value.bytes == Flatten(chunks)[..Min(|Flatten(chunks)|, max)]
      && (r.value.truncated <==> |Flatten(chunks)| > max)
  {
    var retained: seq<byte> := [];
    var truncated := false;
    for i := 0 to |chunks|
      invariant retained == Flatten(chunks[..i])[..Min(|Flatten(chunks[..i])|, max)]
      invariant truncated <==> |Flatten(chunks[..i])| > max
    {
      FlattenNext(chunks, i);
      var keep := Min(SatSub(max, |retained|), |chunks[i]|);
      retained := retained + chunks[i][..keep];
      if keep < |chunks[i]| {
        truncated := true;
      }
    }
    assert chunks[..|chunks|] == chunks;
    if end == ReadError {
      return Failure(end);
    }
    return Success(BoundedBytes(retained, truncated));
  }

  /** The tee. `sink` may fail at any call; the stream is still read to its end. */
  method DrainBoundedToWriter(chunks: seq<seq<byte>>, end: StreamEnd, sink: Sink, retainMax: usize, persistMax: usize)
    returns (r: Result<BoundedTee, StreamEnd>)
    requires ReadSizes(chunks) && !sink.failed && sink.written == []
    modifies sink
    ensures r.Failure? <==> end == ReadError
    // The file only ever holds a prefix of the stream within its budget.
    ensures sink.written <= Flatten(chunks) && |sink.written| <= persistMax
    ensures !sink.failed ==> sink.written == Flatten(chunks)[..Min(|Flatten(chunks)|, persistMax)]
    // What is retained depends on the stream alone.
    ensures r.Success? ==>
      && r.value.bytes == Flatten(chunks)[..Min(|Flatten(chunks)|, retainMax)]
      && (r.value.retainedTruncated <==> |Flatten(chunks)| > retainMax)
    // No truncation is reported exactly when everything was written and flushed.
    ensures r.Success? ==>
      && (r.value.persistError <==> sink.failed)
      && (!r.value.persistedTruncated <==> !sink.failed && sink.written == Flatten(chunks))
    // A sink that never fails makes the whole result a function of the stream.
    ensures sink.outcomes == [] && !sink.flushFails ==> !sink.failed
  {
    var retained: seq<byte> := [];
    var persisted: usize := 0;
    var retainedTruncated := false;
    var persistedTruncated := false;
    var writeError := false;
    for i := 0 to |chunks|
      invariant retained == Flatten(chunks[..i])[..Min(|Flatten(chunks[..i])|, retainMax)]
      invariant retainedTruncated <==> |Flatten(chunks[..i])| > retainMax
      invariant writeError <==> sink.failed
      invariant sink.written <= Flatten(chunks[..i]) && |sink.written| <= persistMax
      invariant !writeError ==> persisted == |sink.written| == Min(|Flatten(chunks[..i])|, persistMax)
      invariant persistedTruncated <==> writeError || |Flatten(chunks[..i])| > persistMax
      invariant sink.outcomes == [] ==> !writeError
    {
      FlattenNext(chunks, i);
      var read := chunks[i];
      var retain := Min(SatSub(retainMax, |retained|), |read|);
      retained := retained + read[..retain];
      if retain < |read| {
        retainedTruncated := true;
      }
      var persist := Min(SatSub(persistMax, persisted), |read|);
      if persist > 0 && !writeError {
        ghost var before := sink.written;
        var ok := sink.WriteAll(read[..persist]);
        assert before + read[..persist] <= Flatten(chunks[..i + 1]);
        if ok {
          persisted := SatAdd(persisted, persist);
        } else {
          writeError := true;
          persistedTruncated := true;
        }
      }
      if persist < |read| || writeError {
        persistedTruncated := true;
      }
    }
    assert chunks[..|chunks|] == chunks;
    if end == ReadError {
      return Failure(end);
    }
    if !writeError {
      var ok := sink.Flush();
      if !ok {
        writeError := true;
        persistedTruncated := true;
      }
    }
    return Success(BoundedTee(retained, retainedTruncated, persistedTruncated, writeError));
  }
}

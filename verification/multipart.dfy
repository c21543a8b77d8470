/**
 * multipartUpload: init, one upload per part in increasing part-number order,
 * complete; and abort with the same upload id when a part or the completion
 * fails. Store replies are inputs; the result is the call trace and whether
 * the procedure returned or threw.
 */
module Multipart {
  import opened Wrappers
  import opened Types
  import opened Store
  import opened Chunking
  import opened Seqs

  /** What the store answers to each multipart request. */
  datatype MultipartStore = MultipartStore(
    init: Result<string, string>,           // the upload id, or the error thrown by init
    part: nat -> Result<PartAck, string>,   // the reply to the upload of each part number
    complete: Outcome<string>,
    abort: Outcome<string>)

  /** The calls issued, and whether the upload returned or threw (with which error). */
  datatype UploadRun = UploadRun(calls: seq<StoreCall>, outcome: Outcome<string>)

  /** The part uploads issued so far, and the collected replies or the error that stopped them. */
  datatype PartsRun = PartsRun(calls: seq<StoreCall>, result: Result<seq<PartAck>, string>)

  /** Uploading the first `n` chunks, stopping at the first part whose upload throws. */
  function UploadParts(
    key: string, uploadId: string, chunks: seq<seq<byte>>, n: nat,
    reply: nat -> Result<PartAck, string>): (r: PartsRun)
    requires n <= |chunks|
    ensures |r.calls| <= n
    ensures forall i :: 0 <= i < |r.calls| ==> r.calls[i] == MultipartPart(key, uploadId, i + 1, chunks[i])
    ensures forall p: nat :: 1 <= p < |r.calls| ==> reply(p).Success?
    ensures r.result.Success? <==> |r.calls| == n && forall p: nat :: 1 <= p <= n ==> reply(p).Success?
    ensures r.result.Success? ==>
      |r.result.value| == n && forall p: nat :: 1 <= p <= n ==> r.result.value[p - 1] == reply(p).value
    ensures r.result.Failure? ==> |r.calls| >= 1 && reply(|r.calls|) == Failure(r.result.error)
  {
    if n == 0 then PartsRun([], Success([]))
    else
      var prev := UploadParts(key, uploadId, chunks, n - 1, reply);
      if prev.result.Failure? then prev
      else
        var call := MultipartPart(key, uploadId, n, chunks[n - 1]);
        match reply(n)
        case Failure(e) => PartsRun(prev.calls + [call], Failure(e))
        case Success(ack) => PartsRun(prev.calls + [call], Success(prev.result.value + [ack]))
  }

  /** The error that leaves the procedure after an abort: the abort's own, if it throws. */
  function Rethrown(error: string, abort: Outcome<string>): (r: Outcome<string>)
    ensures r.Fail?
    ensures abort.Pass? ==> r.error == error
  {
    match abort
    case Pass => Fail(error)
    case Fail(e) => Fail(e)
  }

  /** The whole multipart upload of `content` under `key`. */
  function MultipartUpload(key: string, content: seq<byte>, store: MultipartStore): UploadRun {
    match store.init
    case Failure(e) => UploadRun([MultipartInit(key)], Fail(e))
    case Success(u) =>
      var chunks := Chunks(content, PartSize);
      var parts := UploadParts(key, u, chunks, |chunks|, store.part);
      var sent := [MultipartInit(key)] + parts.calls;
      match parts.result
      case Failure(e) => UploadRun(sent + [MultipartAbort(key, u)], Rethrown(e, store.abort))
      case Success(acks) =>
        var done := sent + [MultipartComplete(key, u, acks)];
        match store.complete
        case Pass => UploadRun(done, Pass)
        case Fail(e) => UploadRun(done + [MultipartAbort(key, u)], Rethrown(e, store.abort))
  }

  /** Abort is the last call and appears nowhere else. */
  predicate AbortedOnceAtEnd(calls: seq<StoreCall>, key: string, uploadId: string) {
    && |calls| >= 1
    && calls[|calls| - 1] == MultipartAbort(key, uploadId)
    && forall i :: 0 <= i < |calls| - 1 ==> !calls[i].MultipartAbort?
  }

  /** When init throws, nothing else is called and init's error leaves the procedure. */
  lemma InitFailure(key: string, content: seq<byte>, store: MultipartStore)
    requires store.init.Failure?
    ensures MultipartUpload(key, content, store) == UploadRun([MultipartInit(key)], Fail(store.init.error))
  {
  }

  /**
   * The upload returns exactly when init, every part and the completion
   * succeed; the trace is then init, part 1..k with the k consecutive chunks,
   * and a completion listing the part replies in upload order.
   */
  lemma MultipartSucceeds(key: string, content: seq<byte>, store: MultipartStore)
    requires store.init.Success?
    ensures var run := MultipartUpload(key, content, store);
      var chunks := Chunks(content, PartSize);
      var k := |chunks|;
      && (run.outcome.Pass? <==>
            (forall p: nat :: 1 <= p <= k ==> store.part(p).Success?) && store.complete.Pass?)
      && (run.outcome.Pass? ==>
            && |run.calls| == k + 2
            && run.calls[0] == MultipartInit(key)
            && (forall i :: 1 <= i <= k ==>
                  run.calls[i] == MultipartPart(key, store.init.value, i, chunks[i - 1]))
            && run.calls[k + 1].MultipartComplete?
            && run.calls[k + 1].uploadId == store.init.value
            && |run.calls[k + 1].parts| == k
            && (forall p: nat :: 1 <= p <= k ==> run.calls[k + 1].parts[p - 1] == store.part(p).value)
            && (forall i :: 0 <= i < |run.calls| ==> !run.calls[i].MultipartAbort?))
  {
    var run := MultipartUpload(key, content, store);
    var chunks := Chunks(content, PartSize);
    var u := store.init.value;
    var parts := UploadParts(key, u, chunks, |chunks|, store.part);
    if run.outcome.Pass? {
      assert parts.result.Success?;
      var sent := [MultipartInit(key)] + parts.calls;
      assert run.calls == sent + [MultipartComplete(key, u, parts.result.value)];
      forall i | 1 <= i <= |chunks|
        ensures run.calls[i] == MultipartPart(key, u, i, chunks[i - 1])
      {
        assert run.calls[i] == parts.calls[i - 1];
      }
    }
  }

  /**
   * Once init has returned an upload id, every failure ends with exactly one
   * abort for that id. The error that leaves the procedure is the abort's own
   * when the abort throws; otherwise it is that of the first of the k parts
   * whose upload throws, or, when all k parts go up, that of the completion.
   */
  lemma MultipartFailureAborts(key: string, content: seq<byte>, store: MultipartStore)
    requires store.init.Success?
    requires MultipartUpload(key, content, store).outcome.Fail?
    ensures var run := MultipartUpload(key, content, store);
      var k := |Chunks(content, PartSize)|;
      && AbortedOnceAtEnd(run.calls, key, store.init.value)
      && (store.abort.Fail? ==> run.outcome.error == store.abort.error)
      && (store.abort.Pass? && (exists p: nat :: 1 <= p <= k && store.part(p).Failure?) ==>
            exists p: nat ::
              && 1 <= p <= k
              && store.part(p) == Failure(run.outcome.error)
              && forall q: nat :: 1 <= q < p ==> store.part(q).Success?)
      && (store.abort.Pass? && (forall p: nat :: 1 <= p <= k ==> store.part(p).Success?) ==>
            store.complete == Fail(run.outcome.error))
  {
    var run := MultipartUpload(key, content, store);
    var chunks := Chunks(content, PartSize);
    var u := store.init.value;
    var parts := UploadParts(key, u, chunks, |chunks|, store.part);
    var sent := [MultipartInit(key)] + parts.calls;
    forall i | 0 <= i < |sent|
      ensures !sent[i].MultipartAbort?
    {
      if i > 0 {
        assert sent[i] == parts.calls[i - 1];
      }
    }
    if parts.result.Failure? {
      assert run.calls == sent + [MultipartAbort(key, u)];
      if store.abort.Pass? {
        var p := |parts.calls|;
        assert store.part(p) == Failure(run.outcome.error);
        assert forall q: nat :: 1 <= q < p ==> store.part(q).Success?;
      }
    } else {
      assert run.calls == sent + [MultipartComplete(key, u, parts.result.value), MultipartAbort(key, u)];
    }
  }

  /** After a part upload throws, no completion is requested and no later part is sent. */
  lemma NoCompleteAfterFailedPart(key: string, content: seq<byte>, store: MultipartStore, p: nat)
    requires store.init.Success?
    requires 1 <= p <= |Chunks(content, PartSize)| && store.part(p).Failure?
    ensures var run := MultipartUpload(key, content, store);
      && run.outcome.Fail?
      && (forall i :: 0 <= i < |run.calls| ==> !run.calls[i].MultipartComplete?)
      && (forall i :: 0 <= i < |run.calls| && run.calls[i].MultipartPart? ==> run.calls[i].partNumber <= p)
  {
    var run := MultipartUpload(key, content, store);
    var chunks := Chunks(content, PartSize);
    var u := store.init.value;
    var parts := UploadParts(key, u, chunks, |chunks|, store.part);
    assert parts.result.Failure?;
    assert |parts.calls| <= p;
    var sent := [MultipartInit(key)] + parts.calls;
    assert run.calls == sent + [MultipartAbort(key, u)];
    forall i | 0 <= i < |run.calls|
      ensures !run.calls[i].MultipartComplete?
      ensures run.calls[i].MultipartPart? ==> run.calls[i].partNumber <= p
    {
      if 0 < i < |sent| {
        assert run.calls[i] == parts.calls[i - 1];
      }
    }
  }

  /** Parts past a failure are never reached: the run of the first `m` chunks stays the run up to the failure. */
  lemma {:induction false} UploadPartsStops(
    key: string, uploadId: string, chunks: seq<seq<byte>>, n: nat, m: nat,
    reply: nat -> Result<PartAck, string>)
    requires n <= m <= |chunks|
    requires UploadParts(key, uploadId, chunks, n, reply).result.Failure?
    ensures UploadParts(key, uploadId, chunks, m, reply) == UploadParts(key, uploadId, chunks, n, reply)
    decreases m - n
  {
    if m > n {
      UploadPartsStops(key, uploadId, chunks, n, m - 1, reply);
    }
  }

  /** One more part answered with `ack` extends the run by that part's call and reply. */
  lemma UploadPartsStep(
    key: string, uploadId: string, chunks: seq<seq<byte>>, n: nat,
    reply: nat -> Result<PartAck, string>, calls: seq<StoreCall>, acks: seq<PartAck>)
    requires n < |chunks|
    requires UploadParts(key, uploadId, chunks, n, reply) == PartsRun(calls, Success(acks))
    ensures reply(n + 1).Success? ==>
      UploadParts(key, uploadId, chunks, n + 1, reply)
        == PartsRun(calls + [MultipartPart(key, uploadId, n + 1, chunks[n])], Success(acks + [reply(n + 1).value]))
    ensures reply(n + 1).Failure? ==>
      UploadParts(key, uploadId, chunks, n + 1, reply)
        == PartsRun(calls + [MultipartPart(key, uploadId, n + 1, chunks[n])], Failure(reply(n + 1).error))
  {
  }

  /** The slice `content.subarray(offset, offset + PART_SIZE)`. */
  function PartAt(content: seq<byte>, offset: nat): seq<byte>
    requires offset < |content|
  {
    content[offset..Min(offset + PartSize, |content|)]
  }

  /** The slice at the offset of part `i + 1` is chunk `i`, as long as the offset is inside the content. */
  lemma PartAtIsChunk(content: seq<byte>, i: nat)
    requires i * PartSize < |content|
    ensures i < |Chunks(content, PartSize)|
    ensures PartAt(content, i * PartSize) == Chunks(content, PartSize)[i]
  {
    OffsetInRange(content, PartSize, i);
    ChunkAtOffset(content, PartSize, i);
  }

  /** An offset at or past the end means every chunk has been sent. */
  lemma PastTheEnd(content: seq<byte>, i: nat)
    requires i <= |Chunks(content, PartSize)| && i * PartSize >= |content|
    ensures i == |Chunks(content, PartSize)|
  {
    OffsetInRange(content, PartSize, i);
  }

  /**
   * The part loop of multipartUpload as written: an offset advancing by the
   * part size and a part number advancing by one, left at the first throw.
   */
  method SendParts(key: string, uploadId: string, content: seq<byte>, reply: nat -> Result<PartAck, string>)
    returns (r: PartsRun)
    ensures r == UploadParts(key, uploadId, Chunks(content, PartSize), |Chunks(content, PartSize)|, reply)
  {
    ghost var chunks := Chunks(content, PartSize);
    var calls: seq<StoreCall> := [];
    var acks: seq<PartAck> := [];
    var partNumber: nat := 1;
    var offset: nat := 0;
    while offset < |content|
      invariant partNumber >= 1 && offset == (partNumber - 1) * PartSize
      invariant partNumber - 1 <= |chunks|
      invariant UploadParts(key, uploadId, chunks, partNumber - 1, reply) == PartsRun(calls, Success(acks))
      decreases |content| - offset
    {
      PartAtIsChunk(content, partNumber - 1);
      var call := MultipartPart(key, uploadId, partNumber, PartAt(content, offset));
      UploadPartsStep(key, uploadId, chunks, partNumber - 1, reply, calls, acks);
      if reply(partNumber).Failure? {
        UploadPartsStops(key, uploadId, chunks, partNumber, |chunks|, reply);
        return PartsRun(calls + [call], Failure(reply(partNumber).error));
      }
      calls := calls + [call];
      acks := acks + [reply(partNumber).value];
      partNumber := partNumber + 1;
      offset := offset + PartSize;
    }
    PastTheEnd(content, partNumber - 1);
    r := PartsRun(calls, Success(acks));
  }

  /** multipartUpload as written: init, the part loop, then complete, or abort and rethrow. */
  method MultipartUploadLoop(key: string, content: seq<byte>, store: MultipartStore) returns (run: UploadRun)
    ensures run == MultipartUpload(key, content, store)
  {
    if store.init.Failure? {
      return UploadRun([MultipartInit(key)], Fail(store.init.error));
    }
    var uploadId := store.init.value;
    var parts := SendParts(key, uploadId, content, store.part);
    var sent := [MultipartInit(key)] + parts.calls;
    if parts.result.Failure? {
      return UploadRun(sent + [MultipartAbort(key, uploadId)], Rethrown(parts.result.error, store.abort));
    }
    var done := sent + [MultipartComplete(key, uploadId, parts.result.value)];
    if store.complete.Fail? {
      return UploadRun(done + [MultipartAbort(key, uploadId)], Rethrown(store.complete.error, store.abort));
    }
    run := UploadRun(done, Pass);
  }
}

/**
 The relay variant of the proxy (main.go): an upload request is cut into
 chunks that are sent one by one to a remote storage service; a HEAD request
 asks that service which chunks exist and answers with the offset to resume
 from; a PATCH request restarts ingestion at the chunk the client's offset
 names.

 The remote service is a `RemoteStore`: the HTTP status it answers to the
 n-th upload POST and the body it answers to the existence probe of chunk i
 are fixed in advance (`None` stands for a request that failed), and the
 store records the chunks it accepted.
 */
module RemoteProxy {
  import opened Stream
  import opened Chunking
  import opened GoStrconv
  import opened Http
  import Arith

  /** 50 MiB. */
  const ChunkSize: nat := 50 * 1024 * 1024

  /** The 0/1 path segment the upload URL carries for the final flag. */
  function LastChunkFlag(isLastChunk: bool): (flag: nat)
    ensures flag <= 1
    ensures flag == 1 <==> isLastChunk
  {
    if isLastChunk then 1 else 0
  }

  /**
   The upload POSTs a service accepts, by attempt number: those answered
   201 Created; any other status, or a failed request, is a failure.
   */
  function AcceptedBy(uploadStatus: nat -> Option<int>): nat -> bool
  {
    (n: nat) => uploadStatus(n) == Some(201)
  }

  class RemoteStore {
    /** The status answered to the n-th upload POST. */
    const uploadStatus: nat -> Option<int>
    /** The body answered to the existence probe of chunk i. */
    const probeBody: nat -> Option<string>
    /** The chunks the service accepted, in the order they arrived. */
    var log: seq<ChunkWrite>
    /** Upload POSTs sent so far. */
    var attempts: nat

    constructor (uploadStatus: nat -> Option<int>, probeBody: nat -> Option<string>)
      ensures this.uploadStatus == uploadStatus && this.probeBody == probeBody
      ensures log == [] && attempts == 0
    {
      this.uploadStatus := uploadStatus;
      this.probeBody := probeBody;
      log, attempts := [], 0;
    }

    /** A probe says a chunk exists only if it was answered with the body "true"; a failed probe says no. */
    predicate ChunkExists(chunkIndex: nat)
    {
      probeBody(chunkIndex) == Some("true")
    }

    /** `writeRemoteChunk`: one POST of one chunk; the service keeps it only on success. */
    method WriteRemoteChunk(chunkIndex: int, isLastChunk: bool, data: seq<byte>) returns (ok: bool)
      modifies this
      ensures ok == AcceptedBy(uploadStatus)(old(attempts)) && attempts == old(attempts) + 1
      ensures log == if ok then old(log) + [ChunkWrite(chunkIndex, isLastChunk, data)] else old(log)
    {
      var flag := LastChunkFlag(isLastChunk);
      ok := AcceptedBy(uploadStatus)(attempts);
      if ok {
        log := log + [ChunkWrite(chunkIndex, flag == 1, data)];
      }
      attempts := attempts + 1;
    }

    /** `checkChunkExists`: a read-only probe. */
    method CheckChunkExists(chunkIndex: nat) returns (found: bool)
      ensures found == ChunkExists(chunkIndex)
    {
      found := ChunkExists(chunkIndex);
    }
  }

  /**
   The flush loop of `ingestChunks`: while the buffer holds at least
   `chunkSize` bytes, write its first `chunkSize` bytes as a non-final chunk,
   drop them and move to the next index. It stops at the first rejected write;
   `ok` says whether every write was accepted, and then the buffer holds what
   `Rest` says.
   */
  method FlushChunks(store: RemoteStore, chunkIndex: int, chunkBuffer: seq<byte>, chunkSize: nat)
    returns (nextIndex: int, remaining: seq<byte>, ok: bool)
    requires chunkSize > 0
    modifies store
    ensures Wrote(AcceptedBy(store.uploadStatus), old(store.attempts), old(store.log),
                  Flush(chunkIndex, chunkBuffer, chunkSize), store.log, store.attempts)
    ensures ok <==> Delivered(AcceptedBy(store.uploadStatus), old(store.attempts), |Flush(chunkIndex, chunkBuffer, chunkSize)|)
                    == |Flush(chunkIndex, chunkBuffer, chunkSize)|
    ensures ok ==> nextIndex == chunkIndex + |Flush(chunkIndex, chunkBuffer, chunkSize)|
    ensures ok ==> remaining == Rest(chunkBuffer, chunkSize)
  {
    ghost var full := Flush(chunkIndex, chunkBuffer, chunkSize);
    ghost var log0, a0 := store.log, store.attempts;
    ghost var accepts: nat -> bool := AcceptedBy(store.uploadStatus);
    ghost var done: seq<ChunkWrite> := [];
    AppendEmpty(full);
    AppendEmpty(log0);
    nextIndex, remaining := chunkIndex, chunkBuffer;
    while |remaining| >= chunkSize
      invariant done + Flush(nextIndex, remaining, chunkSize) == full
      invariant Rest(remaining, chunkSize) == Rest(chunkBuffer, chunkSize)
      invariant store.log == log0 + done
      invariant nextIndex == chunkIndex + |done|
      invariant store.attempts == a0 + |done|
      invariant AllAccepted(accepts, a0, |done|)
      decreases |remaining|
    {
      FlushStep(done, nextIndex, remaining, chunkSize);
      ok := store.WriteRemoteChunk(nextIndex, false, remaining[..chunkSize]);
      if !ok {
        WroteRejected(accepts, a0, log0, done, Flush(nextIndex, remaining, chunkSize));
        return;
      }
      AppendAssoc(log0, done, [ChunkWrite(nextIndex, false, remaining[..chunkSize])]);
      done := done + [ChunkWrite(nextIndex, false, remaining[..chunkSize])];
      remaining := remaining[chunkSize..];
      nextIndex := nextIndex + 1;
    }
    FlushDone(done, nextIndex, remaining, full, chunkBuffer, chunkSize);
    WroteAll(accepts, a0, log0, full);
    ok := true;
  }

  /**
   The tail of `ingestChunks`: a non-empty remainder goes out as the final
   chunk; an empty one is not written.
   */
  method WriteLeftover(store: RemoteStore, chunkIndex: int, chunkBuffer: seq<byte>) returns (ok: bool)
    modifies store
    ensures var tail := Leftover(chunkIndex, chunkBuffer);
      var accepts := AcceptedBy(store.uploadStatus);
      && Wrote(accepts, old(store.attempts), old(store.log), tail, store.log, store.attempts)
      && (ok <==> Delivered(accepts, old(store.attempts), |tail|) == |tail|)
  {
    ghost var log0, a0 := store.log, store.attempts;
    ghost var accepts: nat -> bool := AcceptedBy(store.uploadStatus);
    ok := true;
    if |chunkBuffer| > 0 {
      ok := store.WriteRemoteChunk(chunkIndex, true, chunkBuffer);
      if ok {
        WroteAll(accepts, a0, log0, [ChunkWrite(chunkIndex, true, chunkBuffer)]);
      } else {
        WroteRejected(accepts, a0, log0, [], [ChunkWrite(chunkIndex, true, chunkBuffer)]);
        assert [] + [ChunkWrite(chunkIndex, true, chunkBuffer)] == Leftover(chunkIndex, chunkBuffer);
        assert log0 + [] == log0;
      }
    } else {
      WroteAll(accepts, a0, log0, []);
      assert log0 + [] == log0;
    }
  }

  /**
   The loop of `ingestChunks`: reads the body, cuts the buffered bytes into
   chunks and writes them from `startIndex` on, stopping at the first failure.
   The store ends up holding the longest prefix of `Plan` whose writes it
   accepted, exactly one more write was tried if that prefix is short, and
   `err` is the message `ingestChunks` reports for the first failure.
   */
  method IngestBody(startIndex: int, body: seq<ReadResult>, store: RemoteStore, chunkSize: nat)
    returns (err: Option<string>)
    requires chunkSize > 0
    modifies store
    ensures var plan := Plan(startIndex, body, chunkSize);
      var accepts := AcceptedBy(store.uploadStatus);
      && Wrote(accepts, old(store.attempts), old(store.log), plan, store.log, store.attempts)
      && err == IngestError(plan, Delivered(accepts, old(store.attempts), |plan|), FailsOnRead(body, 0))
  {
    ghost var plan := Plan(startIndex, body, chunkSize);
    ghost var log0, a0 := store.log, store.attempts;
    ghost var accepts: nat -> bool := AcceptedBy(store.uploadStatus);
    ghost var consumed: seq<byte> := [];
    ghost var sent: seq<ChunkWrite> := [];
    var chunkIndex := startIndex;
    var chunkBuffer: seq<byte> := [];
    var i: nat := 0;
    var eof := false;
    AppendEmpty(log0);
    AppendEmpty(Consumed(body, 0));
    while !eof
      invariant i <= |body|
      invariant !eof ==> Consumed(body, 0) == consumed + Consumed(body, i) && FailsOnRead(body, 0) == FailsOnRead(body, i)
      invariant eof ==> Consumed(body, 0) == consumed && !FailsOnRead(body, 0)
      invariant sent == Flush(startIndex, consumed, chunkSize)
      invariant chunkBuffer == Rest(consumed, chunkSize)
      invariant store.log == log0 + sent
      invariant chunkIndex == startIndex + |sent|
      invariant store.attempts == a0 + |sent|
      invariant AllAccepted(accepts, a0, |sent|)
      decreases |body| - i + (if eof then 0 else 1)
    {
      var r := ReadAt(body, i);
      if r.status == Err {
        PlanOnReadError(startIndex, body, i, consumed, chunkSize);
        WroteAll(accepts, a0, log0, sent);
        return Some("Error reading body");
      }
      IngestStep(startIndex, body, i, consumed, chunkSize);
      chunkBuffer := chunkBuffer + r.data;
      consumed := consumed + r.data;
      ghost var full := Flush(chunkIndex, chunkBuffer, chunkSize);
      ghost var index0, buffer0 := chunkIndex, chunkBuffer;
      var ok;
      chunkIndex, chunkBuffer, ok := FlushChunks(store, chunkIndex, chunkBuffer, chunkSize);
      if !ok {
        FlushFailure(accepts, a0, log0, plan, sent, index0, buffer0, chunkSize, store.log, store.attempts, FailsOnRead(body, 0));
        return Some("Error writing chunk");
      }
      WroteExtend(accepts, a0, log0, sent, full, store.log, store.attempts);
      sent := sent + full;
      if Ends(r) {
        eof := true;
      } else {
        i := i + 1;
      }
    }
    PlanAtEnd(startIndex, body, consumed, chunkSize);
    var ok := WriteLeftover(store, chunkIndex, chunkBuffer);
    LeftoverOutcome(accepts, a0, log0, sent, chunkIndex, chunkBuffer, store.log, store.attempts, ok);
    if !ok {
      return Some("Error writing final chunk");
    }
    return None;
  }

  /**
   `ingestChunks`: the loop above, then `http.Error` with status 500 for the
   failure it stopped at, if any; on success nothing is sent.
   */
  method IngestChunks(startIndex: int, body: seq<ReadResult>, w: ResponseWriter, store: RemoteStore, chunkSize: nat)
    requires chunkSize > 0
    requires w.status == 0
    modifies w, store
    ensures var plan := Plan(startIndex, body, chunkSize);
      var accepts := AcceptedBy(store.uploadStatus);
      && Wrote(accepts, old(store.attempts), old(store.log), plan, store.log, store.attempts)
      && Reported(w, old(w.header), old(w.body), IngestError(plan, Delivered(accepts, old(store.attempts), |plan|), FailsOnRead(body, 0)))
  {
    var err := IngestBody(startIndex, body, store, chunkSize);
    if err.Some? {
      Error(w, err.value, 500);
    }
  }

  /**
   A server offset: a multiple of the chunk size whose chunk count `k` is the
   first index the store does not report, every index below `k` being reported.
   */
  ghost predicate IsServerOffset(store: RemoteStore, chunkSize: nat, offset: int)
    requires chunkSize > 0
  {
    && offset >= 0
    && offset % chunkSize == 0
    && (forall j: nat :: j < offset / chunkSize ==> store.ChunkExists(j))
    && !store.ChunkExists(offset / chunkSize)
  }

  /**
   `getServerOffset`: probes chunks 0, 1, 2, ... until the first that does not
   exist and answers their count times the chunk size. It only reads the store.
   */
  method GetServerOffset(store: RemoteStore, chunkSize: nat) returns (offset: int)
    requires chunkSize > 0
    requires exists k: nat :: !store.ChunkExists(k)
    ensures IsServerOffset(store, chunkSize, offset)
  {
    ghost var missing: nat :| !store.ChunkExists(missing);
    offset := 0;
    var chunkIndex: nat := 0;
    while true
      invariant offset == chunkIndex * chunkSize
      invariant forall j: nat :: j < chunkIndex ==> store.ChunkExists(j)
      invariant chunkIndex <= missing
      decreases missing - chunkIndex
    {
      var found := store.CheckChunkExists(chunkIndex);
      if !found {
        break;
      }
      offset := offset + chunkSize;
      chunkIndex := chunkIndex + 1;
    }
    Arith.MulDiv(chunkIndex, chunkSize);
  }

  /** Only one offset meets the description, so the probe's answer is determined by the store. */
  lemma {:induction false} ServerOffsetUnique(store: RemoteStore, chunkSize: nat, o1: int, o2: int)
    requires chunkSize > 0
    requires IsServerOffset(store, chunkSize, o1) && IsServerOffset(store, chunkSize, o2)
    ensures o1 == o2
  {
    var k1, k2 := o1 / chunkSize, o2 / chunkSize;
    assert o1 == k1 * chunkSize + o1 % chunkSize;
    assert o2 == k2 * chunkSize + o2 % chunkSize;
  }

  /** `getClientOffset`: the `Upload-Offset` header parsed by `strconv.Atoi`, or `(0, false)`. */
  function GetClientOffset(req: Request): (int, bool)
  {
    match Atoi(Get(req.header, "Upload-Offset"))
    case Some(offset) => (offset, true)
    case None => (0, false)
  }

  /**
   A client that sends back the offset a HEAD reported (as `FormatInt` printed
   it) has it parsed back exactly, and PATCH then restarts at the first chunk
   the store does not have. A missing header is refused.
   */
  lemma {:induction false} ResumeAtServerOffset(store: RemoteStore, req: Request, offset: int)
    requires IsServerOffset(store, ChunkSize, offset) && offset <= MaxInt64
    requires Get(req.header, "Upload-Offset") == FormatInt(offset)
    ensures GetClientOffset(req) == (offset, true)
    ensures var k := GoDiv(offset, ChunkSize);
      && k == offset / ChunkSize
      && !store.ChunkExists(k)
      && forall j: nat :: j < k ==> store.ChunkExists(j)
  {
    AtoiFormatInt(offset);
    var k := GoDiv(offset, ChunkSize);
    Arith.DivUnique(offset, ChunkSize, k, offset - k * ChunkSize);
  }

  /**
   Which `Upload-Offset` headers PATCH takes: a missing header is refused; an
   accepted one is a decimal text and the offset is the number it denotes,
   which fits in 64 bits and is negative only after a minus sign; every
   decimal text whose number fits in 64 bits is accepted, every one of at most
   18 characters in particular. So "abc", "", "12x" and "-" are refused, while "-1" and "+007"
   are taken.
   */
  lemma {:induction false} ClientOffsetSyntax(req: Request)
    ensures "Upload-Offset" !in req.header ==> GetClientOffset(req) == (0, false)
    ensures var h := Get(req.header, "Upload-Offset");
      && (GetClientOffset(req).1 ==> DecimalText(h) && MinInt64 <= GetClientOffset(req).0 <= MaxInt64)
      && (GetClientOffset(req).1 ==> GetClientOffset(req).0 == DecimalValue(h))
      && (DecimalText(h) && MinInt64 <= DecimalValue(h) <= MaxInt64 ==> GetClientOffset(req) == (DecimalValue(h), true))
      && (GetClientOffset(req).1 && GetClientOffset(req).0 < 0 ==> h[0] == '-')
      && (DecimalText(h) && |h| <= 18 ==> GetClientOffset(req).1)
      && (!GetClientOffset(req).1 ==> GetClientOffset(req).0 == 0)
  {
    AtoiAccepts(Get(req.header, "Upload-Offset"));
  }

  /** The checks of the upload handler: the three identifiers and a positive numeric `content-length`. */
  predicate StartAccepted(req: Request)
  {
    var rawContentLength := Get(req.header, "content-length");
    var contentLength := Atoi(rawContentLength);
    && Get(req.header, "x-upload-host") != ""
    && Get(req.query, "containerUUID") != ""
    && Get(req.query, "uploadFileUUID") != ""
    && rawContentLength != ""
    && contentLength.Some?
    && contentLength.value > 0
  }

  /** The resume endpoint's checks: the three identifiers. */
  predicate IdentityPresent(req: Request)
  {
    Get(req.header, "x-upload-host") != "" && Get(req.query, "containerUUID") != "" && Get(req.query, "uploadFileUUID") != ""
  }

  /**
   The upload checks are the resume checks plus a `content-length` that
   `Atoi` reads as a positive number; the separate test for an empty
   `content-length` never decides anything, since `Atoi` refuses "". An
   accepted length is a decimal text without a minus sign.
   */
  lemma {:induction false} StartChecks(req: Request)
    ensures var cl := Get(req.header, "content-length");
      && (StartAccepted(req) <==> IdentityPresent(req) && Atoi(cl).Some? && Atoi(cl).value > 0)
      && (StartAccepted(req) ==> DecimalText(cl) && cl[0] != '-')
  {
    var cl := Get(req.header, "content-length");
    AtoiAccepts(cl);
    assert Atoi("").None?;
  }

  /** The `Location` the upload handler announces. */
  function ResumeUploadUrl(containerUUID: string, uploadFileUUID: string): string
  {
    "http://proxyman.debug:8080/upload/resume?containerUUID=" + containerUUID + "&uploadFileUUID=" + uploadFileUUID
  }

  /**
   `uploadHandler`: a request that fails the checks is answered 400 before
   anything is written; otherwise the body is ingested from chunk 0 and the
   answer is 201 with `Upload-Complete: ?1`, unless ingestion reported an
   error first, in which case that 500 stands and `Upload-Complete` is never sent.
   */
  method UploadHandler(w: ResponseWriter, req: Request, store: RemoteStore)
    requires w.status == 0
    modifies w, store
    ensures !StartAccepted(req) ==>
      && store.log == old(store.log) && store.attempts == old(store.attempts)
      && w.status == 400 && w.sentHeader == old(w.header)
      && w.body == old(w.body) + ("Missing required query parameters" + "\n")
    ensures StartAccepted(req) ==>
      Wrote(AcceptedBy(store.uploadStatus), old(store.attempts), old(store.log), Plan(0, req.body, ChunkSize), store.log, store.attempts)
    ensures StartAccepted(req) ==>
      var plan := Plan(0, req.body, ChunkSize);
      var err := IngestError(plan, Delivered(AcceptedBy(store.uploadStatus), old(store.attempts), |plan|), FailsOnRead(req.body, 0));
      var located := old(w.header)["Location" := ResumeUploadUrl(Get(req.query, "containerUUID"), Get(req.query, "uploadFileUUID"))];
      && (err.Some? ==> w.status == 500 && w.sentHeader == located && w.body == old(w.body) + (err.value + "\n"))
      && (err.None? ==> w.status == 201 && w.sentHeader == located["Upload-Complete" := "?1"] && w.body == old(w.body))
  {
    if !StartAccepted(req) {
      Error(w, "Missing required query parameters", 400);
      return;
    }
    var containerUUID := Get(req.query, "containerUUID");
    var uploadFileUUID := Get(req.query, "uploadFileUUID");
    w.SetHeader("Location", ResumeUploadUrl(containerUUID, uploadFileUUID));
    IngestChunks(0, req.body, w, store, ChunkSize);
    w.SetHeader("Upload-Complete", "?1");
    w.WriteHeader(201);
  }

  /**
   `uploadResumableHandler`. Without the identifiers: 400. HEAD answers 200
   with `Upload-Complete: ?0` and the server offset, and writes nothing. PATCH
   without a parseable `Upload-Offset` answers 400 and writes nothing;
   otherwise it ingests the body from chunk `offset / ChunkSize` (rounded
   toward zero) and answers 200 with `Upload-Complete: ?1`, unless ingestion
   reported an error first. Other methods: 405.
   */
  method UploadResumableHandler(w: ResponseWriter, req: Request, store: RemoteStore)
    requires w.status == 0
    requires IdentityPresent(req) && req.verb == "HEAD" ==> exists k: nat :: !store.ChunkExists(k)
    modifies w, store
    ensures !IdentityPresent(req) ==>
      && store.log == old(store.log) && store.attempts == old(store.attempts)
      && w.status == 400 && w.sentHeader == old(w.header)
      && w.body == old(w.body) + ("Missing required query parameters" + "\n")
    ensures IdentityPresent(req) && req.verb == "HEAD" ==>
      && store.log == old(store.log) && store.attempts == old(store.attempts)
      && w.status == 200 && w.body == old(w.body)
      && exists offset :: IsServerOffset(store, ChunkSize, offset) &&
           w.sentHeader == old(w.header)["Upload-Complete" := "?0"]["Upload-Offset" := FormatInt(offset)]
    ensures IdentityPresent(req) && req.verb == "PATCH" && !GetClientOffset(req).1 ==>
      && store.log == old(store.log) && store.attempts == old(store.attempts)
      && w.status == 400 && w.sentHeader == old(w.header)
      && w.body == old(w.body) + "invalid or missing Upload-Offset header\n"
    ensures IdentityPresent(req) && req.verb == "PATCH" && GetClientOffset(req).1 ==>
      Wrote(AcceptedBy(store.uploadStatus), old(store.attempts), old(store.log),
            Plan(GoDiv(GetClientOffset(req).0, ChunkSize), req.body, ChunkSize), store.log, store.attempts)
    ensures IdentityPresent(req) && req.verb == "PATCH" && GetClientOffset(req).1 ==>
      var plan := Plan(GoDiv(GetClientOffset(req).0, ChunkSize), req.body, ChunkSize);
      var err := IngestError(plan, Delivered(AcceptedBy(store.uploadStatus), old(store.attempts), |plan|), FailsOnRead(req.body, 0));
      && (err.Some? ==> w.status == 500 && w.sentHeader == old(w.header) && w.body == old(w.body) + (err.value + "\n"))
      && (err.None? ==> w.status == 200 && w.sentHeader == old(w.header)["Upload-Complete" := "?1"] && w.body == old(w.body))
    ensures IdentityPresent(req) && req.verb != "HEAD" && req.verb != "PATCH" ==>
      && store.log == old(store.log) && store.attempts == old(store.attempts)
      && w.status == 405 && w.sentHeader == old(w.header)
      && w.body == old(w.body) + ("Invalid request method" + "\n")
  {
    if !IdentityPresent(req) {
      Error(w, "Missing required query parameters", 400);
      return;
    }
    if req.verb == "HEAD" {
      var uploadOffset := GetServerOffset(store, ChunkSize);
      w.SetHeader("Upload-Complete", "?0");
      w.SetHeader("Upload-Offset", FormatInt(uploadOffset));
      w.WriteHeader(200);
    } else if req.verb == "PATCH" {
      var (uploadOffset, ok) := GetClientOffset(req);
      if !ok {
        w.WriteHeader(400);
        w.Write("invalid or missing Upload-Offset header\n");
        return;
      }
      var chunkIndex := GoDiv(uploadOffset, ChunkSize);
      IngestChunks(chunkIndex, req.body, w, store, ChunkSize);
      w.SetHeader("Upload-Complete", "?1");
      w.WriteHeader(200);
    } else {
      Error(w, "Invalid request method", 405);
    }
  }
}

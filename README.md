# st-resumable-proxy, modelled in Dafny

A model of the upload proxy's chunking core, with proofs. The repository ships two
alternative programs:

- **main.go, the relay.** `uploadHandler` reads the request body and cuts it into
  50 MiB chunks in `ingestChunks`. It POSTs each chunk to a remote storage
  service, marking the leftover chunk final. When the length is a multiple of
  50 MiB, there is no leftover and no chunk is marked final. `uploadResumableHandler` serves two
  requests. HEAD probes the service for chunks 0, 1, 2, ... and answers with the
  byte offset of the first missing one. PATCH restarts ingestion at the chunk
  index the client's `Upload-Offset` names.
- **st.go, the local store.** The same buffering loop writes chunk `i` to the file
  `containers/<uuid>/<i>` after creating the directory.

## Files

- `stream.dfy`, module `Stream`: bytes, `Option`, and the request body as a
  sequence of `Body.Read` results (data plus Ok/Eof/Err).
  - `Consumed` gives the bytes the loop appends.
  - `FailsOnRead` says whether the loop stops on a transport error.
  - `StopAt` is the read that stops the loop; `ConsumedReads` restates
    `Consumed` and `FailsOnRead` in terms of it.
- `chunking.dfy`, module `Chunking`: the specification both loops are proved
  against.
  - `Flush`: the full chunks cut from a buffer.
  - `Rest`: what the buffer keeps.
  - `Leftover`: the final chunk.
  - `Plan`: every write of an ingestion.
  - `Delivered`: how many writes the store accepts before its first rejection.
  - `Wrote`: the relay store's state after a run of writes.
  - `IngestError`: the message reported.
- `strconv.dfy`, module `GoStrconv`: `strconv.FormatInt`/`%d`, `strconv.Atoi` on
  64-bit `int`, and Go's truncating `/`.
- `arith.dfy`, module `Arith`: division facts used by the proofs.
- `http.dfy`, module `Http`: the request value, and `ResponseWriter` with Go's
  commit rule.
  - The first final status sends the header as it stands.
  - A later `WriteHeader` is ignored.
  - `http.Error` is modelled too.
- `remote_proxy.dfy`, module `RemoteProxy`: main.go.
  - The remote service is a `RemoteStore` class.
  - Its answers to the n-th upload POST and to the probe of chunk i are fixed
    functions. `None` stands for a request that failed.
  - It logs the chunks it accepted.
- `local_store.dfy`, module `LocalStore`: st.go.
  - The file system is a `FileSystem` class.
  - Whether `os.MkdirAll` succeeds, and how the n-th `writeChunk` fares, are fixed
    in advance. A write either succeeds, fails in `os.Create`, or fails in `Write`
    after some bytes.
  - Its files form a map from path to bytes.

Both loops take the chunk size as a parameter `c > 0`. The handlers pass the
source's 50 MiB. Each loop is proved against `Plan`:

- the store ends up holding the longest prefix of the plan whose writes succeeded;
- exactly one more write was attempted if that prefix is short;
- the error message is the one for the first failure.

Separate lemmas prove what the plan itself promises: chunk sizes, consecutive
indices, when the last chunk is final, the chunk count, and the round trip back to
the body's bytes.

The loops follow the code's structure. Two loops of the source were split into
separate methods:

- The flush loop is `FlushChunks`, and the leftover write is `WriteLeftover`.
- In st.go, one turn of the read loop is `ReadTurn`, and the loop is
  `ReceiveChunks`.

The source's `for { ... break }` becomes a loop on an `eof` flag that is set where
the source breaks.

The model follows the code as written:

- A PATCH offset is not checked for sign or alignment. `strconv.Atoi` accepts
  `-1`, and Go's `/` truncates toward zero. So the start index is
  `GoDiv(offset, ChunkSize)`, and chunk indices are `int`, not `nat`.
- A failed ingestion is reported by `http.Error` with status 500. The handler
  then still sets `Upload-Complete: ?1` and calls `WriteHeader`, which Go ignores.
  That header is therefore never sent.

## Model

| member | source | states |
|---|---|---|
| Stream.StopAt | main.go:116-137 | the read that stops the loop is the first from the current one that fails, ends the stream or reads 0 bytes; it is at most one past the recorded reads |
| Stream.ConsumedReads | main.go:116-138 | the loop appends the data of every read before the stopping read, then that read's data unless it failed; ingestion fails on a read exactly when the stopping read failed |
| GoStrconv.GoDiv | main.go:47 | Go's `/` by a positive divisor: the quotient rounded toward zero, bounded from both sides for either sign of the dividend |
| GoStrconv.AtoiFormatInt | main.go:60 | `Atoi` parses back exactly what `FormatInt` printed (main.go:37) for every 64-bit value |
| GoStrconv.AtoiAccepts | main.go:60 | `Atoi` accepts exactly the decimal texts (digits, or a sign then digits) whose number fits in 64 bits, and answers that number (negative only after `-`); every decimal text of at most 18 characters is accepted |
| GoStrconv.FormatIntInjective | st.go:45 | distinct integers print as distinct decimal strings |
| Http.ResponseWriter.SetHeader | main.go:36-37 | only the editable header map changes; nothing already sent changes |
| Http.ResponseWriter.WriteHeader | main.go:38 | the first final status is sent along with the header as it stands; a later call changes nothing |
| Http.ResponseWriter.Write | main.go:43 | the body grows by the data; with no status yet, 200 is sent first |
| Http.Error | main.go:29 | the status is sent if none was, then the message and a newline; the header map is unchanged |
| Chunking.DeliveredRun | main.go:126-130 | the `Delivered` count is a run of accepted attempts, followed by a rejected one unless every write was accepted |
| Chunking.DeliveredExactly | main.go:126-130 | a run of `m` accepted attempts, ended by a rejection or by the count, gives exactly `m` |
| Chunking.DeliveredStopped | main.go:127-129 | after a rejection, no number of further planned writes changes the count |
| Chunking.FlushShape | main.go:126-132 | every chunk the flush loop writes is non-final, exactly `c` bytes long, and numbered `index, index+1, ...` |
| Chunking.FlushConcat | main.go:123-131 | the flushed chunks, followed by what the buffer keeps, are the buffer byte for byte |
| Chunking.FlushCount | main.go:126-133 | `|buf| / c` chunks are written and `|buf| % c` bytes stay, fewer than `c` |
| Chunking.FlushSize | main.go:126-131 | chunks times `c` plus the remainder is the buffer length, and the remainder is below `c` |
| Chunking.FlushAppend | main.go:116-133 | flushing after each read writes the same chunks, in the same order, as flushing all the bytes at once, and keeps the same remainder |
| Chunking.DataPlanShape | main.go:126-142 | writes are numbered consecutively from the start index; only the last can be final, and it is the leftover write, present iff the length is not a multiple of `c` and then holding 1 to c-1 bytes; every other chunk holds `c` bytes |
| Chunking.DataPlanCount | main.go:116-146 | a complete ingestion makes ceil(L / c) writes |
| Chunking.DataPlanConcat | main.go:116-146 | concatenating a complete ingestion's writes in order gives the bytes read |
| Chunking.ResumeAfterInterruption | main.go:47-49 | resuming at chunk `k` (the count of full chunks sent) with the bytes from `k*c` on writes what one uninterrupted ingestion would write after chunk `k-1` |
| Chunking.FlushAligned | main.go:126-131 | the flushed chunks depend only on the bytes they hold: flushing just those bytes writes the same chunks and keeps nothing |
| Chunking.PlanBytes | main.go:116-146 | the writes of an ingestion are numbered consecutively from the start index and carry the consumed bytes in order: all of them when the body ends normally; after a failed read, all but the `|consumed| % c` bytes still buffered |
| Chunking.FlushIsPlanPrefix | main.go:116-133 | the chunks the loop has written so far are a prefix of the writes of the whole ingestion |
| Chunking.IngestStep | main.go:118-137 | one successful read: appending its data and flushing extends the written chunks within the plan; the loop ends or continues as the read says |
| Chunking.PlanOnReadError | main.go:119-121 | a failed read ends ingestion with only the full chunks of the earlier reads; its data is dropped and no leftover is written |
| Chunking.WroteAll | main.go:126-133 | when every write is accepted, the store logs all of them, one attempt each |
| Chunking.WroteRejected | main.go:127-129 | a rejected write ends the run: the store keeps the earlier writes and no later write is tried |
| Chunking.WroteEvery | main.go:126-146 | a run in which every write was delivered logs exactly those writes, and every attempt was accepted |
| Chunking.WroteAppend | main.go:116-146 | two runs, the first fully accepted, are one run over the concatenated writes |
| Chunking.WroteExtend | main.go:126-133 | two fully accepted runs log both, in order |
| Chunking.WroteStopped | main.go:127-129 | a run that stopped at a rejection is also the run over any longer plan it begins |
| Chunking.FlushFailure | main.go:127-129 | a failed flush write leaves the store with the plan's accepted prefix; the failed write is a non-final chunk, so the report is "Error writing chunk" |
| Chunking.LeftoverOutcome | main.go:141-145 | after the final write, every write was delivered iff that write was; a failure there was the final chunk and is reported "Error writing final chunk" |
| RemoteProxy.LastChunkFlag | main.go:150-153 | the URL's flag is 0 or 1, and 1 exactly for the last chunk |
| RemoteProxy.RemoteStore.WriteRemoteChunk | main.go:149-178 | one attempt is counted; success is the service answering 201, and only then is the chunk logged |
| RemoteProxy.RemoteStore.CheckChunkExists | main.go:180-206 | the probe says a chunk exists iff the service answered "true"; a failed probe says no; nothing changes |
| RemoteProxy.FlushChunks | main.go:126-133 | the store holds the accepted prefix of `Flush`; `ok` iff all were accepted, and then the index advanced by their number and the buffer holds `Rest` |
| RemoteProxy.WriteLeftover | main.go:141-146 | a non-empty remainder is written once as the final chunk; an empty one is not written |
| RemoteProxy.IngestBody | main.go:112-146 | the store holds the longest accepted prefix of `Plan`, with one more attempt if that prefix is short; `err` is the report for the first failure (read, chunk, or final chunk) |
| RemoteProxy.IngestChunks | main.go:112-147 | as `IngestBody`, plus the response: on a failure 500 with the message; otherwise nothing is sent |
| RemoteProxy.GetServerOffset | main.go:67-80 | the result is a non-negative multiple of the chunk size; every chunk below `offset / chunkSize` exists and that one does not; the store is only read |
| RemoteProxy.ServerOffsetUnique | main.go:67-80 | at most one offset meets that description, so the answer is determined by the store |
| RemoteProxy.ResumeAtServerOffset | main.go:40-47 | a client that sends back the reported offset gets it parsed exactly, and PATCH resumes at the first chunk the store does not have |
| RemoteProxy.ClientOffsetSyntax | main.go:59-65 | a missing `Upload-Offset` is refused as `(0, false)`; an accepted one is a decimal text and the offset is its number, within 64 bits and negative only after `-`; every decimal text whose number fits in 64 bits is accepted with that number; a refused one yields offset 0 |
| RemoteProxy.StartChecks | main.go:85-97 | the upload checks are the resume checks (main.go:28) plus a `content-length` that `Atoi` reads as positive; the separate empty-string test never decides anything; an accepted length has no minus sign |
| RemoteProxy.UploadHandler | main.go:82-110 | failed checks: 400 and no write; otherwise ingestion from chunk 0, then 201 with `Location` and `Upload-Complete: ?1`, or the 500 of the first failure with only `Location` sent |
| RemoteProxy.UploadResumableHandler | main.go:19-57 | missing identifiers: 400; HEAD: 200 with `?0` and the server offset, no write; PATCH with a bad offset: 400 and no write; PATCH: ingestion from `offset / ChunkSize` rounded toward zero, then 200 with `?1` or the 500 of the first failure; other methods: 405 |
| LocalStore.AfterWriteEffect | st.go:71-80 | a chunk write touches only its own file: success stores the data; a failed `Write` leaves at most `kept` bytes of it; a failed `os.Create` changes nothing |
| LocalStore.ChunkPathInjective | st.go:45 | two chunk indices that give the same path in a directory are the same index |
| LocalStore.ChunkPathsDisjoint | st.go:21-22 | for container names without `/`, as a UUID string is, equal chunk paths (st.go:45, 61) mean the same container and the same chunk: two uploads never share a file |
| LocalStore.ChunkFileInjective | st.go:45 | a directory's naming scheme gives distinct chunks distinct files |
| LocalStore.FileSystem.MkdirAll | st.go:24 | the directory exists afterwards iff creation succeeded; no file changes |
| LocalStore.FileSystem.WriteChunk | st.go:71-80 | one attempt is counted; `ok` iff the write met no fault; the files change as `AfterWrite` says |
| LocalStore.SavedAppend | st.go:44-52 | saving two runs of chunk writes one after the other is saving their concatenation |
| LocalStore.SavedFile | st.go:45 | with consecutive indices and distinct files, the file of chunk `j` holds exactly that chunk |
| LocalStore.StoredAll | st.go:44-52 | every write succeeded: each chunk is in its file, one attempt each |
| LocalStore.StoredRejected | st.go:46-49 | the writes before a failed one are saved, the failed one leaves what its fault leaves, and no later write is tried |
| LocalStore.StoredSingle | st.go:60-65 | one write: saved if it succeeded, otherwise it leaves what its fault leaves; one attempt |
| LocalStore.StoredAppend | st.go:34-66 | two runs, the first fully successful, are one run over the concatenated writes |
| LocalStore.StoredStopped | st.go:46-49 | a run that stopped at a failed write is also the run over any longer plan it begins |
| LocalStore.StoredChunkFailure | st.go:46-49 | a failed write of a full chunk stops the plan there, and the report is "Error writing chunk" whatever the reads did |
| LocalStore.StoredLeftover | st.go:59-66 | after the leftover write, every write succeeded iff it did; a failure there is reported "Error writing final chunk" |
| LocalStore.ReadBackSaved | st.go:34-66 | reading the files of chunks `0..k-1` back in index order gives the bytes of the first `k` writes |
| LocalStore.UploadReadsBack | st.go:34-66 | with no failed read, once every chunk is saved, reading the directory's chunk files 0, 1, 2, ... in order gives the body's bytes |
| LocalStore.FlushChunks | st.go:44-52 | extends the run of saved writes by the flush's chunks; on success the index advanced by their number and the buffer holds `Rest`; on failure the write that failed was a non-final chunk |
| LocalStore.WriteLeftover | st.go:59-66 | a non-empty remainder is written once, final, to the next chunk's file; an empty one is not written |
| LocalStore.ReadTurn | st.go:35-56 | one turn of the read loop keeps the loop state for the bytes consumed so far, or stops with the files and report of the first failure |
| LocalStore.ReceiveChunks | st.go:34-57 | the read loop either stops at the first failure, with the files and report the plan gives, or reads to the end with every full chunk saved and the remainder buffered |
| LocalStore.StoreBody | st.go:30-66 | the files are those of the longest successful prefix of `Plan`, plus what a failed write left; one attempt per write tried; `err` reports the first failure |
| LocalStore.UploadHandler | st.go:18-69 | a failed mkdir gives 500 and writes no file; otherwise the chunks go to `containers/<uuid>/<i>`, then a 500 with the first failure's message or "Upload complete." |

## Left out

- Server plumbing is not modelled: `main`, `http.HandleFunc`, `ListenAndServe`, `defer r.Body.Close()`, and the `fmt.Println` logging.
- The interim 104 response is not modelled, nor the `Upload-Draft-Interop-Version` header set and deleted around it (main.go:101-104). The deleted header never reaches the final response.
- The network is not modelled. `writeRemoteChunk` and `checkChunkExists` keep only their decisions: the 0/1 flag, success being 201, and existence being the body "true". Request building, URLs, `User-Agent` and transport errors become the fixed answers of `RemoteStore`.
- The file system is abstract. `os.MkdirAll` is one success flag, and it records only the named directory, not its parents. `os.Create` and `Write` are a fixed fault per attempt. A chunk write does not require its directory to exist: a missing directory is one more way for the fault oracle to fail.
- `uuid.New()` is not modelled: the container id is a parameter of `LocalStore.UploadHandler`.
- A read's data is not limited to 4096 bytes. No proved property depends on that bound.
- `RemoteProxy.GetServerOffset`: does not model `int64` overflow of the offset. It uses unbounded integers and requires some chunk to be missing, since otherwise the source loops forever.
- `RemoteProxy.ResumeAtServerOffset`: is stated only for offsets up to the largest `int64`, the range `Atoi` accepts.
- `Http.Error`: does not model the `Content-Type` and `X-Content-Type-Options` headers Go's `http.Error` adds before sending the status. The model sends the header as the handler left it.
- `Http.ResponseWriter.WriteHeader`: models only final statuses (200-599). The one informational status the source sends is the 104 left out above.
- Headers the server adds itself are not modelled. When the status goes out, `net/http` adds `Date` and, where it can, `Content-Length`. On a `Write` with no `Content-Type`, it also adds a sniffed one.
- Header names are matched exactly. Go's canonicalisation of header keys is not modelled.

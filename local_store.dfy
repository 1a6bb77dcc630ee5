/**
 The local variant of the proxy (st.go): the upload handler creates the
 directory `containers/<uuid>`, cuts the request body into chunks with the
 same buffering loop as the relay variant, and writes chunk `i` to the file
 `containers/<uuid>/<i>`.

 The file system is a `FileSystem`: whether creating the directory succeeds
 and how the n-th chunk write fares are fixed in advance, and the files it
 holds form a map from path to contents.
 */
module LocalStore {
  import opened Stream
  import opened Chunking
  import opened GoStrconv
  import opened Http

  /** 50 MiB. */
  const ChunkSize: nat := 50 * 1024 * 1024

  /**
   How one `writeChunk` call fares: `os.Create` fails and no file is made, or
   the file is created (emptied if it existed) and `Write` stops with an error
   after storing its first `kept` bytes.
   */
  datatype WriteFault = NoFault | CreateFails | WriteFails(kept: nat)

  /** The files after one `writeChunk(path, data)` that met `fault`; no other file changes. */
  function AfterWrite<K>(files: map<K, seq<byte>>, path: K, data: seq<byte>, fault: WriteFault): map<K, seq<byte>>
  {
    match fault
    case NoFault => files[path := data]
    case CreateFails => files
    case WriteFails(kept) => files[path := if kept < |data| then data[..kept] else data]
  }

  /**
   A write touches only its own file: a successful one stores the data, a
   failed `Write` leaves a prefix of at most `kept` bytes, and a failed
   `os.Create` changes nothing.
   */
  lemma {:induction false} AfterWriteEffect<K>(files: map<K, seq<byte>>, path: K, data: seq<byte>, fault: WriteFault, p: K)
    ensures p != path ==> (p in AfterWrite(files, path, data, fault) <==> p in files)
    ensures p != path && p in files ==> AfterWrite(files, path, data, fault)[p] == files[p]
    ensures fault.NoFault? ==> path in AfterWrite(files, path, data, fault) && AfterWrite(files, path, data, fault)[path] == data
    ensures fault.WriteFails? ==> path in AfterWrite(files, path, data, fault)
    ensures fault.WriteFails? ==> AfterWrite(files, path, data, fault)[path] <= data
    ensures fault.WriteFails? ==> |AfterWrite(files, path, data, fault)[path]| <= fault.kept
    ensures fault.CreateFails? ==> AfterWrite(files, path, data, fault) == files
  {
  }

  /** The write attempts a file system completes, by attempt number: those that meet no fault. */
  function Healthy(writeFault: nat -> WriteFault): nat -> bool
  {
    (n: nat) => writeFault(n).NoFault?
  }

  /** `fmt.Sprintf("containers/%s", containerUUID)` */
  function ContainerPath(containerUUID: string): string
  {
    "containers/" + containerUUID
  }

  /** `fmt.Sprintf("%s/%d", containerPath, chunkIndex)` */
  function ChunkPath(containerPath: string, chunkIndex: int): string
  {
    containerPath + "/" + FormatInt(chunkIndex)
  }

  /** The naming scheme of the chunk files of directory `dir`: chunk `i` goes to `ChunkPath(dir, i)`. */
  function ChunkFile(dir: string): int -> string
  {
    (i: int) => ChunkPath(dir, i)
  }

  /** A naming scheme that gives distinct chunks distinct files. */
  ghost predicate Injective<K>(name: int -> K)
  {
    forall i, j :: name(i) == name(j) ==> i == j
  }

  /** Distinct chunk indices go to distinct files of the same directory. */
  lemma {:induction false} ChunkPathInjective(containerPath: string, i: int, j: int)
    requires ChunkPath(containerPath, i) == ChunkPath(containerPath, j)
    ensures i == j
  {
    var k := |containerPath| + 1;
    assert ChunkPath(containerPath, i)[k..] == FormatInt(i);
    assert ChunkPath(containerPath, j)[k..] == FormatInt(j);
    FormatIntInjective(i, j);
  }

  /**
   Two uploads never share a chunk file: for container names without a `/`,
   as `uuid.New().String()` yields, equal chunk paths mean the same container
   and the same chunk.
   */
  lemma {:induction false} ChunkPathsDisjoint(u1: string, u2: string, i: int, j: int)
    requires '/' !in u1 && '/' !in u2
    requires ChunkPath(ContainerPath(u1), i) == ChunkPath(ContainerPath(u2), j)
    ensures u1 == u2 && i == j
  {
    var p := ChunkPath(ContainerPath(u1), i);
    var k := |"containers/"|;
    assert p[k + |u1|] == '/';
    assert ChunkPath(ContainerPath(u2), j)[k + |u2|] == '/';
    assert |u1| == |u2|;
    assert u1 == p[k..k + |u1|] == u2;
    ChunkPathInjective(ContainerPath(u1), i, j);
  }

  lemma {:induction false} ChunkFileInjective(dir: string)
    ensures Injective(ChunkFile(dir))
  {
    forall i, j | ChunkFile(dir)(i) == ChunkFile(dir)(j)
      ensures i == j
    {
      ChunkPathInjective(dir, i, j);
    }
  }

  /** A file system whose paths are values of type `Path` (strings, for the handler). */
  class FileSystem<Path(==)> {
    /** Whether `os.MkdirAll` succeeds. */
    const mkdirOk: bool
    /** How the n-th chunk write fares. */
    const writeFault: nat -> WriteFault
    var dirs: set<Path>
    var files: map<Path, seq<byte>>
    /** Chunk writes attempted so far. */
    var attempts: nat

    constructor (mkdirOk: bool, writeFault: nat -> WriteFault, files: map<Path, seq<byte>>)
      ensures this.mkdirOk == mkdirOk && this.writeFault == writeFault
      ensures this.files == files && dirs == {} && attempts == 0
    {
      this.mkdirOk := mkdirOk;
      this.writeFault := writeFault;
      this.files := files;
      dirs, attempts := {}, 0;
    }

    /** `os.MkdirAll(path, os.ModePerm)`: creates the directory or fails; no file changes. */
    method MkdirAll(path: Path) returns (ok: bool)
      modifies this
      ensures ok == mkdirOk
      ensures dirs == if ok then old(dirs) + {path} else old(dirs)
      ensures files == old(files) && attempts == old(attempts)
    {
      ok := mkdirOk;
      if ok {
        dirs := dirs + {path};
      }
    }

    /** `writeChunk`: create the file and write the data; an error is reported as `!ok`. */
    method WriteChunk(path: Path, data: seq<byte>) returns (ok: bool)
      modifies this
      ensures ok == Healthy(writeFault)(old(attempts)) && attempts == old(attempts) + 1
      ensures ok <==> writeFault(old(attempts)).NoFault?
      ensures files == AfterWrite(old(files), path, data, writeFault(old(attempts)))
      ensures dirs == old(dirs)
    {
      var fault := writeFault(attempts);
      files := AfterWrite(files, path, data, fault);
      ok := fault.NoFault?;
      attempts := attempts + 1;
    }
  }

  // ---------------------------------------------------------------------------
  // The files a run of writes leaves

  /** The files after every write of `writes` succeeded, in order: each chunk in its own file. */
  function Saved<K>(files: map<K, seq<byte>>, name: int -> K, writes: seq<ChunkWrite>): map<K, seq<byte>>
    decreases |writes|
  {
    if writes == [] then files
    else
      var w := writes[|writes| - 1];
      Saved(files, name, writes[..|writes| - 1])[name(w.index) := w.data]
  }

  /**
   The files after the first `n` writes succeeded and, if that is not all of
   them, the next one met `fault`.
   */
  function FilesAfter<K>(files0: map<K, seq<byte>>, name: int -> K, writes: seq<ChunkWrite>, n: nat, fault: WriteFault): map<K, seq<byte>>
    requires n <= |writes|
  {
    var saved := Saved(files0, name, writes[..n]);
    if n < |writes| then AfterWrite(saved, name(writes[n].index), writes[n].data, fault) else saved
  }

  /**
   The file system's state after ingestion issued `writes` one by one from
   attempt `a0`, stopping at the first failed write: the files of the writes
   that succeeded, what the failed one left, and one attempt per write tried.
   */
  predicate Stored<K>(accepts: nat -> bool, writeFault: nat -> WriteFault, a0: nat, files0: map<K, seq<byte>>, name: int -> K,
                   writes: seq<ChunkWrite>, files: map<K, seq<byte>>, attempts: nat)
  {
    var n := Delivered(accepts, a0, |writes|);
    files == FilesAfter(files0, name, writes, n, writeFault(a0 + n)) && attempts == a0 + Attempted(n, writes)
  }

  lemma {:induction false} SavedStep<K>(files: map<K, seq<byte>>, name: int -> K, done: seq<ChunkWrite>, w: ChunkWrite)
    ensures Saved(files, name, done + [w]) == Saved(files, name, done)[name(w.index) := w.data]
  {
    assert (done + [w])[..|done|] == done;
  }

  /** Saving two runs of writes one after the other is saving their concatenation. */
  lemma {:induction false} SavedAppend<K>(files: map<K, seq<byte>>, name: int -> K, a: seq<ChunkWrite>, b: seq<ChunkWrite>)
    ensures Saved(files, name, a + b) == Saved(Saved(files, name, a), name, b)
    decreases |b|
  {
    if b == [] {
      assert a + b == a;
    } else {
      var b' := b[..|b| - 1];
      assert (a + b)[..|a + b| - 1] == a + b';
      assert (a + b)[|a + b| - 1] == b[|b| - 1];
      SavedAppend(files, name, a, b');
    }
  }

  /** The files after the writes of `done` and then the first `n` of `more`, the next meeting `fault`. */
  lemma {:induction false} FilesAfterAppend<K>(files0: map<K, seq<byte>>, name: int -> K, done: seq<ChunkWrite>, more: seq<ChunkWrite>, n: nat, fault: WriteFault)
    requires n <= |more|
    ensures FilesAfter(files0, name, done + more, |done| + n, fault) == FilesAfter(Saved(files0, name, done), name, more, n, fault)
  {
    assert (done + more)[..|done| + n] == done + more[..n];
    SavedAppend(files0, name, done, more[..n]);
    if n < |more| {
      assert (done + more)[|done| + n] == more[n];
    }
  }

  /** The files after a failed write depend only on the writes up to it. */
  lemma {:induction false} FilesAfterPrefix<K>(files0: map<K, seq<byte>>, name: int -> K, writes: seq<ChunkWrite>, plan: seq<ChunkWrite>, n: nat, fault: WriteFault)
    requires writes <= plan && n < |writes|
    ensures FilesAfter(files0, name, plan, n, fault) == FilesAfter(files0, name, writes, n, fault)
  {
    assert plan[..n] == writes[..n];
    assert plan[n] == writes[n];
  }

  /** Every write accepted: each chunk is in its file, one attempt per write. */
  lemma {:induction false} StoredAll<K>(accepts: nat -> bool, writeFault: nat -> WriteFault, a0: nat, files0: map<K, seq<byte>>, name: int -> K, writes: seq<ChunkWrite>)
    requires AllAccepted(accepts, a0, |writes|)
    ensures Delivered(accepts, a0, |writes|) == |writes|
    ensures Stored(accepts, writeFault, a0, files0, name, writes, Saved(files0, name, writes), a0 + |writes|)
  {
    DeliveredExactly(accepts, a0, |writes|, |writes|);
    assert writes[..|writes|] == writes;
  }

  /** The writes of `done` succeeded and the next failed: what it left is the last change. */
  lemma {:induction false} StoredRejected<K>(accepts: nat -> bool, writeFault: nat -> WriteFault, a0: nat, files0: map<K, seq<byte>>, name: int -> K,
                       done: seq<ChunkWrite>, pending: seq<ChunkWrite>)
    requires pending != []
    requires AllAccepted(accepts, a0, |done|)
    requires !accepts(a0 + |done|)
    ensures Delivered(accepts, a0, |done + pending|) == |done|
    ensures Stored(accepts, writeFault, a0, files0, name, done + pending,
                   AfterWrite(Saved(files0, name, done), name(pending[0].index), pending[0].data, writeFault(a0 + |done|)),
                   a0 + |done| + 1)
  {
    DeliveredExactly(accepts, a0, |done + pending|, |done|);
    assert (done + pending)[..|done|] == done;
    assert (done + pending)[|done|] == pending[0];
  }

  /** A single write: it succeeded and is saved, or it failed and left what the fault leaves. */
  lemma {:induction false} StoredSingle<K>(accepts: nat -> bool, writeFault: nat -> WriteFault, a0: nat, files0: map<K, seq<byte>>, name: int -> K,
                     w: ChunkWrite)
    requires accepts(a0) <==> writeFault(a0).NoFault?
    ensures Delivered(accepts, a0, 1) == if accepts(a0) then 1 else 0
    ensures Stored(accepts, writeFault, a0, files0, name, [w], AfterWrite(files0, name(w.index), w.data, writeFault(a0)), a0 + 1)
  {
    assert [w][..0] == [];
    if accepts(a0) {
      assert [w][..1] == [w];
      SavedStep(files0, name, [], w);
      AppendEmpty([w]);
    }
  }

  /** Two runs of writes, the first wholly accepted, are one run over their concatenation. */
  lemma {:induction false} StoredAppend<K>(accepts: nat -> bool, writeFault: nat -> WriteFault, a0: nat, files0: map<K, seq<byte>>, name: int -> K,
                     done: seq<ChunkWrite>, more: seq<ChunkWrite>, files: map<K, seq<byte>>, attempts: nat)
    requires AllAccepted(accepts, a0, |done|)
    requires Stored(accepts, writeFault, a0 + |done|, Saved(files0, name, done), name, more, files, attempts)
    ensures Delivered(accepts, a0, |done + more|) == |done| + Delivered(accepts, a0 + |done|, |more|)
    ensures Stored(accepts, writeFault, a0, files0, name, done + more, files, attempts)
  {
    var n := Delivered(accepts, a0 + |done|, |more|);
    var m := |done| + n;
    DeliveredRun(accepts, a0 + |done|, |more|);
    DeliveredExactly(accepts, a0, |done + more|, m);
    assert a0 + |done| + n == a0 + m;
    FilesAfterAppend(files0, name, done, more, n, writeFault(a0 + m));
    assert Attempted(m, done + more) == |done| + Attempted(n, more);
  }

  /** A run that stopped at a failed write is also the run over any longer plan it begins. */
  lemma {:induction false} StoredStopped<K>(accepts: nat -> bool, writeFault: nat -> WriteFault, a0: nat, files0: map<K, seq<byte>>, name: int -> K,
                      writes: seq<ChunkWrite>, plan: seq<ChunkWrite>, files: map<K, seq<byte>>, attempts: nat)
    requires writes <= plan
    requires Delivered(accepts, a0, |writes|) < |writes|
    requires Stored(accepts, writeFault, a0, files0, name, writes, files, attempts)
    ensures Delivered(accepts, a0, |plan|) == Delivered(accepts, a0, |writes|)
    ensures Stored(accepts, writeFault, a0, files0, name, plan, files, attempts)
  {
    var n := Delivered(accepts, a0, |writes|);
    DeliveredStopped(accepts, a0, |writes|, |plan|);
    FilesAfterPrefix(files0, name, writes, plan, n, writeFault(a0 + n));
    assert Attempted(n, plan) == Attempted(n, writes);
  }

  /**
   A run that stopped at a failed write of a non-final chunk, inside a longer
   plan: the plan's run stopped there too, and the handler reports a failed
   chunk write whatever the reads did.
   */
  lemma {:induction false} StoredChunkFailure<K>(accepts: nat -> bool, writeFault: nat -> WriteFault, a0: nat, files0: map<K, seq<byte>>, name: int -> K,
                           writes: seq<ChunkWrite>, plan: seq<ChunkWrite>, files: map<K, seq<byte>>, attempts: nat, readFails: bool)
    requires writes <= plan
    requires Delivered(accepts, a0, |writes|) < |writes| && !writes[Delivered(accepts, a0, |writes|)].final
    requires Stored(accepts, writeFault, a0, files0, name, writes, files, attempts)
    ensures Delivered(accepts, a0, |plan|) < |plan|
    ensures Stored(accepts, writeFault, a0, files0, name, plan, files, attempts)
    ensures IngestError(plan, Delivered(accepts, a0, |plan|), readFails) == Some("Error writing chunk")
  {
    var n := Delivered(accepts, a0, |writes|);
    StoredStopped(accepts, writeFault, a0, files0, name, writes, plan, files, attempts);
    assert plan[n] == writes[n];
  }

  /**
   The final write after the flushed writes in `sent` all succeeded: every
   write succeeded exactly when the leftover's did, and a failure here was the
   final chunk's.
   */
  lemma {:induction false} StoredLeftover<K>(accepts: nat -> bool, writeFault: nat -> WriteFault, a0: nat, files0: map<K, seq<byte>>, name: int -> K,
                       sent: seq<ChunkWrite>, index: int, rest: seq<byte>, files: map<K, seq<byte>>, attempts: nat,
                       delivered: bool)
    requires AllAccepted(accepts, a0, |sent|)
    requires Stored(accepts, writeFault, a0 + |sent|, Saved(files0, name, sent), name, Leftover(index, rest), files, attempts)
    requires delivered <==> Delivered(accepts, a0 + |sent|, |Leftover(index, rest)|) == |Leftover(index, rest)|
    ensures var plan := sent + Leftover(index, rest);
      var m := Delivered(accepts, a0, |plan|);
      && Stored(accepts, writeFault, a0, files0, name, plan, files, attempts)
      && (m == |plan| <==> delivered)
      && IngestError(plan, m, false) == if delivered then None else Some("Error writing final chunk")
  {
    StoredAppend(accepts, writeFault, a0, files0, name, sent, Leftover(index, rest), files, attempts);
    if rest != [] {
      assert (sent + Leftover(index, rest))[|sent|] == ChunkWrite(index, true, rest);
    }
  }

  // ---------------------------------------------------------------------------
  // Reading the chunk files back

  /** The files of chunks `0 .. k-1` read in index order (a missing file reads as empty). */
  function ReadBack<K>(files: map<K, seq<byte>>, name: int -> K, k: nat): seq<byte>
  {
    if k == 0 then []
    else
      var path := name(k - 1);
      ReadBack(files, name, k - 1) + (if path in files then files[path] else [])
  }

  /** When writes are numbered `start, start+1, ...` and go to distinct files, the file of write `j` holds its data. */
  lemma {:induction false} SavedFile<K>(files0: map<K, seq<byte>>, name: int -> K, writes: seq<ChunkWrite>, start: int, j: nat)
    requires Injective(name)
    requires forall a :: 0 <= a < |writes| ==> writes[a].index == start + a
    requires j < |writes|
    ensures name(start + j) in Saved(files0, name, writes)
    ensures Saved(files0, name, writes)[name(start + j)] == writes[j].data
    decreases |writes|
  {
    var last := |writes| - 1;
    if j < last {
      var front := writes[..last];
      SavedFile(files0, name, front, start, j);
      assert name(start + last) != name(start + j);
    }
  }

  lemma {:induction false} ReadBackSaved<K>(files0: map<K, seq<byte>>, name: int -> K, writes: seq<ChunkWrite>, k: nat)
    requires Injective(name)
    requires forall a :: 0 <= a < |writes| ==> writes[a].index == a
    requires k <= |writes|
    ensures ReadBack(Saved(files0, name, writes), name, k) == Concat(writes[..k])
    decreases k
  {
    if k > 0 {
      ReadBackSaved(files0, name, writes, k - 1);
      SavedFile(files0, name, writes, 0, k - 1);
      assert writes[..k] == writes[..k - 1] + [writes[k - 1]];
      ConcatAppend(writes[..k - 1], [writes[k - 1]]);
      assert Concat([writes[k - 1]]) == writes[k - 1].data + Concat([]);
    }
  }

  /**
   With no failed read, once every chunk of an upload is saved, reading the
   chunk files `0, 1, 2, ...` of the directory back in index order gives the
   body's bytes.
   */
  lemma {:induction false} UploadReadsBack(files0: map<string, seq<byte>>, dir: string, body: seq<ReadResult>, c: nat)
    requires c > 0 && !FailsOnRead(body, 0)
    ensures var plan := Plan(0, body, c);
      ReadBack(Saved(files0, ChunkFile(dir), plan), ChunkFile(dir), |plan|) == Consumed(body, 0)
  {
    ChunkFileInjective(dir);
    var data := Consumed(body, 0);
    var plan := DataPlan(0, data, c);
    DataPlanShape(0, data, c);
    DataPlanConcat(0, data, c);
    ReadBackSaved(files0, ChunkFile(dir), plan, |plan|);
    assert plan[..|plan|] == plan;
  }

  // ---------------------------------------------------------------------------
  // The upload handler

  /**
   The flush loop of `uploadHandler`: while the buffer holds at least
   `chunkSize` bytes, write its first `chunkSize` bytes to the file of
   `chunkIndex`, drop them and move to the next index, stopping at the first
   failed write. The ghost parameters name the writes `sent` that earlier
   flushes made from attempt `a0` on files `files0`; the contract extends that
   run by the writes of this flush.
   */
  method FlushChunks<Path(==)>(fs: FileSystem<Path>, name: int -> Path, chunkIndex: int, chunkBuffer: seq<byte>, chunkSize: nat,
                     ghost a0: nat, ghost files0: map<Path, seq<byte>>, ghost sent: seq<ChunkWrite>)
    returns (nextIndex: int, remaining: seq<byte>, ok: bool)
    requires chunkSize > 0
    requires fs.files == Saved(files0, name, sent) && fs.attempts == a0 + |sent|
    requires AllAccepted(Healthy(fs.writeFault), a0, |sent|)
    modifies fs
    ensures ok ==> fs.files == Saved(files0, name, sent + Flush(chunkIndex, chunkBuffer, chunkSize))
    ensures ok ==> fs.attempts == a0 + |sent + Flush(chunkIndex, chunkBuffer, chunkSize)|
    ensures ok ==> AllAccepted(Healthy(fs.writeFault), a0, |sent + Flush(chunkIndex, chunkBuffer, chunkSize)|)
    ensures ok ==> nextIndex == chunkIndex + |Flush(chunkIndex, chunkBuffer, chunkSize)|
    ensures ok ==> remaining == Rest(chunkBuffer, chunkSize)
    ensures !ok ==>
      var writes := sent + Flush(chunkIndex, chunkBuffer, chunkSize);
      && Delivered(Healthy(fs.writeFault), a0, |writes|) < |writes|
      && !writes[Delivered(Healthy(fs.writeFault), a0, |writes|)].final
      && Stored(Healthy(fs.writeFault), fs.writeFault, a0, files0, name, writes, fs.files, fs.attempts)
    ensures fs.dirs == old(fs.dirs)
  {
    ghost var full := Flush(chunkIndex, chunkBuffer, chunkSize);
    ghost var healthy: nat -> bool := Healthy(fs.writeFault);
    ghost var done: seq<ChunkWrite> := sent;
    AppendEmpty(full);
    nextIndex, remaining := chunkIndex, chunkBuffer;
    while |remaining| >= chunkSize
      invariant done + Flush(nextIndex, remaining, chunkSize) == sent + full
      invariant Rest(remaining, chunkSize) == Rest(chunkBuffer, chunkSize)
      invariant fs.files == Saved(files0, name, done)
      invariant nextIndex == chunkIndex + |done| - |sent|
      invariant fs.attempts == a0 + |done|
      invariant AllAccepted(healthy, a0, |done|)
      invariant fs.dirs == old(fs.dirs)
      decreases |remaining|
    {
      FlushStep(done, nextIndex, remaining, chunkSize);
      var chunkFilePath := name(nextIndex);
      ok := fs.WriteChunk(chunkFilePath, remaining[..chunkSize]);
      if !ok {
        StoredRejected(healthy, fs.writeFault, a0, files0, name, done, Flush(nextIndex, remaining, chunkSize));
        return;
      }
      SavedStep(files0, name, done, ChunkWrite(nextIndex, false, remaining[..chunkSize]));
      done := done + [ChunkWrite(nextIndex, false, remaining[..chunkSize])];
      remaining := remaining[chunkSize..];
      nextIndex := nextIndex + 1;
    }
    FlushDone(done, nextIndex, remaining, sent + full, chunkBuffer, chunkSize);
    ok := true;
  }

  /** The tail of `uploadHandler`: a non-empty remainder goes to the next chunk file; an empty one is not written. */
  method WriteLeftover<Path(==)>(fs: FileSystem<Path>, name: int -> Path, chunkIndex: int, chunkBuffer: seq<byte>) returns (ok: bool)
    modifies fs
    ensures Stored(Healthy(fs.writeFault), fs.writeFault, old(fs.attempts), old(fs.files), name, Leftover(chunkIndex, chunkBuffer), fs.files, fs.attempts)
    ensures ok <==> Delivered(Healthy(fs.writeFault), old(fs.attempts), |Leftover(chunkIndex, chunkBuffer)|)
                    == |Leftover(chunkIndex, chunkBuffer)|
    ensures fs.dirs == old(fs.dirs)
  {
    ghost var files0, a0 := fs.files, fs.attempts;
    ok := true;
    if |chunkBuffer| > 0 {
      var chunkFilePath := name(chunkIndex);
      ok := fs.WriteChunk(chunkFilePath, chunkBuffer);
      StoredSingle(Healthy(fs.writeFault), fs.writeFault, a0, files0, name, ChunkWrite(chunkIndex, true, chunkBuffer));
    } else {
      StoredAll(Healthy(fs.writeFault), fs.writeFault, a0, files0, name, []);
    }
  }

  /**
   The state of the read loop once the bytes `consumed` were read: every full
   chunk of them is in its file, each write accepted at the first try, and
   the bytes after the last full chunk wait in `chunkBuffer` for the chunk
   `chunkIndex`.
   */
  predicate Received<K>(accepts: nat -> bool, a0: nat, files0: map<K, seq<byte>>, name: int -> K, c: nat,
                        consumed: seq<byte>, chunkIndex: int, chunkBuffer: seq<byte>, files: map<K, seq<byte>>, attempts: nat)
    requires c > 0
  {
    var sent := Flush(0, consumed, c);
    && chunkBuffer == Rest(consumed, c)
    && chunkIndex == |sent|
    && files == Saved(files0, name, sent)
    && attempts == a0 + |sent|
    && AllAccepted(accepts, a0, |sent|)
  }

  /**
   One turn of the read loop of `uploadHandler`: read `body[i]`; on a read
   error stop; otherwise append the data to the buffer and flush every full
   chunk, stopping at a failed write. `eof` says whether the loop ends after
   this turn. On a failure the files are those of the longest prefix of `Plan`
   whose writes succeeded plus what the failed write left, and `err` is the
   message the handler reports.
   */
  method ReadTurn<Path(==)>(fs: FileSystem<Path>, name: int -> Path, body: seq<ReadResult>, i: nat,
                            chunkIndex: int, chunkBuffer: seq<byte>, chunkSize: nat,
                            ghost a0: nat, ghost files0: map<Path, seq<byte>>, ghost consumed: seq<byte>)
    returns (err: Option<string>, eof: bool, nextIndex: int, remaining: seq<byte>, ghost consumed': seq<byte>)
    requires chunkSize > 0
    requires Consumed(body, 0) == consumed + Consumed(body, i) && FailsOnRead(body, 0) == FailsOnRead(body, i)
    requires Received(Healthy(fs.writeFault), a0, files0, name, chunkSize, consumed, chunkIndex, chunkBuffer, fs.files, fs.attempts)
    modifies fs
    ensures err.Some? ==>
      && Stored(Healthy(fs.writeFault), fs.writeFault, a0, files0, name, Plan(0, body, chunkSize), fs.files, fs.attempts)
      && err == IngestError(Plan(0, body, chunkSize), Delivered(Healthy(fs.writeFault), a0, |Plan(0, body, chunkSize)|),
                            FailsOnRead(body, 0))
    ensures err.None? ==>
      Received(Healthy(fs.writeFault), a0, files0, name, chunkSize, consumed', nextIndex, remaining, fs.files, fs.attempts)
    ensures err.None? && eof ==> Consumed(body, 0) == consumed' && !FailsOnRead(body, 0)
    ensures err.None? && !eof ==>
      i < |body| && Consumed(body, 0) == consumed' + Consumed(body, i + 1) && FailsOnRead(body, 0) == FailsOnRead(body, i + 1)
    ensures fs.dirs == old(fs.dirs)
  {
    ghost var sent := Flush(0, consumed, chunkSize);
    var r := ReadAt(body, i);
    if r.status == Err {
      PlanOnReadError(0, body, i, consumed, chunkSize);
      StoredAll(Healthy(fs.writeFault), fs.writeFault, a0, files0, name, sent);
      return Some("Error reading body"), true, chunkIndex, chunkBuffer, consumed;
    }
    IngestStep(0, body, i, consumed, chunkSize);
    consumed' := consumed + r.data;
    ghost var writes := sent + Flush(chunkIndex, chunkBuffer + r.data, chunkSize);
    var ok;
    nextIndex, remaining, ok := FlushChunks(fs, name, chunkIndex, chunkBuffer + r.data, chunkSize, a0, files0, sent);
    if !ok {
      StoredChunkFailure(Healthy(fs.writeFault), fs.writeFault, a0, files0, name, writes, Plan(0, body, chunkSize),
                         fs.files, fs.attempts, FailsOnRead(body, 0));
      return Some("Error writing chunk"), true, nextIndex, remaining, consumed';
    }
    err, eof := None, Ends(r);
  }

  /**
   The read loop of `uploadHandler`: reads the body, cuts the buffered bytes
   into chunks and writes them to the files of indices 0, 1, 2, ..., stopping
   at the first failure. On a failure the files are those of the longest
   prefix of `Plan` whose writes succeeded plus what the failed write left,
   and `err` is the message the handler reports. Otherwise the body was read
   to its end, every full chunk of it is in its file, and the bytes after the
   last full chunk are left in `chunkBuffer` for the chunk `chunkIndex`.
   */
  method ReceiveChunks<Path(==)>(fs: FileSystem<Path>, name: int -> Path, body: seq<ReadResult>, chunkSize: nat)
    returns (err: Option<string>, chunkIndex: int, chunkBuffer: seq<byte>)
    requires chunkSize > 0
    modifies fs
    ensures err.Some? ==>
      && Stored(Healthy(fs.writeFault), fs.writeFault, old(fs.attempts), old(fs.files), name, Plan(0, body, chunkSize), fs.files, fs.attempts)
      && err == IngestError(Plan(0, body, chunkSize),
                            Delivered(Healthy(fs.writeFault), old(fs.attempts), |Plan(0, body, chunkSize)|),
                            FailsOnRead(body, 0))
    ensures err.None? ==>
      && !FailsOnRead(body, 0)
      && Received(Healthy(fs.writeFault), old(fs.attempts), old(fs.files), name, chunkSize, Consumed(body, 0),
                  chunkIndex, chunkBuffer, fs.files, fs.attempts)
    ensures fs.dirs == old(fs.dirs)
  {
    ghost var files0, a0 := fs.files, fs.attempts;
    ghost var consumed: seq<byte> := [];
    chunkIndex := 0;
    chunkBuffer := [];
    var i: nat := 0;
    var eof := false;
    AppendEmpty(Consumed(body, 0));
    assert Flush(0, consumed, chunkSize) == [];
    while !eof
      invariant i <= |body|
      invariant !eof ==> Consumed(body, 0) == consumed + Consumed(body, i) && FailsOnRead(body, 0) == FailsOnRead(body, i)
      invariant eof ==> Consumed(body, 0) == consumed && !FailsOnRead(body, 0)
      invariant Received(Healthy(fs.writeFault), a0, files0, name, chunkSize, consumed, chunkIndex, chunkBuffer, fs.files, fs.attempts)
      invariant fs.dirs == old(fs.dirs)
      decreases |body| - i + (if eof then 0 else 1)
    {
      err, eof, chunkIndex, chunkBuffer, consumed := ReadTurn(fs, name, body, i, chunkIndex, chunkBuffer, chunkSize, a0, files0, consumed);
      if err.Some? {
        return;
      }
      if !eof {
        i := i + 1;
      }
    }
    err := None;
  }

  /**
   The body-storing part of `uploadHandler`: the read loop, then the bytes
   left after the last full chunk go to one more chunk file. The files are
   those of the longest prefix of `Plan` whose writes succeeded plus what a
   failed write left, and `err` is the message the handler reports for the
   first failure.
   */
  method StoreBody<Path(==)>(fs: FileSystem<Path>, name: int -> Path, body: seq<ReadResult>, chunkSize: nat) returns (err: Option<string>)
    requires chunkSize > 0
    modifies fs
    ensures Stored(Healthy(fs.writeFault), fs.writeFault, old(fs.attempts), old(fs.files), name, Plan(0, body, chunkSize), fs.files, fs.attempts)
    ensures err == IngestError(Plan(0, body, chunkSize),
                               Delivered(Healthy(fs.writeFault), old(fs.attempts), |Plan(0, body, chunkSize)|),
                               FailsOnRead(body, 0))
    ensures fs.dirs == old(fs.dirs)
  {
    ghost var files0, a0 := fs.files, fs.attempts;
    var chunkIndex, chunkBuffer;
    err, chunkIndex, chunkBuffer := ReceiveChunks(fs, name, body, chunkSize);
    if err.Some? {
      return;
    }
    ghost var sent := Flush(0, Consumed(body, 0), chunkSize);
    PlanAtEnd(0, body, Consumed(body, 0), chunkSize);
    var ok := WriteLeftover(fs, name, chunkIndex, chunkBuffer);
    StoredLeftover(Healthy(fs.writeFault), fs.writeFault, a0, files0, name, sent, chunkIndex, chunkBuffer, fs.files, fs.attempts, ok);
    if !ok {
      return Some("Error writing final chunk");
    }
    return None;
  }

  /**
   `uploadHandler` of the local variant: create `containers/<uuid>` (500 and
   nothing written if that fails), store the body's chunks there (500 with
   the message of the first failure), then answer "Upload complete.".
   */
  method UploadHandler(w: ResponseWriter, req: Request, fs: FileSystem<string>, containerUUID: string)
    requires w.status == 0
    modifies w, fs
    ensures !fs.mkdirOk ==>
      && fs.files == old(fs.files) && fs.attempts == old(fs.attempts)
      && w.status == 500 && w.sentHeader == old(w.header)
      && w.body == old(w.body) + ("Error creating directory" + "\n")
    ensures fs.mkdirOk ==>
      && ContainerPath(containerUUID) in fs.dirs
      && Stored(Healthy(fs.writeFault), fs.writeFault, old(fs.attempts), old(fs.files), ChunkFile(ContainerPath(containerUUID)), Plan(0, req.body, ChunkSize),
                fs.files, fs.attempts)
    ensures fs.mkdirOk ==>
      var plan := Plan(0, req.body, ChunkSize);
      var err := IngestError(plan, Delivered(Healthy(fs.writeFault), old(fs.attempts), |plan|), FailsOnRead(req.body, 0));
      && (err.Some? ==> w.status == 500 && w.sentHeader == old(w.header) && w.body == old(w.body) + (err.value + "\n"))
      && (err.None? ==> w.status == 200 && w.sentHeader == old(w.header) && w.body == old(w.body) + ("Upload complete." + "\n"))
  {
    var containerPath := ContainerPath(containerUUID);
    var ok := fs.MkdirAll(containerPath);
    if !ok {
      Error(w, "Error creating directory", 500);
      return;
    }
    var err := StoreBody(fs, ChunkFile(containerPath), req.body, ChunkSize);
    if err.Some? {
      Error(w, err.value, 500);
      return;
    }
    w.Write("Upload complete." + "\n");
  }
}

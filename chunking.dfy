/**
 The chunk buffer and the writes it produces, stated as functions of the bytes
 consumed from the body. Both ingestion loops (the remote relay and the local
 directory store) are proved against these definitions.

 A chunk write carries its index, the final flag and its bytes. Indices are
 integers: a resumed upload may start at any index the client's offset gives.
 */
module Chunking {
  import opened Stream
  import Arith

  datatype ChunkWrite = ChunkWrite(index: int, final: bool, data: seq<byte>)

  /**
   The full chunks the flush loop cuts from the front of `buf`, numbered from
   `index`: while at least `c` bytes are buffered, the first `c` of them form a
   non-final chunk and are dropped from the buffer.
   */
  function Flush(index: int, buf: seq<byte>, c: nat): seq<ChunkWrite>
    requires c > 0
    decreases |buf|
  {
    if |buf| < c then [] else [ChunkWrite(index, false, buf[..c])] + Flush(index + 1, buf[c..], c)
  }

  /** What the buffer still holds once the flush loop stops. */
  function Rest(buf: seq<byte>, c: nat): seq<byte>
    requires c > 0
    decreases |buf|
  {
    if |buf| < c then buf else Rest(buf[c..], c)
  }

  /** The leftover write: present only for a non-empty remainder, and then marked final. */
  function Leftover(index: int, rest: seq<byte>): seq<ChunkWrite>
  {
    if rest == [] then [] else [ChunkWrite(index, true, rest)]
  }

  /** All writes of an ingestion of `data` that starts at chunk `start` and reaches end of stream. */
  function DataPlan(start: int, data: seq<byte>, c: nat): seq<ChunkWrite>
    requires c > 0
  {
    var full := Flush(start, data, c);
    full + Leftover(start + |full|, Rest(data, c))
  }

  /**
   The writes ingestion of `body` issues when every write succeeds: the full
   chunks of the consumed bytes, then the leftover unless the loop stopped on
   a read error.
   */
  function Plan(start: int, body: seq<ReadResult>, c: nat): seq<ChunkWrite>
    requires c > 0
  {
    if FailsOnRead(body, 0) then Flush(start, Consumed(body, 0), c) else DataPlan(start, Consumed(body, 0), c)
  }

  /** The bytes of a sequence of writes, in order. */
  function Concat(ws: seq<ChunkWrite>): seq<byte>
  {
    if ws == [] then [] else ws[0].data + Concat(ws[1..])
  }

  /** The store accepts the `n` attempts from number `a0` on. */
  predicate AllAccepted(accepts: nat -> bool, a0: nat, n: nat)
  {
    forall j: nat :: a0 <= j < a0 + n ==> accepts(j)
  }

  /**
   How many of `count` writes the store accepts when the first is its attempt
   number `a0`: ingestion stops at the first rejected write.
   */
  function Delivered(accepts: nat -> bool, a0: nat, count: nat): (n: nat)
    ensures n <= count
    decreases count
  {
    if count == 0 || !accepts(a0) then 0 else 1 + Delivered(accepts, a0 + 1, count - 1)
  }

  /** What `Delivered` counts: a run of accepted attempts, ended by a rejection unless all were accepted. */
  lemma {:induction false} DeliveredRun(accepts: nat -> bool, a0: nat, count: nat)
    ensures var n := Delivered(accepts, a0, count);
      && AllAccepted(accepts, a0, n)
      && (n < count ==> !accepts(a0 + n))
    decreases count
  {
    if count > 0 && accepts(a0) {
      DeliveredRun(accepts, a0 + 1, count - 1);
    }
  }

  /** Writes attempted when `n` of `plan` were accepted: one more if a write was rejected. */
  function Attempted(n: nat, plan: seq<ChunkWrite>): nat
  {
    if n < |plan| then n + 1 else n
  }

  /**
   The error an ingestion reports after `n` accepted writes of `plan`: a failed
   chunk write, a failed final write, a failed read, or none.
   */
  function IngestError(plan: seq<ChunkWrite>, n: nat, readFails: bool): Option<string>
    requires n <= |plan|
  {
    if n < |plan| then
      Some(if plan[n].final then "Error writing final chunk" else "Error writing chunk")
    else if readFails then Some("Error reading body")
    else None
  }

  // ---------------------------------------------------------------------------
  // The flush loop

  lemma {:induction false} ConcatAppend(a: seq<ChunkWrite>, b: seq<ChunkWrite>)
    ensures Concat(a + b) == Concat(a) + Concat(b)
    decreases |a|
  {
    if a == [] {
      assert a + b == b;
    } else {
      assert (a + b)[1..] == a[1..] + b;
      ConcatAppend(a[1..], b);
    }
  }

  /**
   Appending `d` to a buffer that has already been flushed to `Rest(s, c)` and
   flushing again writes exactly the chunks that flushing `s + d` at once would
   write after those of `s`, and leaves the same remainder.
   */
  lemma {:induction false} FlushAppend(index: int, s: seq<byte>, d: seq<byte>, c: nat)
    requires c > 0
    ensures Flush(index, s + d, c) == Flush(index, s, c) + Flush(index + |Flush(index, s, c)|, Rest(s, c) + d, c)
    ensures Rest(s + d, c) == Rest(Rest(s, c) + d, c)
    decreases |s|
  {
    if |s| >= c {
      assert (s + d)[..c] == s[..c];
      assert (s + d)[c..] == s[c..] + d;
      FlushAppend(index + 1, s[c..], d, c);
    }
  }

  /** Every flushed chunk is non-final, exactly `c` bytes long, and numbered consecutively. */
  lemma {:induction false} FlushShape(index: int, buf: seq<byte>, c: nat)
    requires c > 0
    ensures forall j :: 0 <= j < |Flush(index, buf, c)| ==>
      Flush(index, buf, c)[j].index == index + j && !Flush(index, buf, c)[j].final &&
      |Flush(index, buf, c)[j].data| == c
    decreases |buf|
  {
    if |buf| >= c {
      FlushShape(index + 1, buf[c..], c);
    }
  }

  /** The flushed chunks followed by the remainder give back the buffer, byte for byte. */
  lemma {:induction false} FlushConcat(index: int, buf: seq<byte>, c: nat)
    requires c > 0
    ensures Concat(Flush(index, buf, c)) + Rest(buf, c) == buf
    decreases |buf|
  {
    if |buf| >= c {
      var f' := Flush(index + 1, buf[c..], c);
      FlushConcat(index + 1, buf[c..], c);
      FlushHead(index, buf, c);
      AppendAssoc(buf[..c], Concat(f'), Rest(buf[c..], c));
      assert buf[..c] + buf[c..] == buf;
    } else {
      assert Flush(index, buf, c) == [] && Rest(buf, c) == buf;
      AppendEmpty(buf);
    }
  }

  /** A flush that writes at least one chunk: its bytes are the first chunk's and then the rest's. */
  lemma {:induction false} FlushHead(index: int, buf: seq<byte>, c: nat)
    requires c > 0 && |buf| >= c
    ensures Concat(Flush(index, buf, c)) == buf[..c] + Concat(Flush(index + 1, buf[c..], c))
    ensures Rest(buf, c) == Rest(buf[c..], c)
  {
    assert Flush(index, buf, c)[1..] == Flush(index + 1, buf[c..], c);
  }

  /** `|buf| / c` chunks are flushed and `|buf| % c` bytes remain. */
  lemma {:induction false} FlushCount(index: int, buf: seq<byte>, c: nat)
    requires c > 0
    ensures |Flush(index, buf, c)| == |buf| / c
    ensures |Rest(buf, c)| == |buf| % c
  {
    FlushSize(index, buf, c);
    Arith.DivUnique(|buf|, c, |Flush(index, buf, c)|, |Rest(buf, c)|);
  }

  lemma {:induction false} FlushSize(index: int, buf: seq<byte>, c: nat)
    requires c > 0
    ensures |Flush(index, buf, c)| * c + |Rest(buf, c)| == |buf|
    ensures |Rest(buf, c)| < c
    decreases |buf|
  {
    if |buf| >= c {
      FlushSize(index + 1, buf[c..], c);
      assert |Flush(index, buf, c)| == 1 + |Flush(index + 1, buf[c..], c)|;
      assert |Flush(index, buf, c)| * c == c + |Flush(index + 1, buf[c..], c)| * c;
    }
  }

  // ---------------------------------------------------------------------------
  // A complete ingestion

  /**
   The shape of a complete ingestion: writes are numbered `start, start+1, ...`;
   every write but the last is a full non-final chunk; only the last may be
   final, and it is final exactly when the length is not a multiple of `c`, in
   which case it holds between 1 and `c - 1` bytes.
   */
  lemma {:induction false} DataPlanShape(start: int, data: seq<byte>, c: nat)
    requires c > 0
    ensures var p := DataPlan(start, data, c);
      forall j :: 0 <= j < |p| ==>
        && p[j].index == start + j
        && (p[j].final <==> (j == |p| - 1 && |data| % c != 0))
        && (!p[j].final ==> |p[j].data| == c)
        && (p[j].final ==> 0 < |p[j].data| < c)
  {
    var full := Flush(start, data, c);
    FlushShape(start, data, c);
    FlushCount(start, data, c);
    FlushSize(start, data, c);
  }

  /** The number of writes is the least `k` with `k * c >= |data|`, that is ceil(|data| / c). */
  lemma {:induction false} DataPlanCount(start: int, data: seq<byte>, c: nat)
    requires c > 0
    ensures |DataPlan(start, data, c)| == (|data| + c - 1) / c
    ensures |DataPlan(start, data, c)| * c >= |data|
    ensures |DataPlan(start, data, c)| > 0 ==> (|DataPlan(start, data, c)| - 1) * c < |data|
  {
    var k := |Flush(start, data, c)|;
    var r := Rest(data, c);
    FlushSize(start, data, c);
    if r == [] {
      assert |data| + c - 1 == k * c + (c - 1);
      Arith.DivUnique(|data| + c - 1, c, k, c - 1);
    } else {
      assert |data| + c - 1 == (k + 1) * c + (|r| - 1);
      Arith.DivUnique(|data| + c - 1, c, k + 1, |r| - 1);
    }
  }

  /** Concatenating the writes of a complete ingestion in index order reproduces the data. */
  lemma {:induction false} DataPlanConcat(start: int, data: seq<byte>, c: nat)
    requires c > 0
    ensures Concat(DataPlan(start, data, c)) == data
  {
    var full := Flush(start, data, c);
    var rest := Rest(data, c);
    ConcatAppend(full, Leftover(start + |full|, rest));
    FlushConcat(start, data, c);
    if rest != [] {
      assert Concat([ChunkWrite(start + |full|, true, rest)]) == rest + Concat([]);
    }
  }

  /**
   Resuming an interrupted upload: suppose the first request consumed `sent`, a
   prefix of the file `file`, and its flush loop wrote the full chunks of
   `sent` from index 0 before it stopped. A second request that restarts at
   chunk `k` (their number) with the bytes from `k * c` on writes exactly the
   chunks a single uninterrupted ingestion of the whole file would have written
   after the first `k`.
   */
  lemma {:induction false} ResumeAfterInterruption(file: seq<byte>, sent: seq<byte>, c: nat)
    requires c > 0
    requires sent <= file
    ensures var k := |Flush(0, sent, c)|;
      && k * c <= |file|
      && Flush(0, sent, c) + DataPlan(k, file[k * c..], c) == DataPlan(0, file, c)
  {
    var k := |Flush(0, sent, c)|;
    FlushSize(0, sent, c);
    var m := k * c;
    FlushAligned(0, sent, c);
    var head := sent[..m];
    assert Flush(0, head, c) == Flush(0, sent, c) && Rest(head, c) == [];
    assert head == file[..m];
    var tail := file[m..];
    assert file == head + tail;
    FlushAppend(0, head, tail, c);
    assert Rest(head, c) + tail == tail;
    assert Flush(0, file, c) == Flush(0, sent, c) + Flush(k, tail, c);
    assert Rest(file, c) == Rest(tail, c);
    AppendAssoc(Flush(0, sent, c), Flush(k, tail, c), Leftover(k + |Flush(k, tail, c)|, Rest(tail, c)));
  }

  /**
   The flushed chunks depend only on the bytes they hold: flushing the first
   `|buf| - |Rest(buf, c)|` bytes alone writes the same chunks and leaves nothing.
   */
  lemma {:induction false} FlushAligned(index: int, buf: seq<byte>, c: nat)
    requires c > 0
    ensures |Rest(buf, c)| <= |buf|
    ensures var head := buf[..|buf| - |Rest(buf, c)|];
      Flush(index, head, c) == Flush(index, buf, c) && Rest(head, c) == []
    decreases |buf|
  {
    if |buf| >= c {
      FlushAligned(index + 1, buf[c..], c);
      var m := |buf| - |Rest(buf, c)|;
      var head := buf[..m];
      assert head[..c] == buf[..c];
      assert head[c..] == buf[c..][..|buf[c..]| - |Rest(buf[c..], c)|];
    }
  }

  /**
   What an ingestion writes, when every write succeeds: consecutive chunk
   numbers from `start`, and the bytes consumed from the body in order; all of
   them when the body ends normally, and after a failed read all but the
   `|consumed| % c` bytes still buffered, which never reach the store.
   */
  lemma {:induction false} PlanBytes(start: int, body: seq<ReadResult>, c: nat)
    requires c > 0
    ensures var p := Plan(start, body, c);
      && (forall j :: 0 <= j < |p| ==> p[j].index == start + j)
      && Concat(p) <= Consumed(body, 0)
      && (!FailsOnRead(body, 0) ==> Concat(p) == Consumed(body, 0))
      && (FailsOnRead(body, 0) ==> |Concat(p)| == |Consumed(body, 0)| - |Consumed(body, 0)| % c)
  {
    var data := Consumed(body, 0);
    if FailsOnRead(body, 0) {
      FlushShape(start, data, c);
      FlushConcat(start, data, c);
      FlushCount(start, data, c);
    } else {
      DataPlanShape(start, data, c);
      DataPlanConcat(start, data, c);
    }
  }

  /**
   The flush loop's writes so far are a prefix of the plan: once the loop has
   consumed `consumed` and the rest of the body will still deliver `tail`,
   `Flush(start, consumed, c)` is the front of `Plan(start, body, c)`.
   */
  lemma {:induction false} FlushIsPlanPrefix(start: int, body: seq<ReadResult>, consumed: seq<byte>, tail: seq<byte>, c: nat)
    requires c > 0
    requires Consumed(body, 0) == consumed + tail
    ensures Flush(start, consumed, c) + Flush(start + |Flush(start, consumed, c)|, Rest(consumed, c) + tail, c)
      <= Plan(start, body, c)
  {
    FlushAppend(start, consumed, tail, c);
  }

  /**
   One turn of an ingestion loop that has consumed `consumed` and now reads
   `body[i]` successfully: appending its data to the buffer `Rest(consumed)`
   and flushing gives the full chunks of the bytes consumed so far, those
   chunks are a prefix of the plan, and the reads left are what remains of
   the body.
   */
  lemma {:induction false} IngestStep(start: int, body: seq<ReadResult>, i: nat, consumed: seq<byte>, c: nat)
    requires c > 0
    requires Consumed(body, 0) == consumed + Consumed(body, i)
    requires FailsOnRead(body, 0) == FailsOnRead(body, i)
    requires ReadAt(body, i).status != Err
    ensures var d := ReadAt(body, i).data;
      var sent := Flush(start, consumed, c);
      var buf := Rest(consumed, c) + d;
      && sent + Flush(start + |sent|, buf, c) == Flush(start, consumed + d, c)
      && sent + Flush(start + |sent|, buf, c) <= Plan(start, body, c)
      && Rest(buf, c) == Rest(consumed + d, c)
    ensures Ends(ReadAt(body, i)) ==>
      Consumed(body, 0) == consumed + ReadAt(body, i).data && !FailsOnRead(body, 0)
    ensures !Ends(ReadAt(body, i)) ==>
      && i < |body|
      && Consumed(body, 0) == (consumed + ReadAt(body, i).data) + Consumed(body, i + 1)
      && FailsOnRead(body, 0) == FailsOnRead(body, i + 1)
  {
    var r := ReadAt(body, i);
    var tail: seq<byte> := if Ends(r) then [] else Consumed(body, i + 1);
    assert Consumed(body, i) == r.data + tail;
    assert Consumed(body, 0) == (consumed + r.data) + tail;
    FlushAppend(start, consumed, r.data, c);
    FlushIsPlanPrefix(start, body, consumed + r.data, tail, c);
  }

  /** Where the loop ends: on a read error the plan is the full chunks read so far. */
  lemma {:induction false} PlanOnReadError(start: int, body: seq<ReadResult>, i: nat, consumed: seq<byte>, c: nat)
    requires c > 0
    requires Consumed(body, 0) == consumed + Consumed(body, i)
    requires FailsOnRead(body, 0) == FailsOnRead(body, i)
    requires ReadAt(body, i).status == Err
    ensures FailsOnRead(body, 0)
    ensures Plan(start, body, c) == Flush(start, consumed, c)
  {
    assert consumed + [] == consumed;
  }

  /** Where the loop ends: at end of stream the plan adds the leftover. */
  lemma {:induction false} PlanAtEnd(start: int, body: seq<ReadResult>, consumed: seq<byte>, c: nat)
    requires c > 0 && Consumed(body, 0) == consumed && !FailsOnRead(body, 0)
    ensures Plan(start, body, c) == Flush(start, consumed, c) + Leftover(start + |Flush(start, consumed, c)|, Rest(consumed, c))
  {
  }

  /** A run of writes that stopped at a rejection stops there however many writes follow. */
  lemma {:induction false} DeliveredStopped(accepts: nat -> bool, a0: nat, count: nat, more: nat)
    requires count <= more
    requires Delivered(accepts, a0, count) < count
    ensures Delivered(accepts, a0, more) == Delivered(accepts, a0, count)
  {
    DeliveredRun(accepts, a0, count);
    DeliveredExactly(accepts, a0, more, Delivered(accepts, a0, count));
  }

  /** The count `Delivered` gives is pinned down by the run of accepted attempts it ends. */
  lemma {:induction false} DeliveredExactly(accepts: nat -> bool, a0: nat, count: nat, m: nat)
    requires m <= count
    requires AllAccepted(accepts, a0, m)
    requires m < count ==> !accepts(a0 + m)
    ensures Delivered(accepts, a0, count) == m
    decreases count
  {
    if m > 0 {
      DeliveredExactly(accepts, a0 + 1, count - 1, m - 1);
    }
  }

  /**
   The store's state after ingestion issued `writes` one by one from attempt
   `a0`, stopping at the first rejection: it holds its old log plus the
   accepted front of `writes`, and counted one attempt more if a write was
   rejected.
   */
  predicate Wrote(accepts: nat -> bool, a0: nat, log0: seq<ChunkWrite>, writes: seq<ChunkWrite>, log: seq<ChunkWrite>, attempts: nat)
  {
    var n := Delivered(accepts, a0, |writes|);
    log == log0 + writes[..n] && attempts == a0 + Attempted(n, writes)
  }

  /** Every write accepted: all of them are in the log, one attempt each. */
  lemma {:induction false} WroteAll(accepts: nat -> bool, a0: nat, log0: seq<ChunkWrite>, writes: seq<ChunkWrite>)
    requires AllAccepted(accepts, a0, |writes|)
    ensures Delivered(accepts, a0, |writes|) == |writes|
    ensures Wrote(accepts, a0, log0, writes, log0 + writes, a0 + |writes|)
  {
    DeliveredExactly(accepts, a0, |writes|, |writes|);
    assert writes[..|writes|] == writes;
  }

  /** The writes in `done` accepted and the next one rejected: the rest of the writes are never tried. */
  lemma {:induction false} WroteRejected(accepts: nat -> bool, a0: nat, log0: seq<ChunkWrite>, done: seq<ChunkWrite>, pending: seq<ChunkWrite>)
    requires pending != []
    requires AllAccepted(accepts, a0, |done|)
    requires !accepts(a0 + |done|)
    ensures Delivered(accepts, a0, |done + pending|) == |done|
    ensures Wrote(accepts, a0, log0, done + pending, log0 + done, a0 + |done| + 1)
  {
    DeliveredExactly(accepts, a0, |done + pending|, |done|);
    assert (done + pending)[..|done|] == done;
  }

  /** Read back: when every write was delivered, the log and the count are explicit. */
  lemma {:induction false} WroteEvery(accepts: nat -> bool, a0: nat, log0: seq<ChunkWrite>, writes: seq<ChunkWrite>, log: seq<ChunkWrite>, attempts: nat)
    requires Wrote(accepts, a0, log0, writes, log, attempts)
    requires Delivered(accepts, a0, |writes|) == |writes|
    ensures log == log0 + writes && attempts == a0 + |writes|
    ensures AllAccepted(accepts, a0, |writes|)
  {
    DeliveredRun(accepts, a0, |writes|);
    assert writes[..|writes|] == writes;
  }

  /**
   Writes issued in two runs: when every write of the first run was accepted,
   the second run starts at the next attempt, and the two runs together are
   one run over the concatenated writes.
   */
  lemma {:induction false} WroteAppend(accepts: nat -> bool, a0: nat, log0: seq<ChunkWrite>, done: seq<ChunkWrite>, more: seq<ChunkWrite>,
                    log: seq<ChunkWrite>, attempts: nat)
    requires AllAccepted(accepts, a0, |done|)
    requires Wrote(accepts, a0 + |done|, log0 + done, more, log, attempts)
    ensures Delivered(accepts, a0, |done + more|) == |done| + Delivered(accepts, a0 + |done|, |more|)
    ensures Wrote(accepts, a0, log0, done + more, log, attempts)
  {
    var n := Delivered(accepts, a0 + |done|, |more|);
    DeliveredRun(accepts, a0 + |done|, |more|);
    DeliveredExactly(accepts, a0, |done + more|, |done| + n);
    assert (done + more)[..|done| + n] == done + more[..n];
    AppendAssoc(log0, done, more[..n]);
  }

  /** A fully accepted run after the fully accepted writes in `done`: the log grows by both. */
  lemma {:induction false} WroteExtend(accepts: nat -> bool, a0: nat, log0: seq<ChunkWrite>, done: seq<ChunkWrite>, more: seq<ChunkWrite>,
                    log: seq<ChunkWrite>, attempts: nat)
    requires AllAccepted(accepts, a0, |done|)
    requires Wrote(accepts, a0 + |done|, log0 + done, more, log, attempts)
    requires Delivered(accepts, a0 + |done|, |more|) == |more|
    ensures log == log0 + (done + more) && attempts == a0 + |done + more|
    ensures AllAccepted(accepts, a0, |done + more|)
  {
    WroteAppend(accepts, a0, log0, done, more, log, attempts);
    WroteEvery(accepts, a0, log0, done + more, log, attempts);
  }

  /**
   A run that stopped at a rejected write is also the run over any longer plan
   it begins: the writes after the rejected one are never issued.
   */
  lemma {:induction false} WroteStopped(accepts: nat -> bool, a0: nat, log0: seq<ChunkWrite>, writes: seq<ChunkWrite>, plan: seq<ChunkWrite>,
                     log: seq<ChunkWrite>, attempts: nat)
    requires writes <= plan
    requires Delivered(accepts, a0, |writes|) < |writes|
    requires Wrote(accepts, a0, log0, writes, log, attempts)
    ensures Delivered(accepts, a0, |plan|) == Delivered(accepts, a0, |writes|)
    ensures Wrote(accepts, a0, log0, plan, log, attempts)
  {
    var n := Delivered(accepts, a0, |writes|);
    DeliveredRun(accepts, a0, |writes|);
    DeliveredExactly(accepts, a0, |plan|, n);
    assert plan[..n] == writes[..n];
  }

  /**
   A flush that stops at a rejected write, after the writes in `sent` were all
   accepted: the store holds the plan's accepted front, and the write that
   failed is a non-final chunk of the plan.
   */
  lemma {:induction false} FlushFailure(accepts: nat -> bool, a0: nat, log0: seq<ChunkWrite>, plan: seq<ChunkWrite>, sent: seq<ChunkWrite>,
                     index: int, buf: seq<byte>, c: nat, log: seq<ChunkWrite>, attempts: nat, readFails: bool)
    requires c > 0
    requires sent + Flush(index, buf, c) <= plan
    requires AllAccepted(accepts, a0, |sent|)
    requires Wrote(accepts, a0 + |sent|, log0 + sent, Flush(index, buf, c), log, attempts)
    requires Delivered(accepts, a0 + |sent|, |Flush(index, buf, c)|) < |Flush(index, buf, c)|
    ensures Delivered(accepts, a0, |plan|) < |plan| && !plan[Delivered(accepts, a0, |plan|)].final
    ensures Wrote(accepts, a0, log0, plan, log, attempts)
    ensures IngestError(plan, Delivered(accepts, a0, |plan|), readFails) == Some("Error writing chunk")
  {
    var full := Flush(index, buf, c);
    var n := Delivered(accepts, a0 + |sent|, |full|);
    WroteAppend(accepts, a0, log0, sent, full, log, attempts);
    WroteStopped(accepts, a0, log0, sent + full, plan, log, attempts);
    FlushShape(index, buf, c);
    assert plan[|sent| + n] == (sent + full)[|sent| + n] == full[n];
  }

  /**
   The final write after the flushed writes in `sent` were all accepted: the
   store holds the accepted front of `sent` plus the leftover, everything was
   delivered exactly when the leftover was, and a write that failed here was
   the final chunk.
   */
  lemma {:induction false} LeftoverOutcome(accepts: nat -> bool, a0: nat, log0: seq<ChunkWrite>, sent: seq<ChunkWrite>, index: int, rest: seq<byte>,
                        log: seq<ChunkWrite>, attempts: nat, delivered: bool)
    requires AllAccepted(accepts, a0, |sent|)
    requires Wrote(accepts, a0 + |sent|, log0 + sent, Leftover(index, rest), log, attempts)
    requires delivered <==> Delivered(accepts, a0 + |sent|, |Leftover(index, rest)|) == |Leftover(index, rest)|
    ensures var plan := sent + Leftover(index, rest);
      var m := Delivered(accepts, a0, |plan|);
      && Wrote(accepts, a0, log0, plan, log, attempts)
      && (m == |plan| <==> delivered)
      && (m < |plan| ==> plan[m].final)
      && IngestError(plan, m, false) == if delivered then None else Some("Error writing final chunk")
  {
    WroteAppend(accepts, a0, log0, sent, Leftover(index, rest), log, attempts);
    if rest != [] {
      assert (sent + Leftover(index, rest))[|sent|] == ChunkWrite(index, true, rest);
    }
  }

  lemma {:induction false} AppendEmpty<T>(s: seq<T>)
    ensures [] + s == s && s + [] == s
  {
  }

  lemma {:induction false} AppendAssoc<T>(a: seq<T>, b: seq<T>, c: seq<T>)
    ensures (a + b) + c == a + (b + c)
  {
  }

  /** One turn of the flush loop: the first full chunk moves from the buffer to the writes done. */
  lemma {:induction false} FlushStep(done: seq<ChunkWrite>, index: int, buf: seq<byte>, c: nat)
    requires c > 0 && |buf| >= c
    ensures Flush(index, buf, c) != [] && Flush(index, buf, c)[0] == ChunkWrite(index, false, buf[..c])
    ensures (done + [ChunkWrite(index, false, buf[..c])]) + Flush(index + 1, buf[c..], c) == done + Flush(index, buf, c)
    ensures Rest(buf[c..], c) == Rest(buf, c)
  {
    var w := ChunkWrite(index, false, buf[..c]);
    assert Flush(index, buf, c) == [w] + Flush(index + 1, buf[c..], c);
    AppendAssoc(done, [w], Flush(index + 1, buf[c..], c));
  }

  /** The flush loop's exit: fewer than `c` bytes are left, so every chunk was written and they are the rest. */
  lemma {:induction false} FlushDone(done: seq<ChunkWrite>, index: int, buf: seq<byte>, full: seq<ChunkWrite>, buf0: seq<byte>, c: nat)
    requires c > 0 && |buf| < c
    requires done + Flush(index, buf, c) == full
    requires Rest(buf, c) == Rest(buf0, c)
    ensures done == full && buf == Rest(buf0, c)
  {
    assert done + [] == done;
  }
}

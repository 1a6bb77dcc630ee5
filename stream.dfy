/**
 The request body as the upload handlers see it: a sequence of results of
 `Body.Read` calls. Each result carries the bytes read and a status: no error,
 end of stream, or a transport error. A body whose recorded reads are used up
 keeps answering "0 bytes, end of stream", as a drained reader does.
 */
module Stream {

  newtype byte = b: int | 0 <= b < 256

  datatype Option<T> = None | Some(value: T)

  datatype ReadStatus = Ok | Eof | Err

  datatype ReadResult = ReadResult(data: seq<byte>, status: ReadStatus)

  /** The i-th read of the body; past the recorded reads the body is drained. */
  function ReadAt(body: seq<ReadResult>, i: nat): (r: ReadResult)
    ensures i < |body| ==> r == body[i]
    ensures i >= |body| ==> r.data == [] && r.status == Eof
  {
    if i < |body| then body[i] else ReadResult([], Eof)
  }

  /** The read loop stops after this read: an error, end of stream, or a read of 0 bytes. */
  predicate Ends(r: ReadResult)
  {
    r.status != Ok || |r.data| == 0
  }

  /**
   The bytes the ingestion loop appends to its buffer from read `i` on: the
   data of every read up to and including the first that ends the loop,
   except that the data of a failed read is dropped.
   */
  function Consumed(body: seq<ReadResult>, i: nat): seq<byte>
    decreases |body| - i
  {
    var r := ReadAt(body, i);
    if r.status == Err then []
    else if Ends(r) then r.data
    else r.data + Consumed(body, i + 1)
  }

  /** From read `i` on, the read that ends the loop is a transport error. */
  predicate FailsOnRead(body: seq<ReadResult>, i: nat)
    decreases |body| - i
  {
    var r := ReadAt(body, i);
    if r.status == Err then true
    else if Ends(r) then false
    else FailsOnRead(body, i + 1)
  }
  /**
   The read that ends the loop begun at read `i`: the first from `i` on that
   fails, ends the stream or reads nothing. It is at most one past the
   recorded reads.
   */
  function StopAt(body: seq<ReadResult>, i: nat): (j: nat)
    ensures i <= j && Ends(ReadAt(body, j))
    ensures forall k :: i <= k < j ==> !Ends(ReadAt(body, k))
    ensures j == i || j <= |body|
    decreases |body| - i
  {
    if Ends(ReadAt(body, i)) then i else StopAt(body, i + 1)
  }

  /** The data of reads `i` up to, but not including, `j`, in order. */
  function DataBetween(body: seq<ReadResult>, i: nat, j: nat): seq<byte>
    decreases j - i
  {
    if i >= j then [] else ReadAt(body, i).data + DataBetween(body, i + 1, j)
  }

  /**
   What `Consumed` and `FailsOnRead` mean in terms of the reads: the loop
   appends the data of every read before the one that stops it, then that
   read's data unless it failed; and it fails exactly when that read failed.
   */
  lemma {:induction false} ConsumedReads(body: seq<ReadResult>, i: nat)
    ensures var j := StopAt(body, i);
      && (FailsOnRead(body, i) <==> ReadAt(body, j).status == Err)
      && Consumed(body, i) == DataBetween(body, i, j) + (if ReadAt(body, j).status == Err then [] else ReadAt(body, j).data)
    decreases |body| - i
  {
    var r := ReadAt(body, i);
    if Ends(r) {
      assert StopAt(body, i) == i;
      assert DataBetween(body, i, i) == [];
    } else {
      ConsumedReads(body, i + 1);
      var j := StopAt(body, i + 1);
      assert StopAt(body, i) == j && i < j;
      assert DataBetween(body, i, j) == r.data + DataBetween(body, i + 1, j);
    }
  }
}

// The write adapter that drains a native write buffer into a host
// (Java) output stream.  The host stream is modelled by the log of calls it
// receives: every `write(buffer, 0, n)` records the first `n` bytes of the
// staging array at the moment of the call, and `flush()` records itself.

module JavaOutputStream {

  newtype byte = b: int | 0 <= b < 256

  /** Largest length of a host (Java) byte array, and largest `jint`. */
  const MaxHostArrayLength: nat := 0x7FFF_FFFF

  /**
   * One call the host output stream observes: `write(array, off, len)`,
   * recorded with the `len` bytes of the array it reads from `off`, or `flush()`.
   */
  datatype SinkCall =
    | Write(bytes: seq<byte>, off: nat, len: nat)
    | Flush

  function Min(a: nat, b: nat): nat { if a <= b then a else b }

  /**
   * The chunks one drain hands to the host stream: the buffered bytes cut,
   * from the front, into pieces of `min(remaining, size)` bytes.
   */
  function Chunks(data: seq<byte>, size: nat): (cs: seq<seq<byte>>)
    requires size > 0
    ensures |data| == 0 <==> cs == []
    decreases |data|
  {
    if |data| == 0 then []
    else
      var n := Min(|data|, size);
      [data[..n]] + Chunks(data[n..], size)
  }

  /** Concatenation of a sequence of chunks, in order. */
  function Concat(cs: seq<seq<byte>>): seq<byte>
  {
    if cs == [] then [] else cs[0] + Concat(cs[1..])
  }

  /** The write calls issued for a list of chunks: each staged at offset 0. */
  function WriteCallsOf(cs: seq<seq<byte>>): (calls: seq<SinkCall>)
    ensures |calls| == |cs|
    ensures forall i :: 0 <= i < |cs| ==> calls[i] == Write(cs[i], 0, |cs[i]|)
  {
    if cs == [] then [] else [Write(cs[0], 0, |cs[0]|)] + WriteCallsOf(cs[1..])
  }

  /** The host calls one drain of `data` issues. */
  function DrainCalls(data: seq<byte>, size: nat): seq<SinkCall>
    requires size > 0
  {
    WriteCallsOf(Chunks(data, size))
  }

  /** The staging array after `chunk` is copied to its front. */
  function Stage(staging: seq<byte>, chunk: seq<byte>): (r: seq<byte>)
    requires |chunk| <= |staging|
    ensures |r| == |staging| && r[..|chunk|] == chunk
    ensures r[|chunk|..] == staging[|chunk|..]
  {
    chunk + staging[|chunk|..]
  }

  /** The staging array after every chunk of one drain has been copied. */
  function StagingAfter(staging: seq<byte>, data: seq<byte>, size: nat): (r: seq<byte>)
    requires 0 < size <= |staging|
    ensures |r| == |staging|
    decreases |data|
  {
    if |data| == 0 then staging
    else
      var n := Min(|data|, size);
      StagingAfter(Stage(staging, data[..n]), data[n..], size)
  }

  /** Gluing the chunks back together gives the drained bytes. */
  lemma {:induction false} ConcatChunks(data: seq<byte>, size: nat)
    requires size > 0
    ensures Concat(Chunks(data, size)) == data
    decreases |data|
  {
    if |data| > 0 {
      var n := Min(|data|, size);
      ConcatChunks(data[n..], size);
      assert data[..n] + data[n..] == data;
    }
  }

  /** Every chunk is non-empty and at most `size` long; all but the last are full. */
  lemma {:induction false} ChunkLengths(data: seq<byte>, size: nat)
    requires size > 0
    ensures forall i :: 0 <= i < |Chunks(data, size)| ==> 0 < |Chunks(data, size)[i]| <= size
    ensures forall i :: 0 <= i < |Chunks(data, size)| - 1 ==> |Chunks(data, size)[i]| == size
    decreases |data|
  {
    if |data| > 0 {
      var n := Min(|data|, size);
      ChunkLengths(data[n..], size);
      if |data| <= size {
        assert Chunks(data[n..], size) == [];
      }
    }
  }

  /**
   * One drain of `k` bytes issues `ceil(k / size)` write calls: the least
   * count whose full chunks would cover all `k` bytes.
   */
  lemma {:induction false} ChunkCount(data: seq<byte>, size: nat)
    requires size > 0
    ensures (|Chunks(data, size)| - 1) * size < |data| <= |Chunks(data, size)| * size
    decreases |data|
  {
    if |data| > 0 {
      var n := Min(|data|, size);
      var k := |Chunks(data[n..], size)|;
      ChunkCount(data[n..], size);
      assert |Chunks(data, size)| == k + 1;
      assert (k + 1) * size == k * size + size;
    }
  }

  /** One loop step: the calls for `data[from..]` are one chunk's write, then the rest's. */
  lemma DrainStep(done: seq<SinkCall>, data: seq<byte>, from: nat, next: nat, size: nat)
    requires size > 0 && from < |data| && next == from + Min(|data| - from, size)
    ensures next <= |data|
    ensures (done + [Write(data[from..next], 0, |data[from..next]|)]) + DrainCalls(data[next..], size)
         == done + DrainCalls(data[from..], size)
  {
    var chunk := data[from..next];
    var rest := data[next..];
    assert data[from..][..next - from] == chunk;
    assert data[from..][next - from..] == rest;
    assert Chunks(data[from..], size) == [chunk] + Chunks(rest, size);
    WriteCallsOfAppend([chunk], Chunks(rest, size));
    assert DrainCalls(data[from..], size) == [Write(chunk, 0, |chunk|)] + DrainCalls(rest, size);
  }

  /** One loop step: staging `data[from..]` is staging one chunk, then the rest. */
  lemma StagingStep(staging: seq<byte>, data: seq<byte>, from: nat, next: nat, size: nat)
    requires 0 < size <= |staging| && from < |data| && next == from + Min(|data| - from, size)
    ensures next <= |data|
    ensures StagingAfter(staging, data[from..], size)
         == StagingAfter(Stage(staging, data[from..next]), data[next..], size)
  {
    assert data[from..][..next - from] == data[from..next];
    assert data[from..][next - from..] == data[next..];
  }

  /** The write calls for two runs of chunks are the calls for each, in order. */
  lemma WriteCallsOfAppend(a: seq<seq<byte>>, b: seq<seq<byte>>)
    ensures WriteCallsOf(a + b) == WriteCallsOf(a) + WriteCallsOf(b)
  {
    var l, r := WriteCallsOf(a + b), WriteCallsOf(a) + WriteCallsOf(b);
    assert |l| == |r|;
    forall i | 0 <= i < |l| ensures l[i] == r[i] {
      if i < |a| { assert (a + b)[i] == a[i]; } else { assert (a + b)[i] == b[i - |a|]; }
    }
  }

  /** After a non-empty drain the front of the staging array holds the last chunk. */
  lemma {:induction false} StagingHoldsLastChunk(staging: seq<byte>, data: seq<byte>, size: nat)
    requires 0 < size <= |staging| && |data| > 0
    ensures var cs := Chunks(data, size);
      |cs[|cs| - 1]| <= |staging| &&
      StagingAfter(staging, data, size)[..|cs[|cs| - 1]|] == cs[|cs| - 1]
    decreases |data|
  {
    var n := Min(|data|, size);
    var next := Stage(staging, data[..n]);
    if |data| <= size {
      assert data[n..] == [];
      assert Chunks(data, size) == [data[..n]];
      assert StagingAfter(staging, data, size) == next;
    } else {
      StagingHoldsLastChunk(next, data[n..], size);
      var rest := Chunks(data[n..], size);
      assert Chunks(data, size) == [data[..n]] + rest;
      assert Chunks(data, size)[|Chunks(data, size)| - 1] == rest[|rest| - 1];
    }
  }

  /** A drain never touches the staging array beyond its first `size` bytes. */
  lemma {:induction false} StagingKeepsTail(staging: seq<byte>, data: seq<byte>, size: nat)
    requires 0 < size <= |staging|
    ensures StagingAfter(staging, data, size)[size..] == staging[size..]
    decreases |data|
  {
    if |data| > 0 {
      var n := Min(|data|, size);
      var next := Stage(staging, data[..n]);
      StagingKeepsTail(next, data[n..], size);
      assert next[size..] == staging[size..] by {
        assert next[n..][size - n..] == next[size..];
        assert staging[n..][size - n..] == staging[size..];
      }
    }
  }

  /** The bytes the host stream receives through the write calls of `log`, in order. */
  function Payload(log: seq<SinkCall>): seq<byte>
  {
    if log == [] then []
    else (if log[0].Write? then log[0].bytes else []) + Payload(log[1..])
  }

  /** Chunk `i` of a drain is the bytes from `i * size` up to the next multiple of `size` or the end. */
  lemma {:induction false} ChunkAt(data: seq<byte>, size: nat, i: nat)
    requires size > 0 && i < |Chunks(data, size)|
    ensures i * size < |data|
    ensures Chunks(data, size)[i] == data[i * size..Min(|data|, (i + 1) * size)]
    decreases |data|
  {
    if i > 0 {
      var rest := data[size..];
      ChunkAt(rest, size, i - 1);
      var lo, hi := (i - 1) * size, Min(|rest|, i * size);
      assert lo + size == i * size;
      assert hi + size == Min(|data|, (i + 1) * size) by {
        assert i * size + size == (i + 1) * size;
      }
      SliceOfSuffix(data, size, lo, hi);
    }
  }

  lemma SliceOfSuffix(data: seq<byte>, k: nat, lo: nat, hi: nat)
    requires k <= |data| && lo <= hi <= |data| - k
    ensures data[k..][lo..hi] == data[k + lo..k + hi]
  {
  }

  /** The write calls of a drain deliver exactly the drained bytes to the host. */
  lemma {:induction false} DrainPayload(data: seq<byte>, size: nat)
    requires size > 0
    ensures Payload(DrainCalls(data, size)) == data
    decreases |data|
  {
    if |data| > 0 {
      var n := Min(|data|, size);
      var chunk := data[..n];
      DrainPayload(data[n..], size);
      WriteCallsOfAppend([chunk], Chunks(data[n..], size));
      var log := DrainCalls(data, size);
      assert log == [Write(chunk, 0, n)] + DrainCalls(data[n..], size);
      assert log[1..] == DrainCalls(data[n..], size);
      assert chunk + data[n..] == data;
    }
  }

  /**
   * Finalizing issues the drain's writes, each staged at offset 0 and at
   * most `size` long, and then exactly one flush, as the last call.
   */
  lemma FinalizeLog(data: seq<byte>, size: nat)
    requires size > 0
    ensures var log := DrainCalls(data, size) + [Flush];
      log[|log| - 1] == Flush &&
      (forall i :: 0 <= i < |log| - 1 ==>
         log[i].Write? && log[i].off == 0 && 0 < log[i].len == |log[i].bytes| <= size) &&
      Payload(log) == data
  {
    var log := DrainCalls(data, size) + [Flush];
    ChunkLengths(data, size);
    DrainPayload(data, size);
    PayloadAppend(DrainCalls(data, size), [Flush]);
    assert Payload([Flush]) == [];
  }

  lemma {:induction false} PayloadAppend(a: seq<SinkCall>, b: seq<SinkCall>)
    ensures Payload(a + b) == Payload(a) + Payload(b)
    decreases |a|
  {
    if a != [] {
      assert (a + b)[1..] == a[1..] + b;
      PayloadAppend(a[1..], b);
    } else {
      assert a + b == b;
    }
  }

  /**
   * The adapter: the native write buffer's pending bytes, the host stream
   * it drains into, the reusable host staging array and the staging size.
   */
  class WriteBufferFromJavaOutputStream {
    /** The bytes written and not yet drained: `working_buffer[0 .. offset())`. */
    var pending: seq<byte>
    /** Every call the host output stream has received, oldest first. */
    var calls: seq<SinkCall>
    /** The host staging array every chunk is copied into. */
    const buffer: array<byte>
    /** The largest chunk handed to the host in one call. */
    const bufferSize: nat

    ghost predicate Valid()
      reads this
    {
      bufferSize <= buffer.Length <= MaxHostArrayLength
    }

    /** Wraps a host stream and staging array; no data is pending, no call made. */
    constructor (stream: seq<SinkCall>, staging: array<byte>, customizeBufferSize: nat)
      requires customizeBufferSize <= staging.Length <= MaxHostArrayLength
      ensures Valid()
      ensures bufferSize == customizeBufferSize && buffer == staging
      ensures pending == [] && calls == stream
    {
      buffer := staging;
      bufferSize := customizeBufferSize;
      pending := [];
      calls := stream;
    }

    /** Buffers `bytes` natively; no host call is made. */
    method Append(bytes: seq<byte>)
      modifies this
      ensures Valid() == old(Valid())
      ensures pending == old(pending) + bytes && calls == old(calls)
    {
      pending := pending + bytes;
    }

    /** Copies `chunk` to the front of the staging array. */
    method StageChunk(chunk: seq<byte>)
      requires |chunk| <= buffer.Length
      modifies buffer
      ensures buffer[..] == Stage(old(buffer[..]), chunk)
    {
      forall i | 0 <= i < |chunk| {
        buffer[i] := chunk[i];
      }
      assert buffer[..] == chunk + old(buffer[..])[|chunk|..];
    }

    /**
     * One turn of the drain loop: `chunk` is copied to the front of the
     * staging array, and the host is asked to write that many bytes of it.
     */
    method TransferChunk(chunk: seq<byte>)
      requires |chunk| <= buffer.Length
      modifies this, buffer
      ensures buffer[..] == Stage(old(buffer[..]), chunk)
      ensures calls == old(calls) + [Write(chunk, 0, |chunk|)]
      ensures pending == old(pending)
    {
      StageChunk(chunk);
      calls := calls + [Write(buffer[..|chunk|], 0, |chunk|)];
    }

    /**
     * Hands every pending byte to the host stream, `bufferSize` bytes at a
     * time, each chunk staged at the front of `buffer`.  Loops forever when
     * there is data and the staging size is zero.
     */
    method NextImpl()
      requires Valid() && (bufferSize > 0 || pending == [])
      modifies this, buffer
      ensures Valid() && pending == old(pending)
      ensures bufferSize > 0 ==> calls == old(calls) + DrainCalls(pending, bufferSize)
      ensures bufferSize > 0 ==> buffer[..] == StagingAfter(old(buffer[..]), pending, bufferSize)
      ensures bufferSize == 0 ==> calls == old(calls) && buffer[..] == old(buffer[..])
    {
      if pending == [] {
        return;
      }
      var data, size := pending, bufferSize;
      ghost var calls0, staged := calls, StagingAfter(buffer[..], data, size);
      ghost var drained := DrainCalls(data, size);
      var bytesWrite: nat := 0;
      while |data| - bytesWrite > 0
        invariant bytesWrite <= |data| && pending == data
        invariant calls + DrainCalls(data[bytesWrite..], size) == calls0 + drained
        invariant StagingAfter(buffer[..], data[bytesWrite..], size) == staged
        decreases |data| - bytesWrite
      {
        var copyNum := Min(|data| - bytesWrite, size);
        var next := bytesWrite + copyNum;
        DrainStep(calls, data, bytesWrite, next, size);
        StagingStep(buffer[..], data, bytesWrite, next, size);
        TransferChunk(data[bytesWrite..next]);
        bytesWrite := next;
      }
      assert data[bytesWrite..] == [];
    }

    /**
     * The buffer's generic drain step: nothing happens while no byte is
     * pending; otherwise the pending bytes go to the host and the native
     * buffer starts over empty.
     */
    method Next()
      requires Valid() && (bufferSize > 0 || pending == [])
      modifies this, buffer
      ensures Valid() && pending == []
      ensures old(pending) == [] ==> calls == old(calls) && buffer[..] == old(buffer[..])
      ensures bufferSize > 0 ==> calls == old(calls) + DrainCalls(old(pending), bufferSize)
      ensures bufferSize > 0 ==> buffer[..] == StagingAfter(old(buffer[..]), old(pending), bufferSize)
    {
      if pending == [] {
        return;
      }
      NextImpl();
      pending := [];
    }

    /** Drains what is still pending, then flushes the host stream once. */
    method FinalizeImpl()
      requires Valid() && (bufferSize > 0 || pending == [])
      modifies this, buffer
      ensures Valid() && pending == []
      ensures bufferSize > 0 ==> calls == old(calls) + DrainCalls(old(pending), bufferSize) + [Flush]
      ensures bufferSize == 0 ==> calls == old(calls) + [Flush] && buffer[..] == old(buffer[..])
      ensures bufferSize > 0 ==> buffer[..] == StagingAfter(old(buffer[..]), old(pending), bufferSize)
    {
      Next();
      calls := calls + [Flush];
    }
  }
}

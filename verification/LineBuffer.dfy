/**
 The output buffer of a recorded stream: fixed-size byte buffers that are handed over at
 the end of a line, the unfinished line moving on to the next buffer.
 */
module LineBuffer {
  newtype byte = x: int | 0 <= x < 256

  const BUFFER_SIZE := 1048576
  const LINE_END: seq<byte> := [44, 10]  // a comma and a line feed

  function Concat(parts: seq<seq<byte>>): seq<byte> {
    if parts == [] then [] else parts[0] + Concat(parts[1..])
  }

  lemma {:induction false} ConcatAppends(a: seq<seq<byte>>, b: seq<seq<byte>>)
    ensures Concat(a + b) == Concat(a) + Concat(b)
    decreases |a|
  {
    if a == [] {
      assert a + b == b;
    } else {
      assert (a + b)[1..] == a[1..] + b;
      ConcatAppends(a[1..], b);
    }
  }

  lemma ConcatOne(a: seq<byte>)
    ensures Concat([a]) == a
  {
    assert [a][1..] == [];
    assert a + [] == a;
  }

  // A position and a limit over storage that may be shared.
  class ByteBuffer {
    const data: array<byte>
    var position: nat
    var limit: nat

    ghost predicate Valid()
      reads this
    {
      position <= limit <= data.Length
    }

    constructor Allocate(capacity: nat)
      ensures Valid() && fresh(data) && data.Length == capacity && position == 0 && limit == capacity
    {
      data := new byte[capacity];
      position, limit := 0, capacity;
    }

    constructor Duplicate(other: ByteBuffer)
      ensures data == other.data && position == other.position && limit == other.limit
    {
      data := other.data;
      position, limit := other.position, other.limit;
    }

    function Remaining(): nat
      requires Valid()
      reads this
    {
      limit - position
    }

    method SetPosition(p: nat)
      requires Valid() && p <= limit
      modifies this
      ensures Valid() && position == p && limit == old(limit)
    {
      position := p;
    }

    // A position beyond the new limit moves back to it.
    method SetLimit(l: nat)
      requires Valid() && l <= data.Length
      modifies this
      ensures Valid() && limit == l && position == if old(position) > l then l else old(position)
    {
      limit := l;
      if position > limit {
        position := limit;
      }
    }

    method Flip()
      requires Valid()
      modifies this
      ensures Valid() && limit == old(position) && position == 0
    {
      limit := position;
      position := 0;
    }

    method Put(b: seq<byte>)
      requires Valid() && |b| <= Remaining()
      modifies this`position, data
      ensures Valid() && position == old(position) + |b|
      ensures data[..position] == old(data[..position]) + b
    {
      var start := position;
      forall i | 0 <= i < |b| {
        data[start + i] := b[i];
      }
      position := start + |b|;
    }

    method PutBuffer(other: ByteBuffer)
      requires Valid() && other.Valid() && other != this && other.data != data && other.Remaining() <= Remaining()
      modifies this`position, data
      ensures Valid() && position == old(position) + other.Remaining()
      ensures data[..position] == old(data[..position]) + other.data[other.position..other.limit]
    {
      Put(other.data[other.position..other.limit]);
    }
  }

  class ByteBufferOutput {
    const capacity: nat
    var buffer: ByteBuffer
    var lastLineEndPosition: nat
    // what has been handed over, one entry for each buffer
    var flushed: seq<seq<byte>>

    // the lines handed over with each buffer, the finished lines still here, and the unfinished one
    ghost var handedOver: seq<seq<seq<byte>>>
    ghost var here: seq<seq<byte>>
    ghost var unfinished: seq<byte>

    ghost predicate Valid()
      reads this, buffer, buffer.data
    {
      && buffer.Valid() && buffer.data.Length == capacity && buffer.limit == capacity
      && lastLineEndPosition <= buffer.position
      && buffer.data[..lastLineEndPosition] == Concat(here)
      && buffer.data[lastLineEndPosition..buffer.position] == unfinished
      && |flushed| == |handedOver|
      && forall k :: 0 <= k < |flushed| ==> flushed[k] == Concat(handedOver[k])
    }

    // All finished lines, in order.
    ghost function Lines(): seq<seq<byte>>
      reads this
    {
      AllLines(handedOver) + here
    }

    constructor (capacity: nat)
      ensures Valid() && fresh(buffer) && fresh(buffer.data)
      ensures this.capacity == capacity && Lines() == [] && unfinished == [] && flushed == []
    {
      this.capacity := capacity;
      buffer := new ByteBuffer.Allocate(capacity);
      lastLineEndPosition := 0;
      flushed := [];
      handedOver, here, unfinished := [], [], [];
    }

    // The callback: what is left of the buffer is handed over and a new buffer is allocated.
    method HandOver(b: ByteBuffer) returns (newBuffer: ByteBuffer)
      requires b.Valid()
      modifies this`flushed, b
      ensures fresh(newBuffer) && fresh(newBuffer.data) && newBuffer.Valid()
      ensures newBuffer.data.Length == capacity && newBuffer.limit == capacity && newBuffer.position == 0
      ensures flushed == old(flushed) + [old(b.data[..b.position])]
    {
      b.Flip();
      flushed := flushed + [b.data[b.position..b.limit]];
      newBuffer := new ByteBuffer.Allocate(capacity);
    }

    method FlushToEndOfLineAndTransferRestOverToNewBuffer() returns (newBuffer: ByteBuffer)
      requires Valid()
      modifies this, buffer
      ensures newBuffer.Valid() && fresh(newBuffer) && fresh(newBuffer.data)
      ensures newBuffer.data.Length == capacity && newBuffer.limit == capacity
      ensures newBuffer.data[..newBuffer.position] == unfinished == old(unfinished)
      ensures lastLineEndPosition == 0 && here == [] && handedOver == old(handedOver) + [old(here)]
      ensures flushed == old(flushed) + [Concat(old(here))]
      ensures buffer == old(buffer)
    {
      var toFlush := buffer;
      var toCopyOver := new ByteBuffer.Duplicate(buffer);
      toCopyOver.SetPosition(lastLineEndPosition);
      toCopyOver.SetLimit(toFlush.position);
      toFlush.SetLimit(lastLineEndPosition);
      newBuffer := HandOver(toFlush);
      newBuffer.PutBuffer(toCopyOver);
      lastLineEndPosition := 0;
      handedOver, here := handedOver + [here], [];
    }

    method Reserve(len: nat)
      requires Valid()
      modifies this, buffer
      ensures Valid() && unfinished == old(unfinished) && Lines() == old(Lines())
      ensures buffer == old(buffer) || (fresh(buffer) && fresh(buffer.data))
      ensures len <= buffer.Remaining() <==> |unfinished| + len <= capacity
      ensures old(flushed) <= flushed
    {
      if len <= buffer.Remaining() {
        return;
      }
      buffer := FlushToEndOfLineAndTransferRestOverToNewBuffer();
      AllLinesAppends(old(handedOver), [old(here)]);
      AllLinesOne(old(here));
      assert old(flushed) <= flushed;
    }

    /** The bytes join the unfinished line, unless together they exceed one buffer; then
        nothing is written (the source throws). */
    method Write(b: seq<byte>) returns (ok: bool)
      requires Valid()
      modifies this, buffer, buffer.data
      ensures Valid() && Lines() == old(Lines())
      ensures buffer == old(buffer) || (fresh(buffer) && fresh(buffer.data))
      ensures ok <==> |old(unfinished)| + |b| <= capacity
      ensures unfinished == if ok then old(unfinished) + b else old(unfinished)
      ensures old(flushed) <= flushed
    {
      Reserve(|b|);
      ok := |b| <= buffer.Remaining();
      if ok {
        ghost var before := buffer.data[..buffer.position];
        buffer.Put(b);
        assert buffer.data[..lastLineEndPosition] == before[..lastLineEndPosition];
        assert buffer.data[lastLineEndPosition..buffer.position] == before[lastLineEndPosition..] + b;
        unfinished := unfinished + b;
      }
    }

    /** A line end that fits finishes the line. */
    method WriteLineEnd() returns (ok: bool)
      requires Valid()
      modifies this, buffer, buffer.data
      ensures Valid() && old(flushed) <= flushed
      ensures buffer == old(buffer) || (fresh(buffer) && fresh(buffer.data))
      ensures ok <==> |old(unfinished)| + 2 <= capacity
      ensures ok ==> Lines() == old(Lines()) + [old(unfinished) + LINE_END] && unfinished == []
      ensures !ok ==> Lines() == old(Lines())
    {
      hide Concat;
      hide AllLines;
      ok := Write([44]);
      if !ok { return; }
      ok := Write([10]);
      if !ok { return; }
      assert old(unfinished) + [44] + [10] == old(unfinished) + LINE_END;
      MarkLineEnd();
    }

    // One write of a sequence.
    method Make(op: Op) returns (ok: bool)
      requires Valid()
      modifies this, buffer, buffer.data
      ensures Valid()
      ensures buffer == old(buffer) || (fresh(buffer) && fresh(buffer.data))
      ensures ok <==> |old(unfinished)| + (match op case Bytes(b) => |b| case LineEnd => 2) <= capacity
      ensures Lines() == if ok && op.LineEnd? then old(Lines()) + [old(unfinished) + LINE_END] else old(Lines())
      ensures ok ==> unfinished == match op case Bytes(b) => old(unfinished) + b case LineEnd => []
    {
      match op
      case Bytes(b) => ok := Write(b);
      case LineEnd => ok := WriteLineEnd();
    }

    method MarkLineEnd()
      requires Valid()
      modifies this`lastLineEndPosition, this`here, this`unfinished
      ensures Valid() && Lines() == old(Lines()) + [old(unfinished)] && unfinished == []
    {
      hide Concat;
      hide AllLines;
      var d := buffer.data[..buffer.position];
      assert d[..lastLineEndPosition] == buffer.data[..lastLineEndPosition];
      assert d == d[..lastLineEndPosition] + unfinished;
      ConcatAppends(here, [unfinished]);
      ConcatOne(unfinished);
      assert AllLines(handedOver) + (here + [unfinished]) == AllLines(handedOver) + here + [unfinished];
      lastLineEndPosition := buffer.position;
      here, unfinished := here + [unfinished], [];
    }

    /** A last flush hands over every finished line and nothing else. */
    method Flush()
      requires Valid()
      modifies this, buffer
      ensures Concat(flushed) == Concat(old(Lines()))
      ensures |flushed| == |handedOver| && forall k :: 0 <= k < |flushed| ==> flushed[k] == Concat(handedOver[k])
      ensures AllLines(handedOver) == old(Lines())
    {
      var discarded := FlushToEndOfLineAndTransferRestOverToNewBuffer();
      AllLinesAppends(old(handedOver), [old(here)]);
      AllLinesOne(old(here));
      ChunksAreLines(flushed, handedOver);
    }
  }

  function AllLines(chunks: seq<seq<seq<byte>>>): seq<seq<byte>> {
    if chunks == [] then [] else chunks[0] + AllLines(chunks[1..])
  }

  lemma {:induction false} AllLinesAppends(a: seq<seq<seq<byte>>>, b: seq<seq<seq<byte>>>)
    ensures AllLines(a + b) == AllLines(a) + AllLines(b)
    decreases |a|
  {
    if a == [] {
      assert a + b == b;
    } else {
      assert (a + b)[1..] == a[1..] + b;
      AllLinesAppends(a[1..], b);
    }
  }

  lemma AllLinesOne(a: seq<seq<byte>>)
    ensures AllLines([a]) == a && a + [] == a
  {
    assert [a][1..] == [];
  }

  // Buffers that hold whole lines hold, together, all the lines.
  lemma {:induction false} ChunksAreLines(flushed: seq<seq<byte>>, chunks: seq<seq<seq<byte>>>)
    requires |flushed| == |chunks| && forall k :: 0 <= k < |flushed| ==> flushed[k] == Concat(chunks[k])
    ensures Concat(flushed) == Concat(AllLines(chunks))
    decreases |flushed|
  {
    if flushed != [] {
      ChunksAreLines(flushed[1..], chunks[1..]);
      ConcatAppends(chunks[0], AllLines(chunks[1..]));
    }
  }

  // ---------------------------------------------------------------- any sequence of writes

  datatype Op = Bytes(b: seq<byte>) | LineEnd

  // The lines finished and the line left unfinished by a sequence of writes.
  function Log(ops: seq<Op>): (seq<seq<byte>>, seq<byte>) {
    if ops == [] then ([], [])
    else
      var (lines, rest) := Log(ops[..|ops| - 1]);
      match ops[|ops| - 1]
      case Bytes(b) => (lines, rest + b)
      case LineEnd => (lines + [rest + LINE_END], [])
  }

  // Each write fits one buffer together with the line it continues.
  predicate Fits(ops: seq<Op>, capacity: nat) {
    ops == [] ||
    (Fits(ops[..|ops| - 1], capacity)
     && |Log(ops[..|ops| - 1]).1| + (match ops[|ops| - 1] case Bytes(b) => |b| case LineEnd => 2) <= capacity)
  }

  /** For every sequence of writes: all are made when each fits one buffer with the line it
      continues, and otherwise those before the first that does not, which ends the writing.
      After the last flush the output is exactly the lines finished by then, in order. */
  method Record(ops: seq<Op>, capacity: nat) returns (output: seq<byte>, made: nat)
    ensures made <= |ops| && Fits(ops[..made], capacity) && (made < |ops| ==> !Fits(ops[..made + 1], capacity))
    ensures made == |ops| <==> Fits(ops, capacity)
    ensures output == Concat(Log(ops[..made]).0)
  {
    hide Concat;
    hide AllLines;
    var out := new ByteBufferOutput(capacity);
    made := 0;
    var ok := true;
    while ok && made < |ops|
      invariant out.Valid() && out.capacity == capacity && fresh(out) && fresh(out.buffer) && fresh(out.buffer.data)
      invariant made <= |ops| && Fits(ops[..made], capacity)
      invariant out.Lines() == Log(ops[..made]).0 && (ok ==> out.unfinished == Log(ops[..made]).1)
      invariant !ok ==> made < |ops| && !Fits(ops[..made + 1], capacity)
      decreases |ops| - made, ok
    {
      assert ops[..made + 1][..made] == ops[..made];
      ok := out.Make(ops[made]);
      if ok { made := made + 1; }
    }
    if made < |ops| { FitsPrefix(ops, made + 1, capacity); } else { assert ops[..made] == ops; }
    out.Flush();
    output := Flatten(out.flushed);
  }

  lemma {:induction false} FitsPrefix(ops: seq<Op>, n: nat, capacity: nat)
    requires n <= |ops|
    ensures Fits(ops, capacity) ==> Fits(ops[..n], capacity)
    decreases |ops|
  {
    if n == |ops| {
      assert ops[..n] == ops;
    } else {
      FitsPrefix(ops[..|ops| - 1], n, capacity);
      assert ops[..|ops| - 1][..n] == ops[..n];
    }
  }

  // The tasks append what was handed over to the file one after another.
  method Flatten(chunks: seq<seq<byte>>) returns (r: seq<byte>)
    ensures r == Concat(chunks)
  {
    r := [];
    for k := 0 to |chunks|
      invariant r == Concat(chunks[..k])
    {
      assert chunks[..k + 1] == chunks[..k] + [chunks[k]];
      ConcatAppends(chunks[..k], [chunks[k]]);
      ConcatOne(chunks[k]);
      r := r + chunks[k];
    }
    assert chunks[..|chunks|] == chunks;
  }

  /** While recording, what was handed over followed by the current buffer is everything written. */
  lemma Conservation(out: ByteBufferOutput)
    requires out.Valid()
    ensures Concat(out.flushed) + out.buffer.data[..out.buffer.position] == Concat(out.Lines()) + out.unfinished
  {
    hide Concat;
    hide AllLines;
    ChunksAreLines(out.flushed, out.handedOver);
    ConcatAppends(AllLines(out.handedOver), out.here);
    var a, b, c := Concat(out.flushed), Concat(out.here), out.unfinished;
    assert out.buffer.data[..out.buffer.position] == b + c;
    assert a + (b + c) == a + b + c;
  }
}

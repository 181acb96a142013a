/** Short histories of stream buffers that lead to the states their users have to beware of. */
module BufferCases {
  import opened StreamBuffer
  import opened BufferIterator

  /** A new buffer with n bytes stored and read again. */
  method Drained(n: nat) returns (b: Buffer)
    requires 0 < n <= BLOCK_SIZE
    ensures fresh(b) && b.Valid() && b.Normalized() && b.Contents() == []
    ensures b.rpos == b.wpos == Position(0, n)
  {
    b := Filled(n);
    b.Consume(n);
    b.EmptyIsAtEnd();
  }

  /** A new buffer with n bytes stored through the write pointer. */
  method Filled(n: nat) returns (b: Buffer)
    requires 0 < n <= BLOCK_SIZE
    ensures fresh(b) && b.Valid() && b.Normalized() && |b.Contents()| == n
    ensures b.rpos == Position(0, 0) && b.wpos == Position(0, n)
  {
    hide From, Pieces, Inner, Fits;
    b := new Buffer();
    var ok := b.Reserve(n);
    b.Fill(seq(n, _ => 'x'));
    ok := b.Advance(n);
  }

  /** write after a full chunk was consumed: there is a byte to read, and no iterator gets to it. */
  method WriteStrandsIterator() returns (b: Buffer, it: Iterator)
    ensures b.Valid() && b.Contents() == "y" && !b.Normalized()
    ensures it.buffer == b && it.Valid() && it.Rest() == "y" && !it.Settled() && it.bytesRead == 0
  {
    b := Drained(BLOCK_SIZE);
    b.Write("y");
    it := new Iterator(b);
    it.Next();
  }

  /** copyFrom into a read buffer whose chunk has too little room left does the same. */
  method CopyStrandsIterator() returns (b: Buffer)
    ensures b.Valid() && b.Contents() != [] && !b.Normalized()
  {
    b := Drained(4000);
    var other := Filled(100);
    b.CopyFrom(other);
  }

  /** appendFrom from a buffer that was filled by a write of a whole chunk leaves that buffer
      unusable. */
  method AppendSpoilsOther() returns (b: Buffer, other: Buffer)
    ensures b.Valid() && |b.Contents()| == BLOCK_SIZE && !other.Valid()
  {
    b := new Buffer();
    other := new Buffer();
    other.Write(seq(BLOCK_SIZE, _ => 'x'));
    WholeChunk(other);
    b.AppendFrom(other);
  }

  /** A whole chunk of bytes, written with room left, is one full chunk and an empty one. */
  lemma WholeChunk(b: Buffer)
    requires b.Valid() && b.rpos == Position(0, 0) && |b.Contents()| == BLOCK_SIZE
    requires FullFrom(b.sizes, 0) && b.WriteSize() > 0
    ensures b.sizes == [BLOCK_SIZE, 0]
  {
    hide From, Pieces;
    FromLength(b.chunks, b.sizes, b.rpos);
    SumFull(b.sizes);
  }

  lemma {:induction false} SumFull(sizes: seq<nat>)
    requires |sizes| > 0 && FullFrom(sizes, 0)
    ensures sizes[0] + Sum(sizes[1..]) == BLOCK_SIZE * (|sizes| - 1) + sizes[|sizes| - 1]
    decreases |sizes|
  {
    if |sizes| > 1 {
      SumFull(sizes[1..]);
    }
  }

  /** As long as only consume has moved the read position, byteCount is right. */
  method CountAfterConsume(b: Buffer, bytes: nat) returns (count: nat)
    requires b.Valid() && b.rpos.idx == 0
    modifies b
    ensures b.Valid() && b.rpos.idx == 0 && b.Contents() == Drop(old(b.Contents()), bytes)
    ensures count == |b.Contents()|
  {
    b.Consume(bytes);
    count := b.ByteCount();
  }

  /** byteCount after appending to a buffer that was read to its end is too high. */
  method AppendInflatesCount() returns (b: Buffer, count: nat)
    ensures b.Valid() && b.Normalized() && |b.Contents()| == 1 && count == 2
  {
    b := Drained(1);
    var other := Filled(1);
    b.AppendFrom(other);
    count := b.ByteCount();
  }
}

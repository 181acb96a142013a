/** The iterator that peeks at a stream buffer's contents. */
module BufferIterator {
  import opened StreamBuffer

  /** The fields of an iterator that next() moves. */
  datatype Cursor = Cursor(pos: Position, bytesRead: nat, budget: nat, chunk: nat)

  /** What slowNext does to the cursor, over chunks filled as sizes says. */
  function SlowStep(sizes: seq<nat>, last: nat, c: Cursor): (c': Cursor)
    requires c.pos.idx < |sizes| && last < |sizes| && c.pos.off <= sizes[c.pos.idx]
  {
    if c.pos.off < sizes[c.pos.idx] then
      if c.pos.off + 1 == sizes[c.pos.idx] && c.pos.idx < last then
        Cursor(Position(c.pos.idx + 1, 0), c.bytesRead + 1, sizes[c.pos.idx + 1], c.pos.idx + 1)
      else
        Cursor(Position(c.pos.idx, c.pos.off + 1), c.bytesRead + 1, sizes[c.pos.idx] - c.pos.off - 1, c.chunk)
    else
      c
  }

  class Iterator {
    const buffer: Buffer
    var pos: Position
    var bytesRead: nat
    var bytesTotal: nat
    var budget: nat
    var chunk: nat

    /** The position is inside the data, bytesRead bytes after the read position, and budget and
        chunk were computed for it. */
    ghost predicate Valid()
      reads this, buffer
    {
      && buffer.Valid()
      && pos.idx < |buffer.chunks| && pos.off <= buffer.sizes[pos.idx]
      && budget == buffer.sizes[pos.idx] - pos.off
      && chunk == pos.idx
      && bytesRead <= |buffer.Contents()| && From(buffer.Data(), pos) == buffer.Contents()[bytesRead..]
    }

    ghost function At(): (c: Cursor)
      reads this
    {
      Cursor(pos, bytesRead, budget, chunk)
    }

    /** What is still to be read. */
    ghost function Rest(): (s: seq<char>)
      requires Valid()
      reads this, buffer
    {
      From(buffer.Data(), pos)
    }

    lemma Passed()
      requires Valid()
      ensures bytesRead <= |buffer.Contents()| && Rest() == buffer.Contents()[bytesRead..]
    {
    }

    /** There is something to read here, or this is the last chunk. */
    ghost predicate Settled()
      requires Valid()
      reads this, buffer
    {
      pos.idx < buffer.wpos.idx ==> pos.off < buffer.sizes[pos.idx]
    }

    constructor (b: Buffer)
      requires b.Valid()
      ensures Valid() && buffer == b && bytesRead == 0
      ensures Rest() == b.Contents() && (Settled() <==> b.Normalized())
      ensures bytesTotal == |b.Contents()| + Sum(b.sizes[1..b.rpos.idx + 1])
    {
      buffer, pos, bytesRead := b, b.rpos, 0;
      budget := b.sizes[b.rpos.idx] - b.rpos.off;
      chunk := b.rpos.idx;
      new;
      bytesTotal := b.ByteCount();
    }

    /** eob: the budget saves the comparison of positions and never changes its answer. */
    predicate Eob()
      requires Valid()
      reads this, buffer
      ensures Eob() <==> pos == buffer.wpos
      ensures Settled() ==> (Eob() <==> Rest() == [])
      ensures !Settled() ==> !Eob()
    {
      RestEmpty(buffer.Data(), pos);
      if budget != 0 then false else pos == buffer.wpos
    }

    function GetChar(): (c: char)
      requires Valid() && Settled() && Rest() != []
      reads this, buffer
      ensures c == Rest()[0]
    {
      RestEmpty(buffer.Data(), pos);
      buffer.chunks[chunk][pos.off]
    }

    method SlowNext()
      requires Valid()
      modifies this
      ensures Valid() && At() == SlowStep(buffer.sizes, buffer.wpos.idx, old(At())) && bytesTotal == old(bytesTotal)
    {
      hide From, Pieces;
      StepRest(buffer.Data(), pos);
      if pos.off < buffer.sizes[pos.idx] {
        pos := pos.(off := pos.off + 1);
        bytesRead := bytesRead + 1;
        if pos.off == buffer.sizes[pos.idx] && pos.idx < buffer.wpos.idx {
          pos := Position(pos.idx + 1, 0);
          chunk := pos.idx;
        }
        budget := buffer.sizes[pos.idx] - pos.off;
      }
    }

    /** next: the budgeted fast path does what slowNext would. A settled iterator moves on by one
        byte and stays settled; an unsettled one is stuck. */
    method Next()
      requires Valid()
      modifies this
      ensures Valid() && At() == SlowStep(buffer.sizes, buffer.wpos.idx, old(At())) && bytesTotal == old(bytesTotal)
      ensures old(Settled() && Rest() != []) ==> Settled() && Rest() == old(Rest())[1..] && bytesRead == old(bytesRead) + 1
      ensures !old(Settled()) || old(Rest()) == [] ==>
                At() == old(At()) && Rest() == old(Rest()) && (Settled() <==> old(Settled()))
    {
      hide From, Pieces;
      StepRest(buffer.Data(), pos);
      RestEmpty(buffer.Data(), pos);
      if budget > 1 {
        budget := budget - 1;
        pos := pos.(off := pos.off + 1);
        bytesRead := bytesRead + 1;
        return;
      }
      SlowNext();
    }
  }

  lemma RestEmpty(ps: seq<seq<char>>, pos: Position)
    requires pos.idx < |ps| && pos.off <= |ps[pos.idx]|
    ensures pos.off < |ps[pos.idx]| ==> From(ps, pos) != [] && From(ps, pos)[0] == ps[pos.idx][pos.off]
    ensures pos.idx == |ps| - 1 && pos.off == |ps[pos.idx]| ==> From(ps, pos) == []
  {
  }

  /** One byte further, in the chunk or at the start of the next one. */
  lemma StepRest(ps: seq<seq<char>>, pos: Position)
    requires pos.idx < |ps| && pos.off <= |ps[pos.idx]|
    ensures pos.off < |ps[pos.idx]| ==>
              && From(ps, pos) != []
              && From(ps, Position(pos.idx, pos.off + 1)) == From(ps, pos)[1..]
              && (pos.off + 1 == |ps[pos.idx]| && pos.idx + 1 < |ps| ==>
                    From(ps, Position(pos.idx + 1, 0)) == From(ps, pos)[1..])
  {
  }

  /** A walk from begin() to eob() over a buffer with a good read position sees exactly its
      contents. */
  method ReadAll(b: Buffer) returns (s: seq<char>, count: nat)
    requires b.Valid() && b.Normalized()
    ensures s == b.Contents() && count == |s|
  {
    hide SlowStep, Iterator.Valid, Iterator.Rest, Iterator.Settled, Iterator.Eob, Buffer.Valid, Buffer.Contents;
    var it := new Iterator(b);
    s := [];
    while !it.Eob()
      invariant it.Valid() && it.Settled() && it.buffer == b
      invariant s + it.Rest() == b.Contents() && it.bytesRead == |s|
      decreases |it.Rest()|
    {
      s := s + [it.GetChar()];
      it.Next();
    }
    count := it.bytesRead;
  }
}

/** The chunked stream buffer, proved against a plain byte sequence. */
module StreamBuffer {

  const BLOCK_SIZE := 4096

  datatype Position = Position(idx: nat, off: nat)

  // ---------- Pieces ----------

  /** The filled part of each chunk. */
  function Pieces(chunks: seq<seq<char>>, sizes: seq<nat>): (ps: seq<seq<char>>)
    requires |chunks| == |sizes| && forall i :: 0 <= i < |chunks| ==> sizes[i] <= |chunks[i]|
    ensures |ps| == |chunks| && forall i :: 0 <= i < |ps| ==> ps[i] == chunks[i][..sizes[i]]
  {
    seq(|chunks|, i requires 0 <= i < |chunks| => chunks[i][..sizes[i]])
  }

  ghost predicate Fits(chunks: seq<seq<char>>, sizes: seq<nat>) {
    |chunks| == |sizes| && forall i :: 0 <= i < |chunks| ==> |chunks[i]| == BLOCK_SIZE && sizes[i] <= BLOCK_SIZE
  }

  lemma SameLength(chunks: seq<seq<char>>, sizes: seq<nat>)
    requires Fits(chunks, sizes)
    ensures |chunks| == |sizes|
  {
  }

  lemma PiecesAppend(chunks: seq<seq<char>>, sizes: seq<nat>, more: seq<seq<char>>, moreSizes: seq<nat>)
    requires Fits(chunks, sizes) && Fits(more, moreSizes)
    ensures Fits(chunks + more, sizes + moreSizes)
    ensures Pieces(chunks + more, sizes + moreSizes) == Pieces(chunks, sizes) + Pieces(more, moreSizes)
  {
  }

  lemma PiecesUpdate(chunks: seq<seq<char>>, sizes: seq<nat>, k: nat, c: seq<char>, n: nat)
    requires Fits(chunks, sizes) && k < |chunks| && |c| == BLOCK_SIZE && n <= BLOCK_SIZE
    ensures Fits(chunks[k := c], sizes[k := n])
    ensures Pieces(chunks[k := c], sizes[k := n]) == Pieces(chunks, sizes)[k := c[..n]]
  {
  }

  lemma PiecesDrop(chunks: seq<seq<char>>, sizes: seq<nat>, n: nat)
    requires Fits(chunks, sizes) && n <= |chunks|
    ensures Fits(chunks[n..], sizes[n..])
    ensures Pieces(chunks[n..], sizes[n..]) == Pieces(chunks, sizes)[n..]
  {
  }

  function Join(ps: seq<seq<char>>): (s: seq<char>) {
    if |ps| == 0 then [] else ps[0] + Join(ps[1..])
  }

  lemma {:induction false} JoinAppend(a: seq<seq<char>>, b: seq<seq<char>>)
    ensures Join(a + b) == Join(a) + Join(b)
  {
    if |a| == 0 {
      assert a + b == b;
    } else {
      assert (a + b)[1..] == a[1..] + b;
      JoinAppend(a[1..], b);
    }
  }

  lemma JoinOne(p: seq<char>)
    ensures Join([p]) == p
  {
  }

  lemma EmptyPiece(c: seq<char>)
    requires |c| == BLOCK_SIZE
    ensures Join(Pieces([c], [0])) == []
  {
  }

  /** What can be read from position pos on. */
  function From(ps: seq<seq<char>>, pos: Position): (s: seq<char>)
    requires pos.idx < |ps| && pos.off <= |ps[pos.idx]|
  {
    ps[pos.idx][pos.off..] + Join(ps[pos.idx + 1..])
  }

  /** Bytes added at the end of the last piece are added at the end of what can be read. */
  lemma FromGrowLast(ps: seq<seq<char>>, pos: Position, data: seq<char>)
    requires pos.idx < |ps| && pos.off <= |ps[pos.idx]|
    ensures var n := |ps| - 1;
            var ps' := ps[n := ps[n] + data];
            pos.off <= |ps'[pos.idx]| && From(ps', pos) == From(ps, pos) + data
  {
    var n := |ps| - 1;
    var ps' := ps[n := ps[n] + data];
    if pos.idx == n {
      assert ps'[n + 1..] == [] && ps[n + 1..] == [];
    } else {
      var a := ps[pos.idx + 1..n];
      assert ps[pos.idx + 1..] == a + [ps[n]] && ps'[pos.idx + 1..] == a + [ps[n] + data];
      JoinAppend(a, [ps[n]]);
      JoinAppend(a, [ps[n] + data]);
      JoinOne(ps[n]);
      JoinOne(ps[n] + data);
    }
  }

  lemma FromAppend(ps: seq<seq<char>>, pos: Position, more: seq<seq<char>>)
    requires pos.idx < |ps| && pos.off <= |ps[pos.idx]|
    ensures From(ps + more, pos) == From(ps, pos) + Join(more)
  {
    assert (ps + more)[pos.idx + 1..] == ps[pos.idx + 1..] + more;
    JoinAppend(ps[pos.idx + 1..], more);
  }

  lemma FromNext(ps: seq<seq<char>>, pos: Position)
    requires pos.idx + 1 < |ps| && pos.off == |ps[pos.idx]|
    ensures From(ps, pos) == From(ps, Position(pos.idx + 1, 0))
  {
  }

  lemma FromDrop(ps: seq<seq<char>>, pos: Position, n: nat)
    requires n <= pos.idx < |ps| && pos.off <= |ps[pos.idx]|
    ensures From(ps[n..], Position(pos.idx - n, pos.off)) == From(ps, pos)
  {
  }

  /** Only the last chunk may be empty. */
  ghost predicate Inner(sizes: seq<nat>) {
    forall i :: 0 <= i < |sizes| - 1 ==> sizes[i] > 0
  }

  /** From chunk k on, all chunks but the last are full. */
  ghost predicate FullFrom(sizes: seq<nat>, k: nat) {
    forall i :: k <= i < |sizes| - 1 ==> sizes[i] == BLOCK_SIZE
  }

  // ---------- The buffer ----------

  class Buffer {
    var chunks: seq<seq<char>>
    var sizes: seq<nat>
    var wpos: Position
    var rpos: Position

    /** The write position is the end of the last chunk; the read position is inside the data;
        only the last chunk may be empty. */
    ghost predicate Valid()
      reads this
    {
      && Fits(chunks, sizes) && |chunks| > 0
      && Inner(sizes)
      && wpos == Position(|chunks| - 1, sizes[|chunks| - 1])
      && rpos.idx < |chunks| && rpos.off <= sizes[rpos.idx]
    }

    ghost function Data(): (ps: seq<seq<char>>)
      requires Valid()
      reads this
    {
      Pieces(chunks, sizes)
    }

    /** The bytes written and not yet consumed. */
    ghost function Contents(): (s: seq<char>)
      requires Valid()
      reads this
    {
      From(Data(), rpos)
    }

    /** An unfinished chunk that is not the last one has something left to read. */
    ghost predicate Normalized()
      requires Valid()
      reads this
    {
      rpos.idx < wpos.idx ==> rpos.off < sizes[rpos.idx]
    }

    /** With a good read position, nothing to read means that it has reached the write position. */
    lemma EmptyIsAtEnd()
      requires Valid() && Normalized()
      ensures Contents() == [] <==> rpos == wpos
    {
    }

    constructor ()
      ensures Valid() && Contents() == [] && Normalized() && rpos == wpos == Position(0, 0)
    {
      chunks := [seq(BLOCK_SIZE, _ => '\0')];
      sizes := [0];
      wpos := Position(0, 0);
      rpos := Position(0, 0);
      new;
    }

    function WriteSize(): (n: int)
      requires Valid()
      reads this
    {
      BLOCK_SIZE - wpos.off
    }

    function ReadSize(): (n: int)
      requires rpos.idx < |sizes|
      reads this
    {
      sizes[rpos.idx] - rpos.off
    }

    /** addChunk: an empty chunk at the end. The source leaves its bytes unset; no contract depends on
        them. */
    method AddChunk()
      requires Valid() && sizes[|sizes| - 1] > 0
      modifies this
      ensures Valid() && Contents() == old(Contents()) && rpos == old(rpos)
      ensures sizes == old(sizes) + [0] && wpos == Position(|old(sizes)|, 0)
      ensures chunks[..|old(chunks)|] == old(chunks)
    {
      hide Pieces, From, Join;
      var c := seq(BLOCK_SIZE, _ => '\0');
      PiecesAppend(chunks, sizes, [c], [0]);
      FromAppend(Data(), rpos, Pieces([c], [0]));
      EmptyPiece(c);
      chunks := chunks + [c];
      sizes := sizes + [0];
      wpos := Position(|chunks| - 1, 0);
    }

    /** Stores bytes at the write pointer, as the user of writePtr() does. */
    method Fill(data: seq<char>)
      requires Valid() && |data| <= WriteSize()
      modifies this`chunks
      ensures Valid() && Contents() == old(Contents())
      ensures chunks[wpos.idx][wpos.off..wpos.off + |data|] == data
    {
      hide From;
      var c := chunks[wpos.idx];
      var c' := c[..wpos.off] + data + c[wpos.off + |data|..];
      PiecesUpdate(chunks, sizes, wpos.idx, c', wpos.off);
      assert c'[..wpos.off] == c[..wpos.off];
      assert Data()[wpos.idx := c[..wpos.off]] == Data() && sizes[wpos.idx := wpos.off] == sizes;
      chunks := chunks[wpos.idx := c'];
    }

    /** advance moves the write pointer over bytes that are already stored. */
    method Advance(bytes: nat) returns (ok: bool)
      requires Valid()
      modifies this
      ensures Valid() && ok == (0 < bytes <= old(WriteSize()))
      ensures Contents() == if ok then old(Contents() + chunks[wpos.idx][wpos.off..wpos.off + bytes]) else old(Contents())
      ensures rpos == old(rpos) && wpos == if ok then Position(old(wpos).idx, old(wpos).off + bytes) else old(wpos)
      ensures sizes == if ok then old(sizes)[wpos.idx := wpos.off] else old(sizes)
      ensures old(Normalized()) ==> Normalized()
    {
      hide From, Pieces;
      if bytes <= 0 {
        return false;
      }
      if bytes <= WriteSize() {
        ghost var n, c := wpos.idx, chunks[wpos.idx];
        ghost var data := c[wpos.off..wpos.off + bytes];
        PiecesUpdate(chunks, sizes, n, c, wpos.off + bytes);
        assert c[..wpos.off + bytes] == c[..wpos.off] + data && chunks[n := c] == chunks;
        FromGrowLast(Data(), rpos, data);
        wpos := wpos.(off := wpos.off + bytes);
        sizes := sizes[wpos.idx := sizes[wpos.idx] + bytes];
        return true;
      }
      return false;
    }

    /** Stores bytes at the write pointer and moves it over them. */
    method Put(data: seq<char>)
      requires Valid() && |data| <= WriteSize()
      modifies this
      ensures Valid() && Contents() == old(Contents()) + data
      ensures rpos == old(rpos) && wpos == Position(old(wpos).idx, old(wpos).off + |data|)
      ensures sizes == old(sizes)[wpos.idx := wpos.off]
    {
      hide From, Pieces;
      var n, c := wpos.idx, chunks[wpos.idx];
      var c' := c[..wpos.off] + data + c[wpos.off + |data|..];
      PiecesUpdate(chunks, sizes, n, c', wpos.off + |data|);
      assert c'[..wpos.off + |data|] == c[..wpos.off] + data;
      FromGrowLast(Data(), rpos, data);
      chunks := chunks[n := c'];
      sizes := sizes[n := sizes[n] + |data|];
      wpos := wpos.(off := wpos.off + |data|);
    }

    /** dropChunks: forgets chunks before the read position. */
    method DropChunks(n: nat)
      requires Valid() && n <= rpos.idx
      modifies this
      ensures Valid() && Contents() == old(Contents())
      ensures rpos == Position(old(rpos).idx - n, old(rpos).off) && wpos == Position(old(wpos).idx - n, old(wpos).off)
      ensures sizes == old(sizes)[n..]
    {
      hide From, Pieces;
      if n == 0 {
        return;
      }
      PiecesDrop(chunks, sizes, n);
      FromDrop(Data(), rpos, n);
      wpos := wpos.(idx := wpos.idx - n);
      rpos := rpos.(idx := rpos.idx - n);
      chunks := chunks[n..];
      sizes := sizes[n..];
    }

    /** reserve makes room without changing the contents. */
    method Reserve(bytes: nat) returns (ok: bool)
      requires Valid()
      modifies this
      ensures Valid() && Contents() == old(Contents())
      ensures ok == (bytes <= BLOCK_SIZE) && (ok ==> WriteSize() >= bytes)
      ensures !ok || old(WriteSize()) >= bytes ==> unchanged(this)
      ensures ok && old(WriteSize()) < bytes ==>
                if old(rpos == wpos) then sizes == old(sizes)[1..] + [0] && rpos == wpos == Position(old(rpos).idx, 0)
                else sizes == old(sizes) + [0] && rpos == old(rpos)
      ensures old(Normalized()) ==> Normalized()
    {
      hide From, Pieces;
      if bytes > BLOCK_SIZE {
        return false;
      }
      if BLOCK_SIZE - wpos.off >= bytes {
        return true;
      }
      var shouldAdvance := rpos == wpos;
      if shouldAdvance {
        AtEnd(Data(), rpos);
      }
      AddChunk();
      if shouldAdvance {
        rpos := wpos;
        AtEnd(Data(), rpos);
        DropChunks(1);
      }
      return true;
    }

    /** One pass of write's loop: what fits into the last chunk, and a new chunk if there is more
        or the chunk is full. */
    method WriteSome(data: seq<char>) returns (n: nat)
      requires Valid() && data != []
      modifies this
      ensures Valid() && n <= |data| && rpos == old(rpos) && Contents() == old(Contents()) + data[..n]
      ensures n == if old(WriteSize()) < |data| then old(WriteSize()) else |data|
      ensures WriteSize() > 0
      ensures var filled := old(sizes)[old(wpos).idx := old(wpos).off + n];
              sizes == if n < |data| || old(wpos).off + n == BLOCK_SIZE then filled + [0] else filled
    {
      hide From, Pieces;
      n := if WriteSize() < |data| then WriteSize() else |data|;
      Put(data[..n]);
      if n < |data| || wpos.off == BLOCK_SIZE {
        AddChunk();
      }
    }

    /** write appends; it leaves the read position good unless that was at the end of a full
        chunk. */
    method Write(data: seq<char>)
      requires Valid()
      modifies this
      ensures Valid() && Contents() == old(Contents()) + data
      ensures rpos == old(rpos) && FullFrom(sizes, old(wpos).idx) && (data != [] ==> WriteSize() > 0)
      ensures old(wpos).idx < |sizes| && sizes[..old(wpos).idx] == old(sizes)[..old(wpos).idx]
      ensures data == [] ==> sizes == old(sizes)
      ensures old(Normalized()) ==>
                (Normalized() <==> !(data != [] && old(rpos) == old(wpos) && old(WriteSize()) == 0))
    {
      hide From, Pieces, Inner;
      var done := 0;
      ghost var stuck, started := rpos == wpos && WriteSize() == 0, false;
      while done < |data|
        invariant Valid() && 0 <= done <= |data| && rpos == old(rpos)
        invariant Contents() == old(Contents()) + data[..done]
        invariant old(wpos).idx < |sizes| && FullFrom(sizes, old(wpos).idx)
        invariant sizes[..old(wpos).idx] == old(sizes)[..old(wpos).idx]
        invariant if started then WriteSize() > 0 else done == 0 && wpos == old(wpos) && sizes == old(sizes)
        invariant started && old(Normalized()) ==> (rpos.off < sizes[rpos.idx] <==> !stuck)
        invariant started ==> data != [] && (stuck ==> rpos.idx < wpos.idx)
        decreases |data| - done, BLOCK_SIZE - WriteSize()
      {
        var n := WriteSome(data[done..]);
        TakeMore(old(Contents()), data, done, n);
        done := done + n;
        started := true;
      }
      assert data[..done] == data;
    }

    /** Moves the read position inside its chunk. */
    method Skip(n: nat)
      requires Valid() && n <= ReadSize()
      modifies this`rpos
      ensures Valid() && n <= |old(Contents())| && Contents() == old(Contents())[n..]
      ensures rpos == Position(old(rpos).idx, old(rpos).off + n)
    {
      hide From, Pieces;
      FromSkip(Data(), rpos, n);
      rpos := rpos.(off := rpos.off + n);
    }

    /** Goes on to the next chunk once this one is read. */
    method NextChunk()
      requires Valid() && ReadSize() == 0 && rpos.idx < wpos.idx
      modifies this`rpos
      ensures Valid() && Contents() == old(Contents()) && rpos == Position(old(rpos).idx + 1, 0)
    {
      hide From, Pieces;
      FromNext(Data(), rpos);
      rpos := Position(rpos.idx + 1, 0);
    }

    /** The part of consume before the last chunk. */
    method ConsumeWhole(bytes: nat) returns (left: nat, chunksToDrop: nat)
      requires Valid()
      modifies this`rpos
      ensures Valid() && left <= bytes && Contents() == Drop(old(Contents()), bytes - left)
      ensures chunksToDrop == rpos.idx - old(rpos).idx
      ensures left == 0 || rpos.idx == wpos.idx
      ensures old(Normalized()) ==> Normalized()
    {
      hide From, Pieces, Drop;
      left, chunksToDrop := bytes, 0;
      ghost var all := Contents();
      DropNone(all);
      while left > 0 && rpos.idx < wpos.idx
        invariant Valid()
        invariant 0 <= left <= bytes && Contents() == Drop(all, bytes - left)
        invariant chunksToDrop == rpos.idx - old(rpos).idx
        invariant old(Normalized()) ==> Normalized()
        decreases wpos.idx - rpos.idx, left
      {
        var n := if left < ReadSize() then left else ReadSize();
        DropMore(all, bytes - left, n);
        Skip(n);
        left := left - n;
        if ReadSize() == 0 {
          chunksToDrop := chunksToDrop + 1;
          NextChunk();
        }
      }
    }

    /** consume drops what was read, as far as there is data, with the chunks that are finished: the
        read position stays in the chunk of the same number. */
    method Consume(bytes: nat)
      requires Valid()
      modifies this
      ensures Valid() && Contents() == Drop(old(Contents()), bytes)
      ensures rpos.idx == old(rpos).idx && |sizes| <= |old(sizes)| && sizes == old(sizes)[|old(sizes)| - |sizes|..]
      ensures old(Normalized()) ==> Normalized()
    {
      hide From, Pieces, Drop, Inner;
      ghost var all := Contents();
      var left, chunksToDrop := ConsumeWhole(bytes);
      if left > 0 {
        ConsumeLast(bytes - left, left, all);
      }
      DropChunks(chunksToDrop);
    }

    /** The part of consume in the last chunk, with m bytes of all already gone. */
    method ConsumeLast(ghost m: nat, left: nat, ghost all: seq<char>)
      requires Valid() && rpos.idx == wpos.idx && Contents() == Drop(all, m)
      modifies this`rpos
      ensures Valid() && rpos.idx == wpos.idx == old(rpos).idx && Contents() == Drop(all, m + left)
    {
      hide From, Pieces, Drop, Inner;
      var n := if left < ReadSize() then left else ReadSize();
      LastPiece(Data(), rpos);
      DropMore(all, m, n);
      if n == ReadSize() {
        DropAll(all, m, n, m + left);
      }
      Skip(n);
    }

    /** byteCount exceeds the number of bytes by what lies in chunks 1 to the one being read. */
    method ByteCount() returns (count: nat)
      requires Valid()
      ensures count == |Contents()| + Sum(sizes[1..rpos.idx + 1])
      ensures count == |Contents()| <==> rpos.idx == 0 || (rpos.idx == 1 && sizes[1] == 0)
    {
      hide From, Pieces, Sum, Inner;
      count := ReadSize();
      assert sizes[1..1] == [] && Sum([]) == 0 by { SumNothing(); }
      for i := 1 to |sizes|
        invariant count == ReadSize() + Sum(sizes[1..i])
      {
        assert sizes[1..i + 1] == sizes[1..i] + [sizes[i]];
        SumAppend(sizes[1..i], [sizes[i]]);
        SumOne(sizes[i]);
        count := count + sizes[i];
      }
      assert sizes[1..] == sizes[1..|sizes|];
      CountedBytes(chunks, sizes, rpos);
    }

    /** maybeRemoveLastChunk takes an empty last chunk off; the write position is then stale. */
    method MaybeRemoveLastChunk() returns (removed: bool, chunk: seq<char>)
      requires Valid()
      modifies this`chunks, this`sizes
      ensures removed == (old(sizes)[wpos.idx] == 0) && |chunk| == BLOCK_SIZE
      ensures TrimmedSizes(old(sizes), sizes) && |sizes| <= |old(chunks)| && chunks == old(chunks)[..|sizes|]
    {
      removed, chunk := sizes[wpos.idx] == 0, chunks[wpos.idx];
      if removed {
        chunks := chunks[..wpos.idx];
        sizes := sizes[..wpos.idx];
      }
    }

    /** The loop that takes over chunks one by one. */
    method Adopt(more: seq<seq<char>>, moreSizes: seq<nat>)
      requires |more| == |moreSizes|
      modifies this`chunks, this`sizes
      ensures chunks == old(chunks) + more && sizes == old(sizes) + moreSizes
    {
      for i := 0 to |more|
        invariant chunks == old(chunks) + more[..i] && sizes == old(sizes) + moreSizes[..i]
      {
        chunks := chunks + [more[i]];
        sizes := sizes + [moreSizes[i]];
      }
    }

    /** Where appendFrom leaves the read position: past a chunk that is read to its end. */
    ghost function ReadPositionAfter(): (pos: Position)
      requires Valid()
      reads this
    {
      if sizes[rpos.idx] > 0 then Settle(sizes, rpos) else rpos
    }

    /** appendFrom moves all of other's chunks to the end of this buffer. It leaves other empty,
        but usable only if other's last chunk was not empty. */
    method AppendFrom(other: Buffer)
      requires Valid() && other.Valid() && other != this && other.rpos == Position(0, 0)
      modifies this, other
      ensures Valid() && Contents() == old(Contents()) + old(other.Contents())
      ensures old(other.Contents()) == [] ==>
                unchanged(this) && unchanged(other)
      ensures old(other.Contents()) != [] ==>
                && Normalized() && rpos == old(ReadPositionAfter())
                && sizes == Topped(Trim(old(sizes)) + Trim(old(other.sizes)))
                && other.sizes == [0] && other.rpos == other.wpos
                && other.wpos == (if old(other.sizes[other.wpos.idx] == 0) then old(other.wpos) else Position(0, 0))
                && (other.Valid() <==> old(other.sizes[other.wpos.idx] > 0))
                && (other.Valid() ==> other.Contents() == [] && other.Normalized())
    {
      hide From, Pieces, Join;
      UnreadContents(other.chunks, other.sizes);
      if other.ReadSize() == 0 {
        return;
      }
      ghost var cs, zs := other.chunks, other.sizes;
      var otherSaved, otherLastChunk := other.MaybeRemoveLastChunk();
      TrimmedIs(zs, other.sizes);
      TakeOver(cs, zs, other.chunks, other.sizes);
      other.Reset(otherSaved, otherLastChunk);
    }

    /** The part of appendFrom that changes this buffer: the chunks cs of the other one, without
        an empty last one, are put after its own. */
    method TakeOver(ghost cs: seq<seq<char>>, ghost zs: seq<nat>, more: seq<seq<char>>, moreSizes: seq<nat>)
      requires Valid() && Fits(cs, zs) && Inner(zs) && |zs| > 0 && zs[0] > 0
      requires TrimmedSizes(zs, moreSizes) && 0 < |moreSizes| <= |cs| && more == cs[..|moreSizes|]
      modifies this
      ensures Valid() && Normalized() && Contents() == old(Contents()) + Join(Pieces(cs, zs))
      ensures rpos == old(ReadPositionAfter()) && sizes == Topped(Trim(old(sizes)) + moreSizes)
    {
      hide From, Pieces, Join, Fits, Inner, NoneOrEmpty, TrimmedSizes;
      SameLength(chunks, sizes);
      ghost var c2, z0, z2 := Splice(more, moreSizes);
      TrimmedIs(old(sizes), z0);
      Appended(old(chunks), old(sizes), rpos, cs, zs, c2, z0, moreSizes, z2);
      rpos := Settle(sizes, rpos);
      wpos := Position(|chunks| - 1, sizes[|sizes| - 1]);
    }

    /** The chunks without an empty last one, the adopted ones, and a new one if that is needed. */
    method Splice(more: seq<seq<char>>, moreSizes: seq<nat>)
      returns (ghost c2: seq<seq<char>>, ghost z0: seq<nat>, ghost z2: seq<nat>)
      requires Valid() && 0 < |more| == |moreSizes|
      modifies this`chunks, this`sizes
      ensures TrimmedSizes(old(sizes), z0) && |z0| <= |old(chunks)| && Fits(c2, z2) && NoneOrEmpty(z2)
      ensures chunks == old(chunks)[..|z0|] + more + c2 && sizes == z0 + moreSizes + z2 == Topped(z0 + moreSizes)
    {
      hide Fits, NoneOrEmpty, TrimmedSizes;
      var saved, lastChunk := MaybeRemoveLastChunk();
      z0 := sizes;
      Adopt(more, moreSizes);
      c2, z2 := AddIfFull(saved, lastChunk);
    }

    /** One pass of copyFrom's loop. */
    method CopyChunk(i: nat, data: seq<char>)
      requires Valid() && |data| <= BLOCK_SIZE && (i != 0 ==> sizes[wpos.idx] > 0)
      modifies this
      ensures Valid() && rpos == old(rpos) && Contents() == old(Contents()) + data
      ensures i != 0 || |data| > old(WriteSize()) ==> sizes == old(sizes) + [|data|]
      ensures i == 0 && |data| <= old(WriteSize()) ==>
                sizes == old(sizes)[old(wpos).idx := old(wpos).off + |data|]
    {
      hide From, Pieces, Join;
      if i != 0 || |data| > WriteSize() {
        AddChunk();
      }
      Put(data);
    }

    /** copyFrom appends other's bytes chunk by chunk and leaves other alone. A read position at
        the end of the data stays good exactly if the first chunk fits behind it. */
    method CopyFrom(other: Buffer)
      requires Valid() && other.Valid() && other != this && other.rpos == Position(0, 0)
      modifies this
      ensures Valid() && rpos == old(rpos) && Contents() == old(Contents()) + other.Contents()
      ensures sizes == if other.sizes[0] == 0 then old(sizes) else Topped(CopiedSizes(old(sizes), other.sizes))
      ensures old(Normalized()) ==>
                (Normalized() <==> !(old(rpos == wpos) && other.sizes[0] > old(WriteSize())))
    {
      hide From, Pieces, Join;
      UnreadContents(other.chunks, other.sizes);
      if other.ReadSize() == 0 {
        return;
      }
      CopyChunks(other.chunks, other.sizes);
      if wpos.off == BLOCK_SIZE {
        AddChunk();
      }
    }

    /** The loop of copyFrom. */
    method CopyChunks(cs: seq<seq<char>>, zs: seq<nat>)
      requires Valid() && Fits(cs, zs) && Inner(zs) && |zs| > 0 && zs[0] > 0
      modifies this
      ensures Valid() && rpos == old(rpos) && Contents() == old(Contents()) + Join(Pieces(cs, zs))
      ensures sizes == CopiedSizes(old(sizes), zs)
      ensures old(Normalized()) ==> (rpos.off < sizes[rpos.idx] <==> !(old(rpos == wpos) && zs[0] > old(WriteSize())))
      ensures old(rpos == wpos) && zs[0] > old(WriteSize()) ==> rpos.idx < wpos.idx
    {
      hide From, Pieces, Join, Prefix, CopiedSizes;
      ghost var stuck := rpos == wpos && zs[0] > WriteSize();
      PrefixEnds(cs, zs);
      for i := 0 to |cs|
        invariant Valid() && rpos == old(rpos)
        invariant i == 0 ==> wpos == old(wpos) && sizes == old(sizes)
        invariant i > 0 ==> sizes == CopiedSizes(old(sizes), zs[..i])
        invariant Contents() == old(Contents()) + Prefix(cs, zs, i)
        invariant 0 < i < |cs| ==> sizes[wpos.idx] > 0
        invariant i > 0 && old(Normalized()) ==> (rpos.off < sizes[rpos.idx] <==> !stuck)
        invariant i > 0 && stuck ==> rpos.idx < wpos.idx
      {
        OneMore(cs, zs, i);
        CopyChunk(i, cs[i][..zs[i]]);
        CopyOneMore(old(sizes), zs, i);
      }
      assert zs[..|cs|] == zs;
    }

    /** Adds a new or the saved chunk behind a full last chunk. */
    method AddIfFull(saved: bool, lastChunk: seq<char>) returns (ghost c: seq<seq<char>>, ghost z: seq<nat>)
      requires |sizes| > 0 && |lastChunk| == BLOCK_SIZE
      modifies this`chunks, this`sizes
      ensures chunks == old(chunks) + c && sizes == old(sizes) + z
      ensures Fits(c, z) && NoneOrEmpty(z)
      ensures sizes == Topped(old(sizes))
    {
      c, z := [], [];
      if sizes[|sizes| - 1] == BLOCK_SIZE {
        var extra := if saved then lastChunk else seq(BLOCK_SIZE, _ => '\0');
        c, z := [extra], [0];
        chunks := chunks + [extra];
        sizes := sizes + [0];
      }
    }

    /** The end of appendFrom, for the emptied buffer: a saved chunk is put back, but the write
        position is only reset when a new one is made. */
    method Reset(saved: bool, chunk: seq<char>)
      requires |chunk| == BLOCK_SIZE
      modifies this
      ensures wpos == (if saved then old(wpos) else Position(0, 0)) && rpos == wpos && sizes == [0]
      ensures saved && old(wpos).idx > 0 ==> !Valid()
      ensures !saved ==> Valid() && Contents() == [] && Normalized()
    {
      hide From, Pieces, Join;
      if !saved {
        chunks, sizes := [seq(BLOCK_SIZE, _ => '\0')], [0];
        wpos := Position(0, 0);
      } else {
        chunks, sizes := [chunk], [0];
      }
      rpos := wpos;
      if !saved {
        AtEnd(Data(), rpos);
      }
    }
  }

  /** The sizes without a zero at their end. */
  function Trim(sizes: seq<nat>): (z: seq<nat>) {
    if |sizes| > 0 && sizes[|sizes| - 1] == 0 then sizes[..|sizes| - 1] else sizes
  }

  /** The sizes with an empty chunk added behind a full one. */
  function Topped(sizes: seq<nat>): (z: seq<nat>) {
    if |sizes| > 0 && sizes[|sizes| - 1] == BLOCK_SIZE then sizes + [0] else sizes
  }

  /** The sizes after chunks of the sizes zs have been copied: the first one goes behind the data
      if it fits there, the others each into a chunk of its own. */
  function CopiedSizes(sizes: seq<nat>, zs: seq<nat>): (z: seq<nat>)
    requires |sizes| > 0 && |zs| > 0
  {
    var last := |sizes| - 1;
    if sizes[last] + zs[0] <= BLOCK_SIZE then sizes[..last] + [sizes[last] + zs[0]] + zs[1..] else sizes + zs
  }

  lemma CopyOneMore(sizes: seq<nat>, zs: seq<nat>, i: nat)
    requires |sizes| > 0 && i < |zs|
    ensures i > 0 ==> CopiedSizes(sizes, zs[..i + 1]) == CopiedSizes(sizes, zs[..i]) + [zs[i]]
    ensures i == 0 ==> CopiedSizes(sizes, zs[..1]) ==
                       if sizes[|sizes| - 1] + zs[0] <= BLOCK_SIZE then sizes[|sizes| - 1 := sizes[|sizes| - 1] + zs[0]]
                       else sizes + [zs[0]]
  {
    if i > 0 {
      assert zs[..i + 1] == zs[..i] + [zs[i]] && zs[..i + 1][1..] == zs[..i][1..] + [zs[i]];
    }
  }

  ghost predicate TrimmedSizes(sizes: seq<nat>, z: seq<nat>) {
    |sizes| > 0 && z == Trim(sizes)
  }

  lemma TrimmedIs(sizes: seq<nat>, z: seq<nat>)
    requires TrimmedSizes(sizes, z)
    ensures z == Trim(sizes)
  {
  }

  ghost predicate NoneOrEmpty(z: seq<nat>) {
    z == [] || z == [0]
  }

  function Settle(sizes: seq<nat>, pos: Position): (pos': Position)
    requires pos.idx < |sizes|
  {
    if sizes[pos.idx] - pos.off == 0 then Position(pos.idx + 1, 0) else pos
  }

  /** After the sizes are put together, the settled read position has something to read. */
  lemma AppendedSizes(sizes: seq<nat>, pos: Position, others: seq<nat>, z0: seq<nat>, z1: seq<nat>, z2: seq<nat>)
    requires TrimmedSizes(sizes, z0) && TrimmedSizes(others, z1) && NoneOrEmpty(z2) && others[0] > 0
    requires pos.idx < |sizes| && pos.off <= sizes[pos.idx] && Inner(sizes) && Inner(others)
    ensures var z := z0 + z1 + z2;
            && Inner(z) && |z0 + z1| > 0 && pos.idx < |z0 + z1| && pos.off <= z[pos.idx]
            && var pos' := Settle(z, pos);
            && pos'.idx < |z0 + z1| && pos'.off < z[pos'.idx]
            && pos' == (if sizes[pos.idx] > 0 then Settle(sizes, pos) else pos)
  {
  }

  /** Base chunks c0, adopted chunks c1 and perhaps an empty chunk c2 make up what appendFrom
      builds from the old chunks of both buffers. */
  lemma AppendedContents(chunks: seq<seq<char>>, sizes: seq<nat>, pos: Position,
                         others: seq<seq<char>>, otherSizes: seq<nat>,
                         c2: seq<seq<char>>, z0: seq<nat>, z1: seq<nat>, z2: seq<nat>)
    requires Fits(chunks, sizes) && Fits(others, otherSizes) && Fits(c2, z2)
    requires TrimmedSizes(sizes, z0) && TrimmedSizes(otherSizes, z1) && NoneOrEmpty(z2) && |z1| > 0
    requires pos.idx < |sizes| && pos.off <= sizes[pos.idx]
    ensures var c, z := chunks[..|z0|] + others[..|z1|] + c2, z0 + z1 + z2;
            && Fits(c, z) && pos.off <= z[pos.idx]
            && From(Pieces(c, z), pos) == From(Pieces(chunks, sizes), pos) + Join(Pieces(others, otherSizes))
  {
    hide From, Join, Pieces;
    var c0, c1 := chunks[..|z0|], others[..|z1|];
    TrimmedPieces(chunks, sizes, z0);
    TrimmedPieces(others, otherSizes, z1);
    var p0, p1, p2 := Pieces(c0, z0), Pieces(c1, z1), Pieces(c2, z2);
    ThreePieces(c0, z0, c1, z1, c2, z2);
    NoPieces(c2, z2);
    JoinAppend(p1, p2);
    TrimJoin(Pieces(others, otherSizes), p1);
    FromTrimmed(Pieces(chunks, sizes), p0, pos, p1 + p2);
  }

  lemma ThreePieces(c0: seq<seq<char>>, z0: seq<nat>, c1: seq<seq<char>>, z1: seq<nat>, c2: seq<seq<char>>, z2: seq<nat>)
    requires Fits(c0, z0) && Fits(c1, z1) && Fits(c2, z2)
    ensures Fits(c0 + c1 + c2, z0 + z1 + z2)
    ensures Pieces(c0 + c1 + c2, z0 + z1 + z2) == Pieces(c0, z0) + (Pieces(c1, z1) + Pieces(c2, z2))
  {
  }

  lemma TrimmedPieces(chunks: seq<seq<char>>, sizes: seq<nat>, z: seq<nat>)
    requires Fits(chunks, sizes) && TrimmedSizes(sizes, z)
    ensures |z| <= |chunks| && Fits(chunks[..|z|], z)
    ensures Trimmed(Pieces(chunks, sizes), Pieces(chunks[..|z|], z))
  {
  }

  lemma Appended(chunks: seq<seq<char>>, sizes: seq<nat>, pos: Position, others: seq<seq<char>>, otherSizes: seq<nat>,
                 c2: seq<seq<char>>, z0: seq<nat>, z1: seq<nat>, z2: seq<nat>)
    requires Fits(chunks, sizes) && Fits(others, otherSizes) && Fits(c2, z2)
    requires TrimmedSizes(sizes, z0) && TrimmedSizes(otherSizes, z1) && NoneOrEmpty(z2) && otherSizes[0] > 0
    requires pos.idx < |sizes| && pos.off <= sizes[pos.idx] && Inner(sizes) && Inner(otherSizes)
    ensures |z0| <= |chunks| && |z1| <= |others|
    ensures var c, z := chunks[..|z0|] + others[..|z1|] + c2, z0 + z1 + z2;
            && Fits(c, z) && Inner(z) && 0 < |c| == |z| && pos.idx < |z|
            && var pos' := Settle(z, pos);
            && pos'.idx < |z| && pos'.off < z[pos'.idx]
            && pos' == (if sizes[pos.idx] > 0 then Settle(sizes, pos) else pos)
            && From(Pieces(c, z), pos') == From(Pieces(chunks, sizes), pos) + Join(Pieces(others, otherSizes))
  {
    hide From, Pieces, Join;
    AppendedSizes(sizes, pos, otherSizes, z0, z1, z2);
    AppendedContents(chunks, sizes, pos, others, otherSizes, c2, z0, z1, z2);
    SettledContents(chunks[..|z0|] + others[..|z1|] + c2, z0 + z1 + z2, pos);
  }

  /** The bytes of the first i chunks. */
  ghost function Prefix(chunks: seq<seq<char>>, sizes: seq<nat>, i: nat): (s: seq<char>)
    requires Fits(chunks, sizes) && i <= |chunks|
  {
    Join(Pieces(chunks[..i], sizes[..i]))
  }

  lemma PrefixEnds(chunks: seq<seq<char>>, sizes: seq<nat>)
    requires Fits(chunks, sizes)
    ensures Prefix(chunks, sizes, 0) == [] && Prefix(chunks, sizes, |chunks|) == Join(Pieces(chunks, sizes))
  {
    assert chunks[..|chunks|] == chunks && sizes[..|chunks|] == sizes;
  }

  lemma OneMore(chunks: seq<seq<char>>, sizes: seq<nat>, i: nat)
    requires Fits(chunks, sizes) && i < |chunks|
    ensures Prefix(chunks, sizes, i + 1) == Prefix(chunks, sizes, i) + chunks[i][..sizes[i]]
  {
    hide Join;
    var ps := Pieces(chunks, sizes);
    PiecesTake(chunks, sizes, i);
    PiecesTake(chunks, sizes, i + 1);
    assert ps[..i + 1] == ps[..i] + [ps[i]];
    JoinAppend(ps[..i], [ps[i]]);
    JoinOne(ps[i]);
  }

  lemma PiecesTake(chunks: seq<seq<char>>, sizes: seq<nat>, n: nat)
    requires Fits(chunks, sizes) && n <= |chunks|
    ensures Fits(chunks[..n], sizes[..n])
    ensures Pieces(chunks[..n], sizes[..n]) == Pieces(chunks, sizes)[..n]
  {
  }

  lemma NoPieces(chunks: seq<seq<char>>, sizes: seq<nat>)
    requires (chunks == [] && sizes == []) || (|chunks| == 1 && |chunks[0]| == BLOCK_SIZE && sizes == [0])
    ensures Join(Pieces(chunks, sizes)) == []
  {
  }

  /** base is ps without its last piece, if that is empty. */
  ghost predicate Trimmed(ps: seq<seq<char>>, base: seq<seq<char>>) {
    base == ps || (|ps| > 0 && ps[|ps| - 1] == [] && base == ps[..|ps| - 1])
  }

  lemma TrimJoin(ps: seq<seq<char>>, base: seq<seq<char>>)
    requires Trimmed(ps, base)
    ensures Join(base) == Join(ps)
  {
  }

  lemma FromTrimmed(ps: seq<seq<char>>, base: seq<seq<char>>, pos: Position, more: seq<seq<char>>)
    requires Trimmed(ps, base) && |more| > 0 && pos.idx < |ps| && pos.off <= |ps[pos.idx]|
    ensures pos.off <= |(base + more)[pos.idx]|
    ensures From(base + more, pos) == From(ps, pos) + Join(more)
  {
    if pos.idx < |base| {
      FromAppend(base, pos, more);
      if base != ps {
        assert ps == base + [[]];
        FromAppend(base, pos, [[]]);
        JoinOne([]);
      }
    } else {
      AtEnd(ps, pos);
      assert (base + more)[pos.idx + 1..] == more[1..];
      assert more[0][0..] == more[0];
    }
  }

  /** In a buffer that was not read from, the first chunk is empty exactly when all is. */
  lemma UnreadContents(chunks: seq<seq<char>>, sizes: seq<nat>)
    requires Fits(chunks, sizes) && |chunks| > 0
    requires Inner(sizes)
    ensures From(Pieces(chunks, sizes), Position(0, 0)) == Join(Pieces(chunks, sizes))
    ensures sizes[0] == 0 <==> Join(Pieces(chunks, sizes)) == []
  {
  }

  /** s without its first n bytes, or without all of them. */
  function Drop(s: seq<char>, n: nat): (r: seq<char>) {
    if n < |s| then s[n..] else []
  }

  lemma DropNone(s: seq<char>)
    ensures Drop(s, 0) == s
  {
  }

  lemma DropMore(s: seq<char>, m: nat, n: nat)
    ensures n <= |Drop(s, m)| ==> Drop(s, m)[n..] == Drop(s, m + n)
  {
  }

  /** Once nothing is left, asking for more changes nothing. */
  lemma DropAll(s: seq<char>, m: nat, n: nat, k: nat)
    requires n == |Drop(s, m)| && m + n <= k
    ensures Drop(s, m + n) == Drop(s, k)
  {
  }

  lemma TakeMore(c: seq<char>, data: seq<char>, m: nat, n: nat)
    requires m + n <= |data|
    ensures c + data[..m] + data[m..][..n] == c + data[..m + n]
  {
    assert data[..m] + data[m..][..n] == data[..m + n];
  }

  function Sum(ns: seq<nat>): (n: nat) {
    if |ns| == 0 then 0 else ns[0] + Sum(ns[1..])
  }

  lemma {:induction false} SumAppend(a: seq<nat>, b: seq<nat>)
    ensures Sum(a + b) == Sum(a) + Sum(b)
  {
    if |a| == 0 {
      assert a + b == b;
    } else {
      assert (a + b)[1..] == a[1..] + b;
      SumAppend(a[1..], b);
    }
  }

  lemma SumNothing()
    ensures Sum([]) == 0
  {
  }

  lemma SumOne(n: nat)
    ensures Sum([n]) == n
  {
  }

  /** The sum of the first chunk's rest and all other chunks, against the length of the contents. */
  lemma CountedBytes(chunks: seq<seq<char>>, sizes: seq<nat>, pos: Position)
    requires Fits(chunks, sizes) && Inner(sizes) && pos.idx < |chunks| && pos.off <= sizes[pos.idx]
    ensures var over := Sum(sizes[1..pos.idx + 1]);
            && sizes[pos.idx] - pos.off + Sum(sizes[1..]) == |From(Pieces(chunks, sizes), pos)| + over
            && (over == 0 <==> pos.idx == 0 || (pos.idx == 1 && sizes[1] == 0))
  {
    hide From, Pieces;
    assert sizes[1..] == sizes[1..pos.idx + 1] + sizes[pos.idx + 1..];
    SumAppend(sizes[1..pos.idx + 1], sizes[pos.idx + 1..]);
    FromLength(chunks, sizes, pos);
    if pos.idx > 0 {
      assert sizes[1..pos.idx + 1] == [sizes[1]] + sizes[2..pos.idx + 1];
    }
  }

  lemma {:induction false} JoinLength(chunks: seq<seq<char>>, sizes: seq<nat>)
    requires Fits(chunks, sizes)
    ensures |Join(Pieces(chunks, sizes))| == Sum(sizes)
    decreases |chunks|
  {
    if |chunks| > 0 {
      PiecesDrop(chunks, sizes, 1);
      JoinLength(chunks[1..], sizes[1..]);
    }
  }

  lemma FromLength(chunks: seq<seq<char>>, sizes: seq<nat>, pos: Position)
    requires Fits(chunks, sizes) && pos.idx < |chunks| && pos.off <= sizes[pos.idx]
    ensures |From(Pieces(chunks, sizes), pos)| == sizes[pos.idx] - pos.off + Sum(sizes[pos.idx + 1..])
  {
    PiecesDrop(chunks, sizes, pos.idx + 1);
    JoinLength(chunks[pos.idx + 1..], sizes[pos.idx + 1..]);
  }

  lemma SettledContents(chunks: seq<seq<char>>, sizes: seq<nat>, pos: Position)
    requires Fits(chunks, sizes) && pos.idx < |chunks| && pos.off <= sizes[pos.idx]
    requires Settle(sizes, pos).idx < |chunks|
    ensures From(Pieces(chunks, sizes), Settle(sizes, pos)) == From(Pieces(chunks, sizes), pos)
  {
  }

  lemma FromSkip(ps: seq<seq<char>>, pos: Position, n: nat)
    requires pos.idx < |ps| && pos.off + n <= |ps[pos.idx]|
    ensures n <= |From(ps, pos)| && From(ps, Position(pos.idx, pos.off + n)) == From(ps, pos)[n..]
  {
  }

  lemma LastPiece(ps: seq<seq<char>>, pos: Position)
    requires pos.idx == |ps| - 1 && pos.off <= |ps[pos.idx]|
    ensures |From(ps, pos)| == |ps[pos.idx]| - pos.off
  {
  }

  lemma AtEnd(ps: seq<seq<char>>, pos: Position)
    requires pos.idx == |ps| - 1 && pos.off == |ps[pos.idx]|
    ensures From(ps, pos) == []
  {
  }
}

/** malloc, free and realloc over the single heap. */
module OneLayer {
  import opened Words
  import opened Bytes
  import opened Arena
  import opened Fit
  import opened Objects
  import opened SizeClassHeap

  /** Every live block but those in xs keeps its place, size and payload. */
  ghost predicate PayloadsKept(s: State, s': State, xs: set<int>) {
    forall c :: LiveAt(s, c) && c !in xs ==>
      LiveAt(s', c) && s'.blocks[c].size == s.blocks[c].size
      && Same(s.mem, s'.mem, c + TAG, c + s.blocks[c].size - TAG)
  }

  ghost predicate IsHeap(a: Heaps)
    reads a
  {
    a.Valid() && a.grains == [8]
  }

  /** The block for a request of size bytes: the smallest free block that fits if there is
      one, whole or cut, and otherwise fresh memory. No other block changes. */
  ghost predicate BestFit(s: State, s': State, b: int, size: nat) {
    var n := TotalSize(8, size);
    && (FitsIn(s, 0, n) ==>
          && TookBlock(s.blocks, s'.blocks, 0, 8, b, n, Live)
          && (forall c :: c in s.blocks && s.blocks[c].owner == Owner.Free(0) && s.blocks[c].size >= n ==>
                s.blocks[b].size <= s.blocks[c].size)
          && s'.heapSize == s.heapSize)
    && (!FitsIn(s, 0, n) ==>
          b !in s.blocks && s'.blocks == s.blocks[b := Block(n, Live)] && s'.heapSize == s.heapSize + n)
  }

  lemma AcquireIsBestFit(s: State, size: nat, brk: int, t: nat)
    requires Inv(s) && |s.heaps| == 1 && s.heaps[0].grain == 8
    requires Fresh(s.regions, brk, TotalSize(8, size))
    ensures Takeable(s, 0, TotalSize(8, size), t)
    ensures var r := Acquire(s, 0, TotalSize(8, size), brk, t);
            && r.block in r.state.blocks && r.state.blocks[r.block].size >= 0
            && BestFit(s, Deliver(r.state, r.block), r.block, size)
  {
    hide Inv, Undisturbed, Geometry, HeapOk, Fresh, Take, Takeable, Acquire, FitsIn;
    hide LeastFit, OwnClassServes, TotalSize, SetTags;
    var n := TotalSize(8, size);
    TotalSizeFacts(8, size);
    AcquireKeeps(s, 0, n, brk, t);
    HeapFacts(s, 0);
    var b := Acquire(s, 0, n, brk, t).block;
    if FitsIn(s, 0, n) {
      LeastFits(s.blocks, 0, 8, n, b);
      LeastIsSmallest(s.blocks, 0, n, b);
    }
  }

  /** malloc(size) returns room for size bytes in a block that was not live, picked by best
      fit, and leaves every live block alone. */
  method Malloc(a: Heaps, size: nat, brk: int) returns (ptr: int)
    requires IsHeap(a) && size > 0 && Fresh(a.st.regions, brk, TotalSize(8, size))
    modifies a
    ensures IsHeap(a)
    ensures Allocated(old(a.st), a.st, ptr, size) && PayloadsKept(old(a.st), a.st, {})
    ensures BestFit(old(a.st), a.st, ptr - TAG, size)
  {
    ptr := AllocateOne(a, size, brk);
  }

  /** ptr is a new live object of at least size bytes, the only one. */
  ghost predicate Allocated(s: State, s': State, ptr: int, size: nat) {
    && LiveAt(s', ptr - TAG) && !LiveAt(s, ptr - TAG) && ptr > TAG
    && s'.blocks[ptr - TAG].size - 2 * TAG >= size
    && forall c :: LiveAt(s', c) && c != ptr - TAG ==> LiveAt(s, c)
  }

  lemma DeliveredIsAllocated(s: State, size: nat, brk: int, t: nat)
    requires Inv(s) && |s.heaps| == 1 && s.heaps[0].grain == 8
    requires Fresh(s.regions, brk, TotalSize(8, size))
    ensures Takeable(s, 0, TotalSize(8, size), t)
    ensures var r := Acquire(s, 0, TotalSize(8, size), brk, t);
            && r.block in r.state.blocks && r.state.blocks[r.block].size >= 0
            && Allocated(s, Deliver(r.state, r.block), r.block + TAG, size)
            && PayloadsKept(s, Deliver(r.state, r.block), {})
  {
    hide Inv, Takeable, Take, Fresh, SetTags;
    var n := TotalSize(8, size);
    TotalSizeFacts(8, size);
    AcquireKeeps(s, 0, n, brk, t);
    var r := Acquire(s, 0, n, brk, t);
    GeometryOf(r.state, r.block);
    DeliverKeeps(r.state, r.block, t);
    UndisturbedTrans(s, r.state, Deliver(r.state, r.block), r.block, r.block);
  }

  method AllocateOne(a: Heaps, size: nat, brk: int) returns (ptr: int)
    requires IsHeap(a) && Fresh(a.st.regions, brk, TotalSize(8, size))
    modifies a
    ensures IsHeap(a)
    ensures Allocated(old(a.st), a.st, ptr, size) && PayloadsKept(old(a.st), a.st, {})
    ensures BestFit(old(a.st), a.st, ptr - TAG, size)
  {
    hide Inv, Takeable, Take, Allocated, PayloadsKept, FitsIn, SetTags, Fresh;
    a.RowsAt(0);
    DeliveredIsAllocated(a.st, size, brk, 0);
    AcquireIsBestFit(a.st, size, brk, 0);
    ptr := a.AllocateObject(0, size, brk, 0);
  }

  /** free(NULL) does nothing; otherwise exactly the one block stops being live. */
  method Free(a: Heaps, ptr: int)
    requires IsHeap(a) && (ptr == 0 || LiveAt(a.st, ptr - TAG))
    modifies a
    ensures IsHeap(a)
    ensures ptr == 0 ==> a.st == old(a.st)
    ensures ptr != 0 ==> Freed(old(a.st), a.st, ptr - TAG) && PayloadsKept(old(a.st), a.st, {ptr - TAG})
  {
    hide Inv, Undisturbed, Linkable, Tagged;
    if ptr == 0 {
      return;
    }
    a.RowsAt(0);
    ReleasedIsFreed(a.st, ptr - TAG, 0);
    a.FreeObject(0, ptr, 0);
  }

  ghost predicate Freed(s: State, s': State, b: int)
    requires b in s.blocks
  {
    s'.blocks == s.blocks[b := s.blocks[b].(owner := Owner.Free(0))] && s'.heapSize == s.heapSize
  }

  lemma ReleasedIsFreed(s: State, b: int, t: nat)
    requires Inv(s) && |s.heaps| == 1 && LiveAt(s, b)
    ensures Linkable(Flagged(s, b, t), 0, b)
    ensures var s' := Link(Flagged(s, b, t), 0, b);
            Freed(s, s', b) && PayloadsKept(s, s', {b})
  {
    hide Inv, Linkable, Tagged;
    LiveTags(s, b);
    ReleaseKeeps(s, 0, b, t);
  }

  lemma RequestedAgain(s: State, b: int)
    requires Inv(s) && b in s.blocks
    ensures var size := s.blocks[b].size; size >= 2 * TAG && TotalSize(8, size - 2 * TAG) == size
  {
    GeometryOf(s, b);
  }

  lemma FreedIsTakenAgain(s: State, b: int, brk: int, t: nat)
    requires Inv(s) && |s.heaps| == 1 && s.heaps[0].grain == 8 && LiveAt(s, b)
    ensures Linkable(Flagged(s, b, t), 0, b) && Takeable(Link(Flagged(s, b, t), 0, b), 0, s.blocks[b].size, t)
    ensures var r := Acquire(Link(Flagged(s, b, t), 0, b), 0, s.blocks[b].size, brk, t);
            && r.block == b && b in r.state.blocks && r.state.blocks[b].size >= 0
            && Deliver(r.state, b).blocks == s.blocks && Deliver(r.state, b).heaps == s.heaps
  {
    hide Inv, Undisturbed, Tagged, Take, Takeable, Link, Linkable, SetTags;
    GeometryOf(s, b);
    LiveTags(s, b);
    FlaggedKeeps(s, b, t);
    TakeUndoesLink(Flagged(s, b, t), 0, b, t);
  }

  /** Freeing an object and asking for one of its size gives the same object, and blocks and lists
      are as before. */
  method MallocAgain(a: Heaps, ptr: int, brk: int) returns (again: int)
    requires IsHeap(a) && LiveAt(a.st, ptr - TAG) && Fresh(a.st.regions, brk, a.st.blocks[ptr - TAG].size)
    modifies a
    ensures IsHeap(a) && again == ptr
    ensures a.st.blocks == old(a.st.blocks) && a.st.heaps == old(a.st.heaps)
  {
    hide Inv, Takeable, Take, SetTags, Fresh, Link, Flagged, Linkable, Undisturbed, Tagged, TotalSize;
    a.RowsAt(0);
    RequestedAgain(a.st, ptr - TAG);
    FreedIsTakenAgain(a.st, ptr - TAG, brk, 0);
    var size := a.ObjectSize(ptr);
    LiveTags(a.st, ptr - TAG);
    ReleaseKeeps(a.st, 0, ptr - TAG, 0);
    a.FreeObject(0, ptr, 0);
    again := a.AllocateObject(0, size, brk, 0);
  }

  /** realloc moves the object: the new block is the best fit while the old one is still in use, the
      first min(old size, size) bytes of the new payload are the old ones, the old block is free
      afterwards, and all other objects are left alone. In between the blocks are those of mid. */
  method Realloc(a: Heaps, ptr: int, size: nat, brk: int) returns (newptr: int, ghost mid: State)
    requires IsHeap(a) && (ptr == 0 || LiveAt(a.st, ptr - TAG))
    requires Fresh(a.st.regions, brk, TotalSize(8, size))
    modifies a
    ensures IsHeap(a)
    ensures BestFit(old(a.st), mid, newptr - TAG, size)
    ensures ptr == 0 ==> a.st == mid
    ensures ptr != 0 ==> ptr - TAG in mid.blocks && Freed(mid, a.st, ptr - TAG)
    ensures LiveAt(a.st, newptr - TAG) && !LiveAt(old(a.st), newptr - TAG)
    ensures a.st.blocks[newptr - TAG].size - 2 * TAG >= size
    ensures PayloadsKept(old(a.st), a.st, if ptr == 0 then {} else {ptr - TAG})
    ensures forall c :: LiveAt(a.st, c) <==>
              c == newptr - TAG || (LiveAt(old(a.st), c) && (ptr == 0 || c != ptr - TAG))
    ensures ptr != 0 ==>
              var objectSize := old(a.st).blocks[ptr - TAG].size - 2 * TAG;
              BytesAgree(old(a.mem), ptr, a.mem, newptr, if objectSize > size then size else objectSize)
  {
    hide Inv, Undisturbed, Linkable, Tagged, Copy, Same, BytesAgree, Link, Flagged, BestFit;
    ghost var s0 := a.st;
    newptr := AllocateOne(a, size, brk);
    ghost var s1 := a.st;
    mid := s1;
    if ptr != 0 {
      var sizeToCopy := a.ObjectSize(ptr);
      if sizeToCopy > size {
        sizeToCopy := size;
      }
      CopyInto(s1, newptr, ptr, sizeToCopy);
      a.mem := Copy(a.mem, newptr, ptr, sizeToCopy);
      a.st := a.st.(mem := a.mem);
      ghost var s2 := a.st;
      ReleasedIsFreed(s2, ptr - TAG, 0);
      a.FreeObject(0, ptr, 0);
      ReallocBytes(s0, s1, s2, a.st, newptr, ptr, sizeToCopy);
      KeptTrans(s0, s1, s2, a.st, newptr - TAG, ptr - TAG);
    }
  }

  /** Copying n bytes between two live objects that both have room for them. */
  lemma CopyInto(s: State, dst: int, src: int, n: nat)
    requires Inv(s) && LiveAt(s, dst - TAG) && LiveAt(s, src - TAG) && dst != src
    requires n <= s.blocks[dst - TAG].size - 2 * TAG && n <= s.blocks[src - TAG].size - 2 * TAG
    ensures var s' := s.(mem := Copy(s.mem, dst, src, n));
            Inv(s') && PayloadsKept(s, s', {dst - TAG})
    ensures BytesAgree(s.mem, src, Copy(s.mem, dst, src, n), dst, n)
  {
    hide Inv, Copy, BytesAgree, Same, OnlyIn;
    GeometryOf(s, dst - TAG);
    GeometryOf(s, src - TAG);
    CopyFrame(s.mem, dst, src, n, s.blocks[dst - TAG].size - 2 * TAG);
    LiveWrites(s, Copy(s.mem, dst, src, n), dst - TAG);
    OthersKept(s, Copy(s.mem, dst, src, n), dst - TAG);
    CopyCopies(s.mem, dst, src, n);
  }

  lemma OthersKept(s: State, m: Mem, b: int)
    requires forall c :: c in s.blocks && c != b ==> Same(s.mem, m, c, c + s.blocks[c].size)
    ensures PayloadsKept(s, s.(mem := m), {b})
  {
  }

  /** The old payload survives the allocation, and the new one the release. */
  lemma ReallocBytes(s0: State, s1: State, s2: State, s3: State, dst: int, src: int, n: nat)
    requires Inv(s0) && Inv(s1) && LiveAt(s0, src - TAG) && LiveAt(s2, dst - TAG) && dst != src && s2.blocks == s1.blocks
    requires n <= s2.blocks[dst - TAG].size - 2 * TAG && n <= s0.blocks[src - TAG].size - 2 * TAG
    requires PayloadsKept(s0, s1, {}) && PayloadsKept(s2, s3, {src - TAG})
    requires BytesAgree(s1.mem, src, s2.mem, dst, n)
    ensures BytesAgree(s0.mem, src, s3.mem, dst, n)
  {
    hide Inv, Same, ByteFrom;
    GeometryOf(s0, src - TAG);
    GeometryOf(s1, dst - TAG);
    SameBytes(s0.mem, s1.mem, src, s0.blocks[src - TAG].size - 2 * TAG, n);
    SameBytes(s2.mem, s3.mem, dst, s2.blocks[dst - TAG].size - 2 * TAG, n);
  }

  lemma KeptTrans(s0: State, s1: State, s2: State, s3: State, b: int, c: int)
    requires PayloadsKept(s0, s1, {}) && PayloadsKept(s1, s2, {b}) && PayloadsKept(s2, s3, {c})
    requires !LiveAt(s0, b)
    ensures PayloadsKept(s0, s3, {c})
  {
  }
}

/** Objects as the program sees them: allocation, release and resizing as functions on the
    allocator's state. */
module Objects {
  import opened Words
  import opened Bytes
  import opened Arena
  import opened Fit
  import Sets

  /** Request plus header and footer, rounded up to the grain, at least a minimum block. */
  function TotalSize(grain: int, size: nat): (n: int)
    requires grain > 0
  {
    var n := (size + 2 * TAG + grain - 1) / grain * grain;
    if n < MIN_BLOCK then MIN_BLOCK else n
  }

  lemma TotalSizeFacts(grain: int, size: nat)
    requires grain == 8 || grain == 4096
    ensures var n := TotalSize(grain, size);
            && n >= MIN_BLOCK && n % 8 == 0 && n % grain == 0
            && size + 2 * TAG <= n && (n == MIN_BLOCK || n < size + 2 * TAG + grain)
  {
    hide TotalSize;
    EightByteSize(size);
    PageSize(size);
  }

  lemma EightByteSize(size: nat)
    ensures var n := TotalSize(8, size);
            n >= MIN_BLOCK && n % 8 == 0 && size + 2 * TAG <= n && (n == MIN_BLOCK || n < size + 2 * TAG + 8)
  {
  }

  lemma PageSize(size: nat)
    ensures var n := TotalSize(4096, size);
            n >= MIN_BLOCK && n % 8 == 0 && n % 4096 == 0 && size + 2 * TAG <= n < size + 2 * TAG + 4096
  {
  }

  // ---------- Getting a block ----------

  datatype Acquired = Acquired(block: int, state: State)

  /** The best fit of heap h, or else n fresh bytes that sbrk placed at brk. */
  function Acquire(s: State, h: nat, n: int, brk: int, t: nat): (r: Acquired)
    requires Takeable(s, h, n, t)
  {
    match Take(s, h, n, t)
    case Got(b, s') => Acquired(b, s')
    case NoFit => Acquired(brk, Grow(s, brk, n, t))
  }

  ghost predicate FitsIn(s: State, h: nat, n: int) {
    exists c :: c in s.blocks && s.blocks[c].owner == Free(h) && s.blocks[c].size >= n
  }

  lemma AcquireKeeps(s: State, h: nat, n: int, brk: int, t: nat)
    requires Inv(s) && h < |s.heaps|
    requires n >= MIN_BLOCK && n % 8 == 0 && (s.heaps[h].grain > 0 ==> n % s.heaps[h].grain == 0)
    requires Fresh(s.regions, brk, n)
    ensures Takeable(s, h, n, t)
    ensures var r := Acquire(s, h, n, brk, t);
            var b, s' := r.block, r.state;
            && Inv(s') && Undisturbed(s, s', b) && |s'.heaps| == |s.heaps|
            && b in s'.blocks && s'.blocks[b].owner == Held(t) && s'.blocks[b].size >= n
            && s'.heapSize == s.heapSize + (if FitsIn(s, h, n) then 0 else n)
            && (if FitsIn(s, h, n)
                then TookBlock(s.blocks, s'.blocks, h, s.heaps[h].grain, b, n, Held(t))
                else b == brk && b !in s.blocks && s'.blocks == s.blocks[b := Block(n, Held(t))])
  {
    hide Inv, Undisturbed, Takeable, Take, LeastFit, OwnClassServes, TookBlock;
    TakeKeeps(s, h, n, t);
    if Take(s, h, n, t).Got? {
      TookFacts(s.blocks, Take(s, h, n, t).state.blocks, h, s.heaps[h].grain, Take(s, h, n, t).block, n, Held(t));
    }
    GrowKeeps(s, brk, n, t);
    assert Take(s, h, n, t).NoFit? <==> !FitsIn(s, h, n);
  }

  // ---------- Handing it out and taking it back ----------

  lemma OwnerUndisturbs(s: State, b: int, o: Owner)
    requires b in s.blocks
    ensures Undisturbed(s, SetOwner(s, b, o), b)
  {
  }

  /** Tags block b as allocated and hands it to the program. */
  function Deliver(s: State, b: int): (s': State)
    requires b in s.blocks && s.blocks[b].size >= 0
  {
    SetOwner(s.(mem := SetTags(s.mem, b, s.blocks[b].size, OBJ_ALLOCATED)), b, Live)
  }

  lemma DeliverKeeps(s: State, b: int, t: nat)
    requires Inv(s) && b in s.blocks && s.blocks[b].owner == Held(t)
    ensures s.blocks[b].size >= MIN_BLOCK
    ensures Inv(Deliver(s, b)) && Undisturbed(s, Deliver(s, b), b)
  {
    hide Inv, Tagged, OnlyIn, SetTags;
    GeometryOf(s, b);
    var m := SetTags(s.mem, b, s.blocks[b].size, OBJ_ALLOCATED);
    SetTagsTags(s.mem, b, s.blocks[b].size, OBJ_ALLOCATED);
    HeldWrites(s, m, b, t);
    HandOver(s.(mem := m), b, Live);
  }

  /** free: flags block b and puts it on the lists of heap h. */
  function Flagged(s: State, b: int, t: nat): (s': State)
    requires b in s.blocks
  {
    var size := s.blocks[b].size;
    SetOwner(s.(mem := s.mem[b := OBJ_FREE][b + size - 16 := OBJ_FREE]), b, Held(t))
  }

  lemma FlaggedKeeps(s: State, b: int, t: nat)
    requires Inv(s) && b in s.blocks && (s.blocks[b].owner.Live? || s.blocks[b].owner == Held(t))
    requires Tagged(s.mem, b, s.blocks[b].size, OBJ_ALLOCATED)
    ensures var s' := Flagged(s, b, t);
            && Inv(s') && Undisturbed(s, s', b)
            && Tagged(s'.mem, b, s.blocks[b].size, OBJ_FREE)
  {
    hide Inv, Undisturbed;
    GeometryOf(s, b);
    HandOver(s, b, Held(t));
    HeldWrites(SetOwner(s, b, Held(t)), Flagged(s, b, t).mem, b, t);
    OwnerUndisturbs(s, b, Held(t));
    UndisturbedTrans(s, SetOwner(s, b, Held(t)), Flagged(s, b, t), b, b);
  }

  lemma ReleaseKeeps(s: State, h: nat, b: int, t: nat)
    requires Inv(s) && h < |s.heaps| && b in s.blocks && (s.blocks[b].owner.Live? || s.blocks[b].owner == Held(t))
    requires Tagged(s.mem, b, s.blocks[b].size, OBJ_ALLOCATED)
    ensures Linkable(Flagged(s, b, t), h, b)
    ensures var s' := Link(Flagged(s, b, t), h, b);
            && Inv(s') && Undisturbed(s, s', b) && |s'.heaps| == |s.heaps|
            && s'.blocks == s.blocks[b := s.blocks[b].(owner := Free(h))]
            && s'.heapSize == s.heapSize && s'.regions == s.regions
  {
    hide Inv, Undisturbed, Tagged, LinkStores;
    FlaggedKeeps(s, b, t);
    var s1 := Flagged(s, b, t);
    LinkKeeps(s1, h, b, t);
    UndisturbedTrans(s, s1, Link(s1, h, b), b, b);
  }

  // ---------- What the program sees ----------

  predicate LiveAt(s: State, b: int) {
    b in s.blocks && s.blocks[b].owner.Live?
  }

  lemma LiveTags(s: State, b: int)
    requires Inv(s) && LiveAt(s, b)
    ensures Tagged(s.mem, b, s.blocks[b].size, OBJ_ALLOCATED) && Rd(s.mem, b + 8) == s.blocks[b].size
  {
  }

  /** Payloads of live blocks never share an address. */
  lemma LivePayloadsDisjoint(s: State, b: int, c: int, a: int)
    requires Inv(s) && LiveAt(s, b) && LiveAt(s, c)
    requires b + TAG <= a < b + s.blocks[b].size - TAG && c + TAG <= a < c + s.blocks[c].size - TAG
    ensures b == c
  {
  }

  // ---------- Conservation ----------

  function FreeOf(bs: Blocks, h: nat): (r: set<int>) {
    set b | b in bs && bs[b].owner == Free(h)
  }

  function NotFree(bs: Blocks): (r: set<int>) {
    set b | b in bs && !bs[b].owner.Free?
  }

  lemma {:induction false} SizeSumUnion(bs: Blocks, ks: set<int>, js: set<int>)
    requires ks <= bs.Keys && js <= bs.Keys && ks !! js
    ensures SizeSum(bs, ks + js) == SizeSum(bs, ks) + SizeSum(bs, js)
    decreases js
  {
    if js == {} {
      assert ks + js == ks;
    } else {
      Sets.Inhabited(js);
      var b :| b in js;
      SizeSumRemove(bs, js, b);
      SizeSumRemove(bs, ks + js, b);
      assert ks + js - {b} == ks + (js - {b});
      SizeSumUnion(bs, ks, js - {b});
    }
  }

  lemma {:induction false} SizeSumPositive(bs: Blocks, ks: set<int>)
    requires ks <= bs.Keys && Geometry(bs)
    ensures SizeSum(bs, ks) >= 0 && (SizeSum(bs, ks) == 0 <==> ks == {})
    decreases ks
  {
    if ks != {} {
      Sets.Inhabited(ks);
      var b :| b in ks;
      SizeSumRemove(bs, ks, b);
      SizeSumPositive(bs, ks - {b});
    }
  }

  /** Free bytes of heaps 0 to n-1. */
  ghost function FreeBytes(bs: Blocks, n: nat): (r: int) {
    if n == 0 then 0 else FreeBytes(bs, n - 1) + SizeSum(bs, FreeOf(bs, n - 1))
  }

  lemma {:induction false} FreeBytesIsSum(bs: Blocks, n: nat)
    ensures FreeBytes(bs, n) == SizeSum(bs, set b | b in bs && bs[b].owner.Free? && bs[b].owner.heap < n)
  {
    var ks := set b | b in bs && bs[b].owner.Free? && bs[b].owner.heap < n;
    if n == 0 {
      assert ks == {};
    } else {
      FreeBytesIsSum(bs, n - 1);
      var js := set b | b in bs && bs[b].owner.Free? && bs[b].owner.heap < n - 1;
      assert ks == js + FreeOf(bs, n - 1);
      SizeSumUnion(bs, js, FreeOf(bs, n - 1));
    }
  }

  /** _heapSize is what is in use plus what is on the lists of all heaps, so the two agree
      exactly when nothing is in use. */
  lemma Conservation(s: State)
    requires Inv(s)
    ensures s.heapSize == SizeSum(s.blocks, NotFree(s.blocks)) + FreeBytes(s.blocks, |s.heaps|)
    ensures s.heapSize == FreeBytes(s.blocks, |s.heaps|) <==> NotFree(s.blocks) == {}
  {
    var bs := s.blocks;
    FreeBytesIsSum(bs, |s.heaps|);
    var ks := set b | b in bs && bs[b].owner.Free? && bs[b].owner.heap < |s.heaps|;
    forall b | b in bs ensures b in NotFree(bs) + ks {
    }
    assert bs.Keys == NotFree(bs) + ks;
    SizeSumUnion(bs, NotFree(bs), ks);
    SizeSumPositive(bs, NotFree(bs));
  }
}

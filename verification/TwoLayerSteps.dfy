/** Every step of every thread keeps the invariant of the two-layer allocator. */
module TwoLayerSteps {
  import opened Words
  import opened Bytes
  import opened Arena
  import opened Fit
  import opened Objects
  import opened TwoLayer

  /** A step of thread t touches neither the position nor the blocks of another thread. */
  ghost predicate Local(y: Sys, y': Sys, t: nat) {
    && Shaped(y) && Shaped(y') && y'.home == y.home && |y'.pcs| == |y.pcs|
    && (forall u :: 0 <= u < |y.pcs| && u != t ==> y'.pcs[u] == y.pcs[u])
    && (forall c :: 0 <= c < CACHES && y.inited[c] ==> y'.inited[c])
    && (forall u: nat :: u != t ==> HeldKept(y.s, y'.s, u))
    && NoGifts(y.s.blocks, y'.s.blocks, t)
  }

  /** Nothing comes into the hands of a thread other than t. */
  ghost predicate NoGifts(bs: Blocks, bs': Blocks, t: nat) {
    forall b :: b in bs' && bs'[b].owner.Held? && bs'[b].owner != Held(t) ==> b in bs && bs[b].owner == bs'[b].owner
  }

  ghost predicate MineOk(y: Sys, t: nat)
    requires t < |y.pcs|
  {
    forall b :: b in y.s.blocks && y.s.blocks[b].owner == Held(t) ==> b in Holding(y.pcs[t])
  }

  lemma Assemble(y: Sys, y': Sys, t: nat)
    requires SysInv(y) && t < |y.pcs| && Local(y, y', t)
    requires Inv(y'.s) && LocksOk(y') && InitOk(y')
    requires PcOk(y'.s, y'.inited, y'.home[t], t, y'.pcs[t]) && MineOk(y', t)
    ensures SysInv(y')
  {
    hide Inv, HeldKept, PcOk, Holds, Empty;
    forall u | 0 <= u < |y.pcs| ensures PcOk(y'.s, y'.inited, y'.home[u], u, y'.pcs[u]) {
      if u != t {
        PcFrame(y.s, y'.s, y.inited, y'.inited, y.home[u], u, y.pcs[u]);
      }
    }
  }

  /** A change that spares all blocks in use but x, which no other thread holds. */
  lemma UndisturbedHeld(s: State, s': State, x: int, t: nat)
    requires Undisturbed(s, s', x)
    requires x in s.blocks && s.blocks[x].owner.Held? ==> s.blocks[x].owner == Held(t)
    ensures forall u: nat :: u != t ==> HeldKept(s, s', u)
    ensures !LiveAt(s, x) ==> LivesKept(s, s')
  {
  }

  /** The blocks in use by the program keep their size and every word. */
  ghost predicate LivesKept(s: State, s': State) {
    forall c :: LiveAt(s, c) ==>
      LiveAt(s', c) && s'.blocks[c].size == s.blocks[c].size && Same(s.mem, s'.mem, c, c + s.blocks[c].size)
  }

  lemma JobFrame(s: State, s': State, x: int, t: nat, job: Job)
    requires Inv(s) && JobOk(s, t, job) && Undisturbed(s, s', x) && x != job.from
    ensures JobOk(s', t, job)
  {
  }

  // ---------- Locks ----------

  lemma LockKept(y: Sys, y': Sys, t: nat)
    requires Shaped(y) && Shaped(y') && LocksOk(y) && t < |y.pcs| && y'.lock == y.lock && y'.home == y.home
    requires |y'.pcs| == |y.pcs| && forall u :: 0 <= u < |y.pcs| && u != t ==> y'.pcs[u] == y.pcs[u]
    requires forall h :: Holds(y'.pcs[t], y.home[t], h) <==> Holds(y.pcs[t], y.home[t], h)
    ensures LocksOk(y')
  {
  }

  lemma LockTaken(y: Sys, y': Sys, t: nat, g: nat)
    requires Shaped(y) && Shaped(y') && LocksOk(y) && t < |y.pcs| && g < HEAPS && y.lock[g] == NOBODY
    requires y'.lock == y.lock[g := t] && y'.home == y.home
    requires |y'.pcs| == |y.pcs| && forall u :: 0 <= u < |y.pcs| && u != t ==> y'.pcs[u] == y.pcs[u]
    requires forall h :: Holds(y'.pcs[t], y.home[t], h) <==> Holds(y.pcs[t], y.home[t], h) || h == g
    ensures LocksOk(y')
  {
  }

  lemma LockDropped(y: Sys, y': Sys, t: nat, g: nat)
    requires Shaped(y) && Shaped(y') && LocksOk(y) && t < |y.pcs| && g < HEAPS && Holds(y.pcs[t], y.home[t], g)
    requires y'.lock == y.lock[g := NOBODY] && y'.home == y.home
    requires |y'.pcs| == |y.pcs| && forall u :: 0 <= u < |y.pcs| && u != t ==> y'.pcs[u] == y.pcs[u]
    requires forall h :: Holds(y'.pcs[t], y.home[t], h) <==> Holds(y.pcs[t], y.home[t], h) && h != g
    ensures LocksOk(y')
  {
    hide Holds;
    forall u, h | 0 <= u < |y.pcs| && 0 <= h < HEAPS
      ensures Holds(y'.pcs[u], y'.home[u], h) <==> y'.lock[h] == u
    {
      assert Holds(y.pcs[u], y.home[u], h) <==> y.lock[h] == u;
      assert Holds(y.pcs[u], y.home[u], g) <==> y.lock[g] == u;
    }
  }

  // ---------- One heap at a time ----------

  /** Heap h may have changed its lists; nothing else about the heaps did. */
  ghost predicate OnlyHeap(hs: seq<Heap>, hs': seq<Heap>, h: nat) {
    && |hs'| == |hs| && h < |hs|
    && hs'[h].grain == hs[h].grain
    && forall g :: 0 <= g < |hs| && g != h ==> hs'[g] == hs[g]
  }

  lemma TakeTouches(s: State, h: nat, n: int, t: nat)
    requires Takeable(s, h, n, t)
    ensures Take(s, h, n, t).Got? ==> OnlyHeap(s.heaps, Take(s, h, n, t).state.heaps, h)
  {
  }

  lemma LinkTouches(s: State, h: nat, b: int)
    requires Linkable(s, h, b)
    ensures OnlyHeap(s.heaps, Link(s, h, b).heaps, h)
  {
  }

  lemma InitFrame(y: Sys, y': Sys, h: nat)
    requires Shaped(y) && InitOk(y) && OnlyHeap(y.s.heaps, y'.s.heaps, h)
    requires y'.inited == y.inited && |y'.lock| == |y.lock| && y'.home == y.home && |y'.pcs| == |y.pcs|
    requires h < CACHES ==> y.inited[h]
    ensures Shaped(y') && InitOk(y')
  {
  }

  // ---------- Steps that leave memory and blocks alone ----------

  /** Only thread t's position and the locks change. */
  lemma Moves(y: Sys, y': Sys, t: nat)
    requires SysInv(y) && t < |y.pcs|
    requires y'.s == y.s && y'.inited == y.inited && y'.home == y.home && |y'.lock| == |y.lock|
    requires |y'.pcs| == |y.pcs| && forall u :: 0 <= u < |y.pcs| && u != t ==> y'.pcs[u] == y.pcs[u]
    requires LocksOk(y')
    requires PcOk(y.s, y.inited, y.home[t], t, y'.pcs[t]) && Holding(y.pcs[t]) <= Holding(y'.pcs[t])
    ensures SysInv(y')
  {
  }

  lemma LockCacheKeeps(y: Sys, t: nat)
    requires SysInv(y) && t < |y.pcs| && y.pcs[t].WantCache? && y.lock[y.home[t]] == NOBODY
    ensures SysInv(SetPc(SetLock(y, y.home[t], t), t, InCache(y.pcs[t].job)))
  {
    hide Inv, JobOk;
    var y' := SetPc(SetLock(y, y.home[t], t), t, InCache(y.pcs[t].job));
    assert PcOk(y.s, y.inited, y.home[t], t, y.pcs[t]);
    LockTaken(y, y', t, y.home[t]);
    Moves(y, y', t);
  }

  lemma LockCentralKeeps(y: Sys, t: nat)
    requires SysInv(y) && t < |y.pcs| && y.pcs[t].WantCentral? && y.lock[CENTRAL] == NOBODY
    ensures SysInv(SetPc(SetLock(y, CENTRAL, t), t, InCentral(y.pcs[t].job, y.pcs[t].cached)))
  {
    hide Inv, JobOk;
    var y' := SetPc(SetLock(y, CENTRAL, t), t, InCentral(y.pcs[t].job, y.pcs[t].cached));
    assert PcOk(y.s, y.inited, y.home[t], t, y.pcs[t]);
    LockTaken(y, y', t, CENTRAL);
    Moves(y, y', t);
  }

  lemma LockFreeKeeps(y: Sys, t: nat)
    requires SysInv(y) && t < |y.pcs| && y.pcs[t].WantFree? && y.pcs[t].heap < HEAPS && y.lock[y.pcs[t].heap] == NOBODY
    ensures SysInv(SetPc(SetLock(y, y.pcs[t].heap, t), t, InFree(y.pcs[t].heap, y.pcs[t].block)))
  {
    hide Inv, HeldObject;
    var y' := SetPc(SetLock(y, y.pcs[t].heap, t), t, InFree(y.pcs[t].heap, y.pcs[t].block));
    assert PcOk(y.s, y.inited, y.home[t], t, y.pcs[t]);
    LockTaken(y, y', t, y.pcs[t].heap);
    Moves(y, y', t);
  }

  lemma MissKeeps(y: Sys, t: nat)
    requires SysInv(y) && t < |y.pcs| && y.pcs[t].InCache?
    ensures SysInv(SetPc(y, t, WantCentral(y.pcs[t].job, true)))
  {
    hide Inv, JobOk;
    var y' := SetPc(y, t, WantCentral(y.pcs[t].job, true));
    assert PcOk(y.s, y.inited, y.home[t], t, y.pcs[t]);
    LockKept(y, y', t);
    Moves(y, y', t);
  }

  // ---------- Getting a block ----------

  /** Thread t comes out of a lookup with block b and nothing else new in its hands. */
  ghost predicate GainedBlock(bs: Blocks, bs': Blocks, b: int, n: int, t: nat) {
    && (b in bs ==> bs[b].owner.Free?)
    && b in bs' && bs'[b].owner == Held(t) && bs'[b].size >= n
    && (forall c :: c in bs' && c != b && bs'[c].owner.Held? ==> c in bs && bs[c] == bs'[c])
  }

  lemma GotFromTake(bs: Blocks, bs': Blocks, h: nat, g: int, b: int, n: int, t: nat)
    requires Geometry(bs) && n >= MIN_BLOCK && TookBlock(bs, bs', h, g, b, n, Held(t))
    ensures GainedBlock(bs, bs', b, n, t)
  {
    hide OwnClassServes, LeastFit;
    TookFacts(bs, bs', h, g, b, n, Held(t));
  }

  /** The change of hands when thread t leaves the lock of heap h with block b. */
  lemma GotKeeps(y: Sys, y': Sys, t: nat, h: nat, b: int, n: int, job: Job)
    requires SysInv(y) && t < |y.pcs| && h < HEAPS && (h < CACHES ==> y.inited[h])
    requires Inv(y'.s) && Undisturbed(y.s, y'.s, b) && OnlyHeap(y.s.heaps, y'.s.heaps, h)
    requires GainedBlock(y.s.blocks, y'.s.blocks, b, n, t)
    requires y'.inited == y.inited && y'.home == y.home && y'.lock == y.lock[h := NOBODY]
    requires |y'.pcs| == |y.pcs| && forall u :: 0 <= u < |y.pcs| && u != t ==> y'.pcs[u] == y.pcs[u]
    requires JobOk(y.s, t, job) && Holding(y.pcs[t]) == {job.from}
    requires n >= job.size + 2 * TAG && n >= TotalSize(8, job.size)
    requires Holds(y.pcs[t], y.home[t], h)
    requires var total := y'.s.blocks[b].size;
             || (y'.pcs[t] == TagCache(job, b, total, 0) && h == y.home[t] && y.pcs[t].InCache?)
             || (y'.pcs[t].TagCentral? && y.pcs[t].InCentral? && y'.pcs[t] == TagCentral(job, y.pcs[t].cached, b, total, 0)
                 && h == CENTRAL)
    ensures SysInv(y')
    ensures LivesKept(y.s, y'.s)
  {
    hide Inv, Undisturbed, JobOk, HeldKept, Empty;
    InitFrame(y, y', h);
    FromIsHeld(y.s, t, job);
    GeometryOf(y'.s, b);
    LockDropped(y, y', t, h);
    JobFrame(y.s, y'.s, b, t, job);
    UndisturbedHeld(y.s, y'.s, b, t);
    Assemble(y, y', t);
  }

  lemma FromIsHeld(s: State, t: nat, job: Job)
    requires Inv(s) && JobOk(s, t, job)
    ensures job.from != 0 ==> job.from in s.blocks && s.blocks[job.from].owner == Held(t)
    ensures forall b :: b in s.blocks ==> b > 0
    ensures job.size > 0
  {
  }

  lemma ReadyToTake(s: State, h: nat, n: int, t: nat)
    requires Inv(s) && h < |s.heaps| && n >= MIN_BLOCK && n % 8 == 0 && (s.heaps[h].grain > 0 ==> n % s.heaps[h].grain == 0)
    ensures Ready(s, h, n, t)
  {
    hide Inv, Takeable, Take, Undisturbed, Geometry;
    TakeKeeps(s, h, n, t);
    HeapFacts(s, h);
    var r := Take(s, h, n, t);
    if r.Got? {
      GotFromTake(s.blocks, r.state.blocks, h, s.heaps[h].grain, r.block, n, t);
    }
  }

  lemma HitKeeps(y: Sys, t: nat)
    requires SysInv(y) && t < |y.pcs| && y.pcs[t].InCache?
    ensures Runnable(y, t)
    ensures SysInv(Advance(y, t, 0))
    ensures LivesKept(y.s, Advance(y, t, 0).s)
  {
    hide Inv, Takeable, Take, Undisturbed, JobOk, Empty, Geometry, TookBlock, GainedBlock, OnlyHeap, HeldKept;
    var job, c := y.pcs[t].job, y.home[t];
    var n := TotalSize(8, job.size);
    assert PcOk(y.s, y.inited, c, t, y.pcs[t]);
    TotalSizeFacts(8, job.size);
    TakeKeeps(y.s, c, n, t);
    ReadyToTake(y.s, c, n, t);
    HeapFacts(y.s, c);
    var r := Take(y.s, c, n, t);
    if r.Got? {
      TakeTouches(y.s, c, n, t);
      GotFromTake(y.s.blocks, r.state.blocks, c, y.s.heaps[c].grain, r.block, n, t);
      GotIsHeld(y.s.blocks, r.state.blocks, r.block, n, t);
      GotKeeps(y, Advance(y, t, 0), t, c, r.block, n, job);
    } else {
      MissKeeps(y, t);
    }
  }

  lemma GotIsHeld(bs: Blocks, bs': Blocks, b: int, n: int, t: nat)
    requires GainedBlock(bs, bs', b, n, t)
    ensures b in bs' && bs'[b].size >= n
  {
  }

  /** Central blocks are also large enough for the cache's own rounding. */
  lemma CentralSize(job: Job, cached: bool)
    ensures var n := TotalSize(4096, Need(job, cached));
            n >= job.size + 2 * TAG && n >= TotalSize(8, job.size)
  {
    hide TotalSize;
    TotalSizeFacts(8, job.size);
    TotalSizeFacts(4096, Need(job, cached));
  }

  lemma AcquireTouches(s: State, h: nat, n: int, brk: int, t: nat)
    requires Takeable(s, h, n, t) && h < |s.heaps|
    ensures OnlyHeap(s.heaps, Acquire(s, h, n, brk, t).state.heaps, h)
  {
  }

  lemma CentralKeeps(y: Sys, t: nat, brk: int)
    requires SysInv(y) && t < |y.pcs| && y.pcs[t].InCentral?
    requires Fresh(y.s.regions, brk, TotalSize(4096, Need(y.pcs[t].job, y.pcs[t].cached)))
    ensures Runnable(y, t)
    ensures SysInv(Advance(y, t, brk))
    ensures LivesKept(y.s, Advance(y, t, brk).s)
  {
    hide Inv, Takeable, Take, Undisturbed, JobOk, Empty, Geometry, TookBlock, GainedBlock, OnlyHeap, HeldKept, Fresh;
    var job, cached := y.pcs[t].job, y.pcs[t].cached;
    var n := TotalSize(4096, Need(job, cached));
    assert PcOk(y.s, y.inited, y.home[t], t, y.pcs[t]);
    FromIsHeld(y.s, t, job);
    TotalSizeFacts(4096, Need(job, cached));
    CentralSize(job, cached);
    AcquireKeeps(y.s, CENTRAL, n, brk, t);
    AcquireTouches(y.s, CENTRAL, n, brk, t);
    ReadyToTake(y.s, CENTRAL, n, t);
    HeapFacts(y.s, CENTRAL);
    var r := Acquire(y.s, CENTRAL, n, brk, t);
    GotFromAcquire(y.s, r.state, r.block, n, t);
    GotKeeps(y, Advance(y, t, brk), t, CENTRAL, r.block, n, job);
  }

  lemma GotFromAcquire(s: State, s': State, b: int, n: int, t: nat)
    requires Geometry(s.blocks) && n >= MIN_BLOCK
    requires if FitsIn(s, CENTRAL, n)
             then TookBlock(s.blocks, s'.blocks, CENTRAL, 4096, b, n, Held(t))
             else b !in s.blocks && s'.blocks == s.blocks[b := Block(n, Held(t))]
    ensures GainedBlock(s.blocks, s'.blocks, b, n, t)
  {
    hide TookBlock, FitsIn;
    if FitsIn(s, CENTRAL, n) {
      GotFromTake(s.blocks, s'.blocks, CENTRAL, 4096, b, n, t);
    }
  }

  // ---------- Tags, outside the lock ----------

  lemma TagStoreTags(m: Mem, b: int, size: int, k: nat)
    requires size >= MIN_BLOCK && k < 4 && TagsUpTo(m, b, size, k)
    ensures TagsUpTo(TagStore(m, b, size, k), b, size, k + 1)
    ensures OnlyIn(m, TagStore(m, b, size, k), b, b + size)
  {
  }

  lemma NewIsHeld(s: State, t: nat, job: Job, b: int, total: int, k: int)
    requires Inv(s) && NewOk(s, t, job, b, total, k)
    ensures b in s.blocks && s.blocks[b] == Block(total, Held(t)) && b != job.from && total >= MIN_BLOCK
    ensures total >= job.size + 2 * TAG
    ensures TagsUpTo(s.mem, b, total, k)
    ensures k == 4 ==> Tagged(s.mem, b, total, OBJ_ALLOCATED)
  {
  }

  lemma TagKeeps(y: Sys, t: nat, brk: int)
    requires SysInv(y) && t < |y.pcs|
    requires (y.pcs[t].TagCache? || y.pcs[t].TagCentral?) && y.pcs[t].k < 4
    ensures Runnable(y, t) && SysInv(Advance(y, t, brk))
    ensures LivesKept(y.s, Advance(y, t, brk).s)
  {
    hide Inv, JobOk, OnlyIn, TagsUpTo, Tagged, Empty, HeldKept, Undisturbed, TagStore;
    var job, b, total, k := y.pcs[t].job, y.pcs[t].block, y.pcs[t].total, y.pcs[t].k;
    assert PcOk(y.s, y.inited, y.home[t], t, y.pcs[t]);
    NewIsHeld(y.s, t, job, b, total, k);
    TagStoreTags(y.s.mem, b, total, k);
    var y' := Advance(y, t, brk);
    HeldWrites(y.s, y'.s.mem, b, t);
    LockKept(y, y', t);
    JobFrame(y.s, y'.s, b, t, job);
    UndisturbedHeld(y.s, y'.s, b, t);
    Assemble(y, y', t);
  }

  /** The cache reads the header that the central heap wrote, unlocks, and tags again. */
  lemma HandDownKeeps(y: Sys, t: nat, brk: int)
    requires SysInv(y) && t < |y.pcs|
    requires y.pcs[t].TagCentral? && y.pcs[t].cached && y.pcs[t].k >= 4
    ensures Runnable(y, t) && SysInv(Advance(y, t, brk))
    ensures LivesKept(y.s, Advance(y, t, brk).s)
  {
    hide Inv, JobOk, Tagged, Empty, HeldKept;
    assert PcOk(y.s, y.inited, y.home[t], t, y.pcs[t]);
    var y' := Advance(y, t, brk);
    LockDropped(y, y', t, y.home[t]);
    Moves(y, y', t);
  }

  /** Block b is complete: malloc returns it, realloc goes on to copy. */
  lemma CompleteKeeps(y: Sys, t: nat, brk: int)
    requires SysInv(y) && t < |y.pcs|
    requires (y.pcs[t].TagCache? || (y.pcs[t].TagCentral? && !y.pcs[t].cached)) && y.pcs[t].k >= 4
    ensures Runnable(y, t) && SysInv(Advance(y, t, brk))
    ensures LivesKept(y.s, Advance(y, t, brk).s)
  {
    hide Inv, JobOk, Tagged, Empty, HeldKept, Undisturbed, TagsUpTo;
    var job, b, total := y.pcs[t].job, y.pcs[t].block, y.pcs[t].total;
    assert PcOk(y.s, y.inited, y.home[t], t, y.pcs[t]);
    NewIsHeld(y.s, t, job, b, total, 4);
    FromIsHeld(y.s, t, job);
    var y' := Advance(y, t, brk);
    LockKept(y, y', t);
    if job.from == 0 {
      HandOver(y.s, b, Live);
      OwnerUndisturbs(y.s, b, Live);
      UndisturbedHeld(y.s, y'.s, b, t);
      Assemble(y, y', t);
    } else {
      Moves(y, y', t);
    }
  }

  // ---------- realloc's copy, and free ----------

  /** What copying leaves: the new block live, with the old payload's first bytes. */
  lemma CopyKeeps(y: Sys, t: nat, brk: int)
    requires SysInv(y) && t < |y.pcs| && y.pcs[t].Copying?
    ensures Runnable(y, t) && SysInv(Advance(y, t, brk))
    ensures var job, b := y.pcs[t].job, y.pcs[t].block;
            var objectSize := y.s.blocks[job.from].size - 2 * TAG;
            var n := if objectSize > job.size then job.size else objectSize;
            var s' := Advance(y, t, brk).s;
            && LiveAt(s', b) && s'.blocks[b].size >= job.size + 2 * TAG
            && BytesAgree(job.before, job.from + TAG, s'.mem, b + TAG, n)
    ensures LivesKept(y.s, Advance(y, t, brk).s)
  {
    hide Inv, Tagged, Empty, HeldKept, Undisturbed, Copy, BytesAgree, Same, TagsUpTo, JobOk, HeldObject;
    var job, b := y.pcs[t].job, y.pcs[t].block;
    assert PcOk(y.s, y.inited, y.home[t], t, y.pcs[t]);
    FromIsHeld(y.s, t, job);
    CopiedState(y.s, t, job, b);
    var y' := Advance(y, t, brk);
    UndisturbedHeld(y.s, y'.s, b, t);
    LockKept(y, y', t);
    Assemble(y, y', t);
  }

  /** The copy itself, for the job of thread t and its new block b. */
  lemma CopiedState(s: State, t: nat, job: Job, b: int)
    requires Inv(s) && JobOk(s, t, job) && job.from != 0 && b in s.blocks && NewOk(s, t, job, b, s.blocks[b].size, 4)
    ensures job.from in s.blocks && Rd(s.mem, job.from + 8) == s.blocks[job.from].size >= 2 * TAG
    ensures var objectSize := s.blocks[job.from].size - 2 * TAG;
            var n := if objectSize > job.size then job.size else objectSize;
            var s' := SetOwner(s.(mem := Copy(s.mem, b + TAG, job.from + TAG, n)), b, Live);
            && Inv(s') && Undisturbed(s, s', b) && HeldObject(s', t, job.from)
            && BytesAgree(job.before, job.from + TAG, s'.mem, b + TAG, n)
  {
    hide Inv, Tagged, Undisturbed, Copy, BytesAgree, Same, TagsUpTo, TotalSize, JobOk, NewOk, HeldObject;
    NewIsHeld(s, t, job, b, s.blocks[b].size, 4);
    JobHas(s, t, job);
    ObjectFacts(s, t, job.from);
    GeometryOf(s, b);
    var total, objectSize := s.blocks[b].size, s.blocks[job.from].size - 2 * TAG;
    var n := if objectSize > job.size then job.size else objectSize;
    var m := Copy(s.mem, b + TAG, job.from + TAG, n);
    CopyFrame(s.mem, b + TAG, job.from + TAG, n, total - 2 * TAG);
    CopiedLive(s, m, b, t);
    JobFrame(s, SetOwner(s.(mem := m), b, Live), b, t, job);
    JobHas(SetOwner(s.(mem := m), b, Live), t, job);
    CopiedBytes(job.before, s.mem, job.from, objectSize, b, n);
  }

  lemma JobHas(s: State, t: nat, job: Job)
    requires JobOk(s, t, job) && job.from != 0
    ensures job.size > 0 && job.from in s.blocks && HeldObject(s, t, job.from)
    ensures Same(job.before, s.mem, job.from, job.from + s.blocks[job.from].size)
  {
  }

  /** A tagged block that a thread holds is filled and handed out. */
  lemma CopiedLive(s: State, m: Mem, b: int, t: nat)
    requires Inv(s) && b in s.blocks && s.blocks[b].owner == Held(t) && Tagged(s.mem, b, s.blocks[b].size, OBJ_ALLOCATED)
    requires OnlyIn(s.mem, m, b + TAG, b + s.blocks[b].size - TAG)
    ensures Inv(SetOwner(s.(mem := m), b, Live)) && Undisturbed(s, SetOwner(s.(mem := m), b, Live), b)
  {
    hide Inv, Tagged, Undisturbed, OnlyIn;
    HeldCopy(s, m, b, t);
    HandOver(s.(mem := m), b, Live);
    OwnerUndisturbs(s.(mem := m), b, Live);
    UndisturbedTrans(s, s.(mem := m), SetOwner(s.(mem := m), b, Live), b, b);
  }

  /** The copy of an object that still is as it was before. */
  lemma CopiedBytes(before: Mem, m: Mem, from: int, objectSize: int, b: int, n: int)
    requires from % 8 == 0 && b % 8 == 0 && 0 <= n <= objectSize && objectSize % 8 == 0
    requires Same(before, m, from, from + objectSize + 2 * TAG)
    ensures BytesAgree(before, from + TAG, Copy(m, b + TAG, from + TAG, n), b + TAG, n)
  {
    hide Copy, BytesAgree, Same;
    CopyCopies(m, b + TAG, from + TAG, n);
    SameInside(before, m, from, objectSize + 2 * TAG, from + TAG, objectSize);
    SameBytes(before, m, from + TAG, objectSize, n);
    AgreeTrans(before, from + TAG, m, from + TAG, Copy(m, b + TAG, from + TAG, n), b + TAG, n);
  }

  lemma SameInside(m: Mem, m': Mem, lo: int, n: int, lo': int, n': int)
    requires Same(m, m', lo, lo + n) && lo <= lo' && lo' + n' <= lo + n
    ensures Same(m, m', lo', lo' + n')
  {
  }

  lemma AgreeTrans(m0: Mem, p0: int, m1: Mem, p1: int, m2: Mem, p2: int, n: int)
    requires BytesAgree(m0, p0, m1, p1, n) && BytesAgree(m1, p1, m2, p2, n)
    ensures BytesAgree(m0, p0, m2, p2, n)
  {
  }

  lemma ObjectFacts(s: State, t: nat, b: int)
    requires Inv(s) && HeldObject(s, t, b)
    ensures b in s.blocks && s.blocks[b].owner == Held(t) && b > 0 && b % 8 == 0
    ensures Rd(s.mem, b + 8) == s.blocks[b].size >= MIN_BLOCK && s.blocks[b].size % 8 == 0
    ensures Tagged(s.mem, b, s.blocks[b].size, OBJ_ALLOCATED)
  {
  }

  lemma HeldCopy(s: State, m': Mem, b: int, t: nat)
    requires Inv(s) && b in s.blocks && s.blocks[b].owner == Held(t) && Tagged(s.mem, b, s.blocks[b].size, OBJ_ALLOCATED)
    requires OnlyIn(s.mem, m', b + TAG, b + s.blocks[b].size - TAG)
    ensures Inv(s.(mem := m')) && Undisturbed(s, s.(mem := m'), b)
    ensures Tagged(m', b, s.blocks[b].size, OBJ_ALLOCATED)
  {
    hide Inv;
    GeometryOf(s, b);
    HeldWrites(s, m', b, t);
  }

  lemma FreeKeeps(y: Sys, t: nat, brk: int)
    requires SysInv(y) && t < |y.pcs| && y.pcs[t].InFree?
    ensures Runnable(y, t) && SysInv(Advance(y, t, brk))
    ensures LivesKept(y.s, Advance(y, t, brk).s)
  {
    hide Inv, Tagged, Empty, HeldKept, Undisturbed, HeldObject, Link, Flagged, OnlyHeap, Linkable;
    var h, b := y.pcs[t].heap, y.pcs[t].block;
    assert PcOk(y.s, y.inited, y.home[t], t, y.pcs[t]);
    ObjectFacts(y.s, t, b);
    ReleaseKeeps(y.s, h, b, t);
    LinkTouches(Flagged(y.s, b, t), h, b);
    FlaggedHeaps(y.s, b, t);
    var y' := Advance(y, t, brk);
    InitFrame(y, y', h);
    UndisturbedHeld(y.s, y'.s, b, t);
    LockDropped(y, y', t, h);
    Assemble(y, y', t);
  }

  lemma FlaggedHeaps(s: State, b: int, t: nat)
    requires b in s.blocks
    ensures Flagged(s, b, t).heaps == s.heaps
  {
  }

  // ---------- Calls ----------

  /** Initializing an untouched cache changes nothing. */
  lemma WipedEmpty(s: State, c: nat)
    requires c < |s.heaps| && Empty(s.heaps[c])
    ensures Wiped(s, c) == s
  {
  }

  lemma BeginKeeps(y0: Sys, y: Sys, t: nat, job: Job)
    requires SysInv(y0) && t < |y0.pcs| && y0.pcs[t].Idle? && y == y0.(s := y.s)
    requires Inv(y.s) && Undisturbed(y0.s, y.s, job.from) && y.s.heaps == y0.s.heaps
    requires JobOk(y.s, t, job)
    requires job.from in y0.s.blocks ==> LiveAt(y0.s, job.from)
    requires forall c :: c in y.s.blocks && c != job.from ==> c in y0.s.blocks && y.s.blocks[c] == y0.s.blocks[c]
    ensures Shaped(y) && SysInv(Begin(y, t, job))
  {
    hide Inv, Empty, HeldKept, Undisturbed, JobOk, Wiped;
    var c := y.home[t];
    if !y.inited[c] {
      WipedEmpty(y.s, c);
    }
    var y' := Begin(y, t, job);
    assert y'.s == y.s;
    FromIsHeld(y.s, t, job);
    UndisturbedHeld(y0.s, y'.s, job.from, t);
    LockKept(y0, y', t);
    Assemble(y0, y', t);
  }

  lemma StartMallocKeeps(y: Sys, t: nat, size: nat)
    requires SysInv(y) && t < |y.pcs| && y.pcs[t].Idle? && size > 0
    ensures SysInv(Begin(y, t, Job(size, 0, y.s.mem)))
  {
    hide Inv, Undisturbed, LocksOk, PcsOk, HandsOk, InitOk;
    NoBlockAtZero(y.s);
    NothingMoved(y.s, 0);
    BeginKeeps(y, y, t, Job(size, 0, y.s.mem));
  }

  lemma NothingMoved(s: State, x: int)
    ensures Undisturbed(s, s, x)
  {
  }

  lemma NoBlockAtZero(s: State)
    requires Inv(s)
    ensures 0 !in s.blocks
  {
  }

  lemma StartReallocKeeps(y: Sys, t: nat, from: int, size: nat)
    requires SysInv(y) && t < |y.pcs| && y.pcs[t].Idle? && LiveAt(y.s, from) && size > 0
    ensures SysInv(Begin(y.(s := SetOwner(y.s, from, Held(t))), t, Job(size, from, y.s.mem)))
  {
    hide Inv, Undisturbed, Tagged, PcsOk, LocksOk, HandsOk, InitOk;
    var y1 := y.(s := SetOwner(y.s, from, Held(t)));
    HandOver(y.s, from, Held(t));
    OwnerUndisturbs(y.s, from, Held(t));
    LiveTags(y.s, from);
    BeginKeeps(y, y1, t, Job(size, from, y.s.mem));
  }

  lemma StartFreeKeeps(y: Sys, t: nat, b: int)
    requires SysInv(y) && t < |y.pcs| && y.pcs[t].Idle? && LiveAt(y.s, b)
    requires FreeHeap(y, t, Rd(y.s.mem, b + 8)) != CENTRAL ==> y.inited[y.home[t]]
    ensures SysInv(SetPc(y.(s := SetOwner(y.s, b, Held(t))), t, WantFree(FreeHeap(y, t, Rd(y.s.mem, b + 8)), b)))
  {
    hide Inv, Undisturbed, Tagged, Empty, HeldKept;
    var h := FreeHeap(y, t, Rd(y.s.mem, b + 8));
    var y' := SetPc(y.(s := SetOwner(y.s, b, Held(t))), t, WantFree(h, b));
    HandOver(y.s, b, Held(t));
    OwnerUndisturbs(y.s, b, Held(t));
    LiveTags(y.s, b);
    UndisturbedHeld(y.s, y'.s, b, t);
    LockKept(y, y', t);
    Assemble(y, y', t);
  }

  lemma StoreKeeps(y: Sys, t: nat, b: int, a: int, v: nat)
    requires SysInv(y) && t < |y.pcs| && LiveAt(y.s, b)
    requires b + TAG <= a && a + 8 <= b + y.s.blocks[b].size - TAG
    ensures SysInv(y.(s := y.s.(mem := y.s.mem[a := v])))
  {
    hide Inv, Undisturbed, Tagged, Empty, Same, Holds;
    var m := y.s.mem[a := v];
    var y' := y.(s := y.s.(mem := m));
    LiveWrites(y.s, m, b);
    forall u: nat ensures HeldKept(y.s, y'.s, u) {
    }
    PcFrame(y.s, y'.s, y.inited, y.inited, y.home[t], t, y.pcs[t]);
    Assemble(y, y', t);
  }

  /** Every enabled step of every thread keeps the invariant. */
  lemma StepKeeps(y: Sys, t: nat, step: Step)
    requires SysInv(y) && t < |y.pcs| && Enabled(y, t, step)
    ensures Runnable(y, t) && SysInv(Do(y, t, step))
  {
    hide SysInv;
    RunnableAlways(y, t);
    match step
    case StartMalloc(size) => StartMallocKeeps(y, t, size);
    case StartRealloc(from, size) => StartReallocKeeps(y, t, from, size);
    case StartFree(b) => StartFreeKeeps(y, t, b);
    case Store(b, a, v) => StoreKeeps(y, t, b, a, v);
    case Continue(brk) => AdvanceKeeps(y, t, brk);
  }

  lemma AdvanceKeeps(y: Sys, t: nat, brk: int)
    requires SysInv(y) && t < |y.pcs| && Enabled(y, t, Continue(brk))
    ensures Runnable(y, t) && SysInv(Advance(y, t, brk))
    ensures LivesKept(y.s, Advance(y, t, brk).s)
  {
    hide SysInv, Fresh, Takeable, Take;
    RunnableAlways(y, t);
    match y.pcs[t]
    case WantCache(_) => LockCacheKeeps(y, t);
    case InCache(_) => HitKeeps(y, t);
    case WantCentral(_, _) => LockCentralKeeps(y, t);
    case InCentral(_, _) => CentralKeeps(y, t, brk);
    case TagCentral(_, cached, _, _, k) =>
      if k < 4 {
        TagKeeps(y, t, brk);
      } else if cached {
        HandDownKeeps(y, t, brk);
      } else {
        CompleteKeeps(y, t, brk);
      }
    case TagCache(_, _, _, k) =>
      if k < 4 {
        TagKeeps(y, t, brk);
      } else {
        CompleteKeeps(y, t, brk);
      }
    case Copying(_, _) => CopyKeeps(y, t, brk);
    case WantFree(_, _) => LockFreeKeeps(y, t);
    case InFree(_, _) => FreeKeeps(y, t, brk);
  }

  lemma RunnableAlways(y: Sys, t: nat)
    requires SysInv(y) && t < |y.pcs|
    ensures Runnable(y, t)
  {
    hide Inv, Takeable, Take, Tagged, Linkable, Flagged, Undisturbed, Empty, Link;
    assert PcOk(y.s, y.inited, y.home[t], t, y.pcs[t]);
    match y.pcs[t]
    case InCache(job) =>
      TotalSizeFacts(8, job.size);
      ReadyToTake(y.s, y.home[t], TotalSize(8, job.size), t);
    case InCentral(job, cached) =>
      TotalSizeFacts(4096, Need(job, cached));
      ReadyToTake(y.s, CENTRAL, TotalSize(4096, Need(job, cached)), t);
    case Copying(job, _) =>
      ObjectFacts(y.s, t, job.from);
    case InFree(h, b) =>
      ObjectFacts(y.s, t, b);
      ReleaseKeeps(y.s, h, b, t);
    case _ =>
  }
}

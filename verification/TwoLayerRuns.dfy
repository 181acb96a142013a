/** What holds in every run of the two-layer allocator. */
module TwoLayerRuns {
  import opened Words
  import opened Bytes
  import opened Arena
  import opened Fit
  import opened Objects
  import opened TwoLayer
  import opened TwoLayerSteps
  import Sets

  // ---------- Runs ----------

  datatype Event = Event(thread: nat, step: Step)

  /** Every event is enabled when its turn comes. */
  ghost predicate Legal(y: Sys, run: seq<Event>)
    decreases |run|
  {
    |run| > 0 ==>
      && Runnable(y, run[0].thread) && Enabled(y, run[0].thread, run[0].step)
      && Legal(Do(y, run[0].thread, run[0].step), run[1..])
  }

  ghost function After(y: Sys, run: seq<Event>): (y': Sys)
    requires Legal(y, run)
    decreases |run|
  {
    if |run| == 0 then y else After(Do(y, run[0].thread, run[0].step), run[1..])
  }

  /** No memory, empty lists, nobody inside; the contents of memory are arbitrary. */
  ghost predicate Start(y: Sys) {
    && Shaped(y)
    && y.s.blocks == map[] && y.s.regions == [] && y.s.heapSize == 0
    && (forall h :: 0 <= h < HEAPS ==> Empty(y.s.heaps[h]))
    && (forall h :: 0 <= h < HEAPS ==> y.lock[h] == NOBODY)
    && (forall t :: 0 <= t < |y.pcs| ==> y.pcs[t] == Idle)
  }

  lemma StartInv(y: Sys)
    requires Start(y)
    ensures SysInv(y)
  {
    forall h | 0 <= h < HEAPS ensures HeapOk(y.s.mem, y.s.blocks, h, y.s.heaps[h]) {
      assert Empty(y.s.heaps[h]);
    }
  }

  lemma {:induction false} RunKeeps(y: Sys, run: seq<Event>)
    requires SysInv(y) && Legal(y, run)
    ensures SysInv(After(y, run))
    decreases |run|
  {
    hide SysInv, Runnable, Do;
    if |run| > 0 {
      KeepsOne(y, run[0].thread, run[0].step);
      RunKeeps(Do(y, run[0].thread, run[0].step), run[1..]);
    }
  }

  lemma KeepsOne(y: Sys, t: nat, step: Step)
    requires SysInv(y) && Runnable(y, t) && Enabled(y, t, step)
    ensures SysInv(Do(y, t, step))
  {
    hide SysInv;
    StepKeeps(y, t, step);
  }

  /** From the start, whatever the threads call and however they interleave, the allocator's
      invariant holds. */
  lemma Reachable(y: Sys, run: seq<Event>)
    requires Start(y) && Legal(y, run)
    ensures SysInv(After(y, run))
  {
    hide SysInv, Start, Legal;
    StartInv(y);
    RunKeeps(y, run);
  }

  // ---------- One place for every block ----------

  /** Block b is at position k of list i of heap h. */
  predicate At(s: State, h: int, i: int, k: int, b: int) {
    && 0 <= h < |s.heaps| && 0 <= i < |s.heaps[h].lists|
    && 0 <= k < |s.heaps[h].lists[i]| && s.heaps[h].lists[i][k] == b
  }

  /** A block is on a list if and only if it is free, and then at exactly one position of one
      list of one heap. */
  lemma OnePosition(s: State, b: int)
    requires Inv(s) && b in s.blocks
    ensures (exists h, i, k :: At(s, h, i, k, b)) <==> s.blocks[b].owner.Free?
    ensures forall h, i, k, h', i', k' :: At(s, h, i, k, b) && At(s, h', i', k', b) ==> h == h' && i == i' && k == k'
  {
    forall h, i, k | At(s, h, i, k, b)
      ensures s.blocks[b].owner == Free(h) && s.heaps[h].grain > 0 && s.blocks[b].size >= 0
      ensures i == ClassOf(s.heaps[h].grain, s.blocks[b].size)
    {
      PositionFacts(s, h, i, k, b);
    }
    forall h, i, k, k' | At(s, h, i, k, b) && At(s, h, i, k', b) ensures k == k' {
      SamePosition(s, h, i, k, k', b);
    }
    if s.blocks[b].owner.Free? {
      var h := s.blocks[b].owner.heap;
      HeapFacts(s, h);
      var i := ClassOf(s.heaps[h].grain, s.blocks[b].size);
      var k :| 0 <= k < |s.heaps[h].lists[i]| && s.heaps[h].lists[i][k] == b;
      assert At(s, h, i, k, b);
    }
  }

  lemma PositionFacts(s: State, h: int, i: int, k: int, b: int)
    requires Inv(s) && b in s.blocks && At(s, h, i, k, b)
    ensures s.blocks[b].owner == Free(h) && s.heaps[h].grain > 0 && s.blocks[b].size >= 0
    ensures i == ClassOf(s.heaps[h].grain, s.blocks[b].size)
  {
    HeapFacts(s, h);
    ListFacts(s, h, i);
  }

  lemma SamePosition(s: State, h: int, i: int, k: int, k': int, b: int)
    requires Inv(s) && At(s, h, i, k, b) && At(s, h, i, k', b)
    ensures k == k'
  {
    HeapFacts(s, h);
    ListFacts(s, h, i);
    assert Distinct(s.heaps[h].lists[i]);
  }

  /** A block is in a thread's hands if and only if its owner says so: no block is ever in the
      hands of two threads, nor in a thread's hands and live or free. */
  lemma OneHolder(y: Sys, b: int, t: nat)
    requires SysInv(y) && b in y.s.blocks && t < |y.pcs|
    ensures b in Holding(y.pcs[t]) <==> y.s.blocks[b].owner == Held(t)
  {
    hide Inv, Tagged, Empty, LocksOk, InitOk;
    assert PcOk(y.s, y.inited, y.home[t], t, y.pcs[t]);
    GeometryOf(y.s, b);
  }

  // ---------- Locks ----------

  /** No two threads are ever inside the critical section of the same heap. */
  lemma MutualExclusion(y: Sys, t: nat, u: nat, h: nat)
    requires SysInv(y) && t < |y.pcs| && u < |y.pcs| && h < HEAPS
    requires Holds(y.pcs[t], y.home[t], h) && Holds(y.pcs[u], y.home[u], h)
    ensures t == u
  {
    assert y.lock[h] == t && y.lock[h] == u;
  }

  /** Thread t can go on by itself: it is inside a call and not waiting for a taken lock. */
  predicate CanGoOn(y: Sys, t: nat)
    requires Shaped(y) && t < |y.pcs|
  {
    match y.pcs[t]
    case Idle => false
    case WantCache(_) => y.lock[y.home[t]] == NOBODY
    case WantCentral(_, _) => y.lock[CENTRAL] == NOBODY
    case WantFree(h, _) => h < HEAPS && y.lock[h] == NOBODY
    case _ => true
  }

  /** An address above everything that sbrk has returned. */
  function Above(regions: seq<Region>): (a: int)
    ensures a > 0 && a % 8 == 0 && forall j :: 0 <= j < |regions| ==> regions[j].start + regions[j].len <= a
  {
    if |regions| == 0 then 8
    else
      var n := |regions| - 1;
      var a, end := Above(regions[..n]), regions[n].start + regions[n].len;
      if end <= a then a else (end + 7) / 8 * 8
  }

  lemma AboveIsFresh(regions: seq<Region>, n: int)
    ensures Fresh(regions, Above(regions), n)
  {
  }

  /** That is, there is an answer of sbrk with which its next step is enabled. */
  lemma CanGoOnIsEnabled(y: Sys, t: nat)
    requires SysInv(y) && t < |y.pcs|
    ensures Runnable(y, t)
    ensures CanGoOn(y, t) <==> exists brk :: Enabled(y, t, Continue(brk))
  {
    hide Inv, Fresh, LocksOk, PcsOk, HandsOk, InitOk, Runnable;
    RunnableAlways(y, t);
    if CanGoOn(y, t) {
      var brk := Above(y.s.regions);
      if y.pcs[t].InCentral? {
        AboveIsFresh(y.s.regions, TotalSize(4096, Need(y.pcs[t].job, y.pcs[t].cached)));
      }
      assert Enabled(y, t, Continue(brk));
    }
  }

  lemma HolderOfCentralGoesOn(y: Sys)
    requires SysInv(y) && y.lock[CENTRAL] != NOBODY
    ensures 0 <= y.lock[CENTRAL] < |y.pcs| && CanGoOn(y, y.lock[CENTRAL])
  {
  }

  /** Some thread inside a call has an enabled step. */
  ghost predicate SomeoneCanGoOn(y: Sys)
    requires Shaped(y)
  {
    exists u: nat, brk: int :: u < |y.pcs| && Runnable(y, u) && Enabled(y, u, Continue(brk))
  }

  /** Locks are taken cache first, central second, so some thread inside a call always has an
      enabled step. */
  lemma NoDeadlock(y: Sys, t: nat)
    requires SysInv(y) && t < |y.pcs| && !y.pcs[t].Idle?
    ensures SomeoneCanGoOn(y)
  {
    hide Inv, Enabled, Runnable, PcsOk, LocksOk, HandsOk, InitOk, CanGoOn;
    var u := WhoCanGoOn(y, t);
    CanGoOnIsEnabled(y, u);
    var brk :| Enabled(y, u, Continue(brk));
  }

  lemma WhoCanGoOn(y: Sys, t: nat) returns (v: nat)
    requires SysInv(y) && t < |y.pcs| && !y.pcs[t].Idle?
    ensures v < |y.pcs| && CanGoOn(y, v)
  {
    hide Inv, PcOk, InitOk, HandsOk;
    assert PcOk(y.s, y.inited, y.home[t], t, y.pcs[t]);
    v := t;
    if !CanGoOn(y, t) {
      var h := match y.pcs[t] case WantCache(_) => y.home[t] case WantCentral(_, _) => CENTRAL case WantFree(h, _) => h;
      WaitsForHeap(y, t);
      var u := y.lock[h];
      assert Holds(y.pcs[u], y.home[u], h);
      v := u;
      if !CanGoOn(y, u) {
        HolderOfCentralGoesOn(y);
        v := y.lock[CENTRAL];
      }
    }
  }

  lemma WaitsForHeap(y: Sys, t: nat)
    requires SysInv(y) && t < |y.pcs|
    ensures y.pcs[t].WantFree? ==> y.pcs[t].heap < HEAPS
  {
  }

  /** After any run: a block is on a free list exactly if it is free, in a thread's hands exactly
      if that thread is its owner, no heap is locked by two threads, and some thread inside a call
      can go on. */
  lemma EveryRun(y: Sys, run: seq<Event>, b: int, t: nat, u: nat, h: nat)
    requires Start(y) && Legal(y, run) && t < |y.pcs| && u < |y.pcs| && h < HEAPS
    ensures var y' := After(y, run);
            && SysInv(y') && |y'.pcs| == |y.pcs|
            && (b in y'.s.blocks ==>
                  && ((exists h, i, k :: At(y'.s, h, i, k, b)) <==> y'.s.blocks[b].owner.Free?)
                  && (b in Holding(y'.pcs[t]) <==> y'.s.blocks[b].owner == Held(t)))
            && (Holds(y'.pcs[t], y'.home[t], h) && Holds(y'.pcs[u], y'.home[u], h) ==> t == u)
            && (!y'.pcs[t].Idle? ==> SomeoneCanGoOn(y'))
  {
    hide Inv, Legal, After, Holding, Holds, LocksOk, PcsOk, HandsOk, InitOk, At, SomeoneCanGoOn, Start;
    Reachable(y, run);
    SameThreads(y, run);
    var y' := After(y, run);
    if b in y'.s.blocks {
      OnePosition(y'.s, b);
      OneHolder(y', b, t);
    }
    if Holds(y'.pcs[t], y'.home[t], h) && Holds(y'.pcs[u], y'.home[u], h) {
      MutualExclusion(y', t, u, h);
    }
    if !y'.pcs[t].Idle? {
      NoDeadlock(y', t);
    }
  }

  lemma {:induction false} SameThreads(y: Sys, run: seq<Event>)
    requires Legal(y, run)
    ensures |After(y, run).pcs| == |y.pcs|
    decreases |run|
  {
    hide Runnable, Do;
    if |run| > 0 {
      StepThreads(y, run[0].thread, run[0].step);
      SameThreads(Do(y, run[0].thread, run[0].step), run[1..]);
    }
  }

  lemma StepThreads(y: Sys, t: nat, step: Step)
    requires Runnable(y, t) && Enabled(y, t, step)
    ensures |Do(y, t, step).pcs| == |y.pcs|
  {
  }

  /** Steps left to a thread inside a call. */
  function Rank(pc: Pc): (n: nat) {
    match pc
    case Idle => 0
    case InFree(_, _) => 1
    case WantFree(_, _) => 2
    case Copying(_, _) => 3
    case TagCache(_, _, _, k) => if k < 4 then 8 - k else 4
    case TagCentral(_, _, _, _, k) => if k < 4 then 14 - k else 10
    case InCentral(_, _) => 15
    case WantCentral(_, _) => 16
    case InCache(_) => 17
    case WantCache(_) => 18
  }

  /** Each step of a call brings it closer to its end, so with NoDeadlock every call that the
      scheduler does not starve returns. */
  lemma CallsEnd(y: Sys, t: nat, brk: int)
    requires Runnable(y, t) && !y.pcs[t].Idle?
    ensures Rank(Advance(y, t, brk).pcs[t]) < Rank(y.pcs[t])
  {
  }

  /** A cache turns to the central heap exactly when none of its own free blocks is large enough;
      otherwise the thread gets the smallest of those that are, whole or cut. */
  lemma CacheTakesBestFit(y: Sys, t: nat, brk: int)
    requires SysInv(y) && t < |y.pcs| && y.pcs[t].InCache?
    ensures Runnable(y, t)
    ensures var n, c, y' := TotalSize(8, y.pcs[t].job.size), y.home[t], Advance(y, t, brk);
            && (y'.pcs[t].WantCentral? <==> !FitsIn(y.s, c, n))
            && (FitsIn(y.s, c, n) ==>
                  && y'.pcs[t].TagCache?
                  && var d := y'.pcs[t].block;
                  && TookBlock(y.s.blocks, y'.s.blocks, c, 8, d, n, Held(t))
                  && forall b :: b in y.s.blocks && y.s.blocks[b].owner == Free(c) && y.s.blocks[b].size >= n ==>
                       y.s.blocks[d].size <= y.s.blocks[b].size)
  {
    hide Inv, LocksOk, PcsOk, HandsOk, InitOk, Undisturbed, LeastFit, OwnClassServes, HeapOk, Geometry, Takeable, Take;
    var n, c := TotalSize(8, y.pcs[t].job.size), y.home[t];
    TotalSizeFacts(8, y.pcs[t].job.size);
    ReadyToTake(y.s, c, n, t);
    TakeKeeps(y.s, c, n, t);
    HeapFacts(y.s, c);
    if FitsIn(y.s, c, n) {
      var b := Take(y.s, c, n, t).block;
      LeastFits(y.s.blocks, c, 8, n, b);
      LeastIsSmallest(y.s.blocks, c, n, b);
    }
  }

  /** The central heap, too, gives its best fit, in whole pages, whole or cut, and asks sbrk for
      exactly the pages it needs when it has none. */
  lemma CentralTakesBestFit(y: Sys, t: nat, brk: int)
    requires SysInv(y) && t < |y.pcs| && y.pcs[t].InCentral?
    requires Fresh(y.s.regions, brk, TotalSize(4096, Need(y.pcs[t].job, y.pcs[t].cached)))
    ensures Runnable(y, t)
    ensures var n, y' := TotalSize(4096, Need(y.pcs[t].job, y.pcs[t].cached)), Advance(y, t, brk);
            && y'.pcs[t].TagCentral?
            && var b := y'.pcs[t].block;
            if FitsIn(y.s, CENTRAL, n) then TookBlock(y.s.blocks, y'.s.blocks, CENTRAL, 4096, b, n, Held(t))
            else b == brk && b !in y.s.blocks && y'.s.blocks == y.s.blocks[b := Block(n, Held(t))]
  {
    hide Inv, LocksOk, PcsOk, HandsOk, InitOk, Undisturbed, TookBlock, HeapOk, Geometry, Takeable, Take, Fresh, TotalSize;
    var n := TotalSize(4096, Need(y.pcs[t].job, y.pcs[t].cached));
    TotalSizeFacts(4096, Need(y.pcs[t].job, y.pcs[t].cached));
    ReadyToTake(y.s, CENTRAL, n, t);
    AcquireKeeps(y.s, CENTRAL, n, brk, t);
  }

  // ---------- What the program sees ----------

  /** The step is not the program's own doing to block b. */
  predicate Spares(step: Step, b: int) {
    match step
    case StartRealloc(from, _) => from != b
    case StartFree(c) => c != b
    case Store(c, _, _) => c != b
    case _ => true
  }

  /** Block b is live in both, with the same size and the same words. */
  ghost predicate Intact(s: State, s': State, b: int) {
    LiveAt(s, b) && LiveAt(s', b) && s'.blocks[b].size == s.blocks[b].size && Same(s.mem, s'.mem, b, b + s.blocks[b].size)
  }

  lemma StepSpares(y: Sys, t: nat, step: Step, b: int)
    requires SysInv(y) && Runnable(y, t) && Enabled(y, t, step) && LiveAt(y.s, b) && Spares(step, b)
    ensures Intact(y.s, Do(y, t, step).s, b)
  {
    hide Inv, Takeable, Take, Acquire, Link, Copy, Flagged, PcsOk, LocksOk, HandsOk, Wiped, Empty, Fresh;
    match step
    case StartMalloc(_) => BeginSpares(y, t, Job(step.size, 0, y.s.mem));
    case StartRealloc(from, size) =>
      BeginSpares(y.(s := SetOwner(y.s, from, Held(t))), t, Job(size, from, y.s.mem));
    case StartFree(_) =>
    case Store(c, a, v) => LiveWrites(y.s, y.s.mem[a := v], c);
    case Continue(brk) => AdvanceKeeps(y, t, brk);
  }

  lemma BeginSpares(y: Sys, t: nat, job: Job)
    requires Shaped(y) && t < |y.pcs|
    ensures Begin(y, t, job).s.blocks == y.s.blocks && Begin(y, t, job).s.mem == y.s.mem
  {
  }

  /** Whatever the other threads allocate, free, resize or write, a live object stays where it
      is and keeps every byte until the program itself writes, frees or resizes it. */
  lemma {:induction false} ObjectsPersist(y: Sys, run: seq<Event>, b: int)
    requires SysInv(y) && Legal(y, run) && LiveAt(y.s, b)
    requires forall j :: 0 <= j < |run| ==> Spares(run[j].step, b)
    ensures Intact(y.s, After(y, run).s, b)
    decreases |run|
  {
    hide SysInv, Runnable, Do, Spares;
    if |run| > 0 {
      var y1 := Do(y, run[0].thread, run[0].step);
      KeepsOne(y, run[0].thread, run[0].step);
      StepSpares(y, run[0].thread, run[0].step, b);
      assert forall j :: 0 <= j < |run[1..]| ==> run[1..][j] == run[j + 1];
      ObjectsPersist(y1, run[1..], b);
    }
  }

  /** When no thread is inside a call, _heapSize is the live bytes plus the free bytes of the
      central heap and of all caches; the report says they agree exactly when nothing is live. */
  lemma QuiescentConservation(y: Sys)
    requires SysInv(y) && forall t :: 0 <= t < |y.pcs| ==> y.pcs[t] == Idle
    ensures NotFree(y.s.blocks) == set b | b in y.s.blocks && y.s.blocks[b].owner.Live?
    ensures y.s.heapSize == SizeSum(y.s.blocks, NotFree(y.s.blocks)) + FreeBytes(y.s.blocks, HEAPS)
    ensures y.s.heapSize == FreeBytes(y.s.blocks, HEAPS) <==> forall b :: b in y.s.blocks ==> !y.s.blocks[b].owner.Live?
  {
    hide Inv, SizeSum, FreeBytes, PcsOk, LocksOk, InitOk;
    Conservation(y.s);
    forall b | b in y.s.blocks ensures !y.s.blocks[b].owner.Held?
                               ensures y.s.blocks[b].owner.Live? ==> b in NotFree(y.s.blocks)
    {
    }
    if NotFree(y.s.blocks) != {} {
      Sets.Inhabited(NotFree(y.s.blocks));
      var b :| b in NotFree(y.s.blocks);
      assert b in y.s.blocks && y.s.blocks[b].owner.Live?;
    }
  }

  // ---------- realloc ----------

  predicate HasJob(pc: Pc) {
    !pc.Idle? && !pc.WantFree? && !pc.InFree?
  }

  /** Until it starts another call, a thread works on the same job. */
  lemma {:induction false} JobCarried(y: Sys, run: seq<Event>, t: nat, job: Job)
    requires Legal(y, run) && t < |y.pcs| && (HasJob(y.pcs[t]) ==> y.pcs[t].job == job)
    requires forall j :: 0 <= j < |run| && run[j].thread == t ==> run[j].step.Continue? || run[j].step.Store?
    ensures t < |After(y, run).pcs| && (HasJob(After(y, run).pcs[t]) ==> After(y, run).pcs[t].job == job)
    decreases |run|
  {
    hide Runnable, Do;
    if |run| > 0 {
      JobCarriedOnce(y, run[0].thread, run[0].step, t, job);
      assert forall j :: 0 <= j < |run[1..]| ==> run[1..][j] == run[j + 1];
      JobCarried(Do(y, run[0].thread, run[0].step), run[1..], t, job);
    }
  }

  lemma JobCarriedOnce(y: Sys, u: nat, step: Step, t: nat, job: Job)
    requires Runnable(y, u) && Enabled(y, u, step) && t < |y.pcs| && (HasJob(y.pcs[t]) ==> y.pcs[t].job == job)
    requires u == t ==> step.Continue? || step.Store?
    ensures var y' := Do(y, u, step);
            t < |y'.pcs| && (HasJob(y'.pcs[t]) ==> y'.pcs[t].job == job)
  {
  }

  /** realloc through both layers: whatever happens between the call and the copy, the new
      object is live with room for size bytes, and its first bytes are those the old object had
      at the call. */
  lemma ReallocMoves(y: Sys, y0: Sys, y1: Sys, t: nat, from: int, size: nat, run: seq<Event>, brk: int)
    requires SysInv(y) && Runnable(y, t) && Enabled(y, t, StartRealloc(from, size))
    requires y0 == Do(y, t, StartRealloc(from, size)) && Legal(y0, run) && y1 == After(y0, run)
    requires forall j :: 0 <= j < |run| && run[j].thread == t ==> run[j].step.Continue? || run[j].step.Store?
    requires t < |y1.pcs| && y1.pcs[t].Copying?
    ensures Runnable(y1, t)
    ensures var objectSize := y.s.blocks[from].size - 2 * TAG;
            var s', b := Advance(y1, t, brk).s, y1.pcs[t].block;
            && LiveAt(s', b) && s'.blocks[b].size - 2 * TAG >= size
            && BytesAgree(y.s.mem, from + TAG, s'.mem, b + TAG, if objectSize > size then size else objectSize)
  {
    hide SysInv, Legal, After, Runnable, Do, Advance, BytesAgree;
    KeepsOne(y, t, StartRealloc(from, size));
    RunKeeps(y0, run);
    StartedJob(y, t, from, size);
    JobCarried(y0, run, t, Job(size, from, y.s.mem));
    CopyKeeps(y1, t, brk);
    SizeCarried(y, y1, t, from);
  }

  lemma StartedJob(y: Sys, t: nat, from: int, size: nat)
    requires Runnable(y, t) && Enabled(y, t, StartRealloc(from, size))
    ensures var y0 := Do(y, t, StartRealloc(from, size));
            t < |y0.pcs| && HasJob(y0.pcs[t]) && y0.pcs[t].job == Job(size, from, y.s.mem)
  {
  }

  lemma SizeCarried(y: Sys, y1: Sys, t: nat, from: int)
    requires SysInv(y) && SysInv(y1) && t < |y1.pcs| && y1.pcs[t].Copying?
    requires LiveAt(y.s, from) && y1.pcs[t].job.from == from && y1.pcs[t].job.before == y.s.mem
    ensures from in y1.s.blocks && y1.s.blocks[from].size == y.s.blocks[from].size
  {
    assert PcOk(y1.s, y1.inited, y1.home[t], t, y1.pcs[t]);
    LiveTags(y.s, from);
    ObjectFacts(y1.s, t, from);
  }

  // ---------- Initialization of a cache ----------

  /** initialize() keeps the invariant exactly when nothing has been freed to the cache yet. */
  lemma InitializeKeepsIff(s: State, c: nat)
    requires Inv(s) && c < |s.heaps|
    ensures Inv(Wiped(s, c)) <==> forall b :: b in s.blocks ==> s.blocks[b].owner != Free(c)
  {
    var s' := Wiped(s, c);
    HeapFacts(s, c);
    if forall b :: b in s.blocks ==> s.blocks[b].owner != Free(c) {
      assert HeapOk(s.mem, s.blocks, c, s'.heaps[c]);
      forall h | 0 <= h < |s.heaps| ensures HeapOk(s.mem, s.blocks, h, s'.heaps[h]) {
        HeapFacts(s, h);
      }
    } else {
      var b :| b in s.blocks && s.blocks[b].owner == Free(c);
      if Inv(s') {
        HeapFacts(s', c);
        assert false;
      }
    }
  }

  /** A free that reaches a cache before its first allocation is lost by that allocation: the
      block is free, and on no list. */
  lemma EarlyFreeIsLost(s: State, c: nat, b: int, t: nat)
    requires Inv(s) && c < |s.heaps| && LiveAt(s, b)
    ensures Linkable(Flagged(s, b, t), c, b)
    ensures var s' := Wiped(Link(Flagged(s, b, t), c, b), c);
            s'.blocks[b].owner == Free(c) && !Inv(s') && forall h, i, k :: !At(s', h, i, k, b)
  {
    LiveTags(s, b);
    ReleaseKeeps(s, c, b, t);
    var s1 := Link(Flagged(s, b, t), c, b);
    InitializeKeepsIff(s1, c);
    forall h, i, k ensures !At(Wiped(s1, c), h, i, k, b) {
      if At(Wiped(s1, c), h, i, k, b) {
        assert h != c;
        assert At(s1, h, i, k, b);
        PositionFacts(s1, h, i, k, b);
      }
    }
  }
}

/** Histories of the two-layer allocator that lead to its failures, built call by call. */
module TwoLayerCases {
  import opened Words
  import opened Bytes
  import opened Arena
  import opened Fit
  import opened Objects
  import opened TwoLayer
  import opened TwoLayerSteps
  import opened TwoLayerRuns
  import opened CentralCheck

  // ---------- Reachable states ----------

  ghost predicate Reaches(y: Sys, y': Sys) {
    exists run :: Legal(y, run) && After(y, run) == y'
  }

  lemma ReachesSelf(y: Sys)
    ensures Reaches(y, y)
  {
    assert Legal(y, []) && After(y, []) == y;
  }

  lemma ReachesStep(y: Sys, t: nat, step: Step)
    requires Runnable(y, t) && Enabled(y, t, step)
    ensures Reaches(y, Do(y, t, step))
  {
    hide Runnable, Do;
    var run := [Event(t, step)];
    assert run[1..] == [] && Legal(Do(y, t, step), []) && After(Do(y, t, step), []) == Do(y, t, step);
    assert Legal(y, run) && After(y, run) == Do(y, t, step);
  }

  lemma {:induction false} RunThenRun(y: Sys, r: seq<Event>, r': seq<Event>)
    requires Legal(y, r) && Legal(After(y, r), r')
    ensures Legal(y, r + r') && After(y, r + r') == After(After(y, r), r')
    decreases |r|
  {
    hide Runnable, Do;
    if |r| == 0 {
      assert r + r' == r';
    } else {
      assert (r + r')[0] == r[0] && (r + r')[1..] == r[1..] + r';
      RunThenRun(Do(y, r[0].thread, r[0].step), r[1..], r');
    }
  }

  lemma ReachesOn(y: Sys, y1: Sys, y2: Sys)
    requires Reaches(y, y1) && Reaches(y1, y2)
    ensures Reaches(y, y2)
  {
    hide Legal, After;
    var r :| Legal(y, r) && After(y, r) == y1;
    var r' :| Legal(y1, r') && After(y1, r') == y2;
    RunThenRun(y, r, r');
  }

  // ---------- One thread at work ----------

  /** Only thread t may be inside a call. */
  ghost predicate Alone(y: Sys, t: nat) {
    SysInv(y) && t < |y.pcs| && forall u :: 0 <= u < |y.pcs| && u != t ==> y.pcs[u].Idle?
  }

  lemma LocksFree(y: Sys, t: nat, h: nat)
    requires Alone(y, t) && h < HEAPS && !Holds(y.pcs[t], y.home[t], h)
    ensures y.lock[h] == NOBODY
  {
    hide Inv, PcsOk, HandsOk, InitOk, LocksOk;
    OwnerHolds(y, h);
  }

  lemma OwnerHolds(y: Sys, h: nat)
    requires SysInv(y) && h < HEAPS
    ensures y.lock[h] != NOBODY ==> 0 <= y.lock[h] < |y.pcs| && Holds(y.pcs[y.lock[h]], y.home[y.lock[h]], h)
  {
  }

  /** Nothing but the state, and the position of thread t, has changed. */
  ghost predicate SameFrame(y: Sys, y': Sys) {
    y'.home == y.home && y'.inited == y.inited && |y'.pcs| == |y.pcs|
  }

  /** Where the next step takes thread t, if sbrk answers brk. */
  ghost predicate NextPc(y: Sys, t: nat, brk: int, pc': Pc)
    requires Shaped(y) && t < |y.pcs|
  {
    match y.pcs[t]
    case Idle => false
    case WantCache(job) => pc' == InCache(job)
    case InCache(job) =>
      if FitsIn(y.s, y.home[t], TotalSize(8, job.size)) then pc'.TagCache? && pc'.job == job && pc'.k == 0
      else pc' == WantCentral(job, true)
    case WantCentral(job, cached) => pc' == InCentral(job, cached)
    case InCentral(job, cached) =>
      && pc'.TagCentral? && pc'.job == job && pc'.cached == cached && pc'.k == 0
      && (!FitsIn(y.s, CENTRAL, TotalSize(4096, Need(job, cached))) ==> pc'.block == brk)
    case TagCentral(job, cached, b, total, k) =>
      if k < 4 then pc' == TagCentral(job, cached, b, total, k + 1)
      else if cached then pc'.TagCache? && pc'.job == job && pc'.block == b && pc'.k == 0
      else pc' == if job.from == 0 then Idle else Copying(job, b)
    case TagCache(job, b, total, k) =>
      if k < 4 then pc' == TagCache(job, b, total, k + 1)
      else pc' == if job.from == 0 then Idle else Copying(job, b)
    case Copying(job, _) => pc' == WantFree(CENTRAL, job.from)
    case WantFree(h, b) => pc' == InFree(h, b)
    case InFree(_, _) => pc' == Idle
  }

  /** What thread t has taken from its cache, if something fits. */
  ghost predicate TookFrom(y: Sys, t: nat, y': Sys)
    requires Shaped(y) && t < |y.pcs| == |y'.pcs| && y.pcs[t].InCache?
  {
    var bs, bs', c, n := y.s.blocks, y'.s.blocks, y.home[t], TotalSize(8, y.pcs[t].job.size);
    FitsIn(y.s, c, n) ==>
      y'.pcs[t].TagCache? && TookBlock(bs, bs', c, 8, y'.pcs[t].block, n, Held(t))
  }

  lemma AdvanceMoves(y: Sys, t: nat, brk: int)
    requires SysInv(y) && t < |y.pcs| && Enabled(y, t, Continue(brk)) && Runnable(y, t)
    ensures var y' := Advance(y, t, brk);
            && SameFrame(y, y') && NextPc(y, t, brk, y'.pcs[t])
            && (forall u :: 0 <= u < |y.pcs| && u != t ==> y'.pcs[u] == y.pcs[u])
            && (y.pcs[t].InCache? ==> TookFrom(y, t, y'))
  {
    hide Inv, LocksOk, PcsOk, HandsOk, InitOk, Ready;
    hide Takeable, Take, Acquire, Link, Linkable, Flagged, Copy, Fresh, Undisturbed;
    match y.pcs[t]
    case InCache(job) =>
      TotalSizeFacts(8, job.size);
      TakeKeeps(y.s, y.home[t], TotalSize(8, job.size), t);
    case InCentral(job, cached) =>
      TotalSizeFacts(4096, Need(job, cached));
      AcquireKeeps(y.s, CENTRAL, TotalSize(4096, Need(job, cached)), brk, t);
    case _ =>
  }

  /** Thread t takes its next step, with a fresh address from sbrk if it needs one. */
  lemma GoOn(y: Sys, t: nat) returns (y': Sys, brk: int)
    requires Alone(y, t) && !y.pcs[t].Idle?
    ensures Alone(y', t) && Reaches(y, y') && SameFrame(y, y')
    ensures NextPc(y, t, brk, y'.pcs[t]) && Continued(y, t, brk, y'.s.blocks)
    ensures y.pcs[t].InCache? ==> TookFrom(y, t, y')
  {
    hide Inv, LocksOk, PcsOk, HandsOk, InitOk, Runnable, Advance, NextPc, Continued, Reaches, TookFrom;
    brk := Above(y.s.regions);
    CanStep(y, t);
    StepKeeps(y, t, Continue(brk));
    AdvanceMoves(y, t, brk);
    AdvanceChanges(y, t, brk);
    ReachesStep(y, t, Continue(brk));
    y' := Advance(y, t, brk);
    DoContinue(y, t, brk);
  }

  lemma CanStep(y: Sys, t: nat)
    requires Alone(y, t) && !y.pcs[t].Idle?
    ensures Runnable(y, t) && Enabled(y, t, Continue(Above(y.s.regions)))
  {
    hide Inv, LocksOk, HandsOk, InitOk, Runnable, Fresh, JobOk, NewOk, HeldObject;
    RunnableAlways(y, t);
    assert PcOk(y.s, y.inited, y.home[t], t, y.pcs[t]);
    match y.pcs[t]
    case WantCache(_) => LocksFree(y, t, y.home[t]);
    case WantCentral(_, _) => LocksFree(y, t, CENTRAL);
    case WantFree(h, _) => LocksFree(y, t, h);
    case InCentral(job, cached) => AboveIsFresh(y.s.regions, TotalSize(4096, Need(job, cached)));
    case _ =>
  }

  // ---------- Whole calls ----------

  /** Nobody is inside a call. */
  ghost predicate Resting(y: Sys, t: nat) {
    Alone(y, t) && y.pcs[t].Idle?
  }

  /** From the state y thread t alone gets to y', without initializing anything. */
  ghost predicate Leads(y: Sys, y': Sys, t: nat) {
    Alone(y', t) && Reaches(y, y') && SameFrame(y, y')
  }

  lemma LeadsOn(y: Sys, y1: Sys, y2: Sys, t: nat)
    requires Leads(y, y1, t) && Leads(y1, y2, t)
    ensures Leads(y, y2, t)
  {
    hide Reaches, Alone;
    ReachesOn(y, y1, y2);
  }

  /** What is left of a call once the block is chosen and its tags are being written: malloc hands
      it out, realloc goes on to copy. */
  ghost predicate TagsWritten(y: Sys, y': Sys, t: nat, job: Job, b: int) {
    && t < |y'.pcs|
    && (if job.from == 0 then y'.pcs[t].Idle? && Rehanded(y.s.blocks, y'.s.blocks, b, Live)
        else y'.pcs[t] == Copying(job, b) && y'.s.blocks == y.s.blocks)
  }

  lemma {:induction false} TagInCache(y: Sys, t: nat, job: Job, b: int, total: nat, k: nat) returns (y': Sys)
    requires Alone(y, t) && y.pcs[t] == TagCache(job, b, total, k)
    ensures Leads(y, y', t) && TagsWritten(y, y', t, job, b)
    decreases 4 - k
  {
    hide Alone, Reaches;
    AloneFacts(y, t);
    var y1, brk := GoOn(y, t);
    if k < 4 {
      y' := TagInCache(y1, t, job, b, total, k + 1);
      LeadsOn(y, y1, y', t);
    } else {
      y' := y1;
    }
  }

  lemma AloneFacts(y: Sys, t: nat)
    requires Alone(y, t)
    ensures Shaped(y) && t < |y.pcs| && y.home[t] < CACHES
  {
  }

  lemma {:induction false} TagInCentral(y: Sys, t: nat, job: Job, cached: bool, b: int, total: nat, k: nat) returns (y': Sys)
    requires Alone(y, t) && y.pcs[t] == TagCentral(job, cached, b, total, k)
    ensures Leads(y, y', t) && TagsWritten(y, y', t, job, b)
    decreases 4 - k
  {
    hide Alone, Reaches;
    AloneFacts(y, t);
    var y1, brk := GoOn(y, t);
    if k < 4 {
      y' := TagInCentral(y1, t, job, cached, b, total, k + 1);
      LeadsOn(y, y1, y', t);
    } else if cached {
      y' := TagInCache(y1, t, job, b, y1.pcs[t].total, 0);
      LeadsOn(y, y1, y', t);
    } else {
      y' := y1;
    }
  }

  /** The call for a job turns to the central heap and gets fresh memory there. */
  lemma FromCentral(y: Sys, t: nat, job: Job, cached: bool) returns (y': Sys, b: int)
    requires Alone(y, t) && y.pcs[t] == WantCentral(job, cached)
    requires !FitsIn(y.s, CENTRAL, TotalSize(4096, Need(job, cached)))
    ensures Leads(y, y', t) && b !in y.s.blocks
    ensures var n := TotalSize(4096, Need(job, cached));
            && t < |y'.pcs|
            && (if job.from == 0 then y'.pcs[t].Idle? && y'.s.blocks == y.s.blocks[b := Block(n, Live)]
                else y'.pcs[t] == Copying(job, b) && y'.s.blocks == y.s.blocks[b := Block(n, Held(t))])
  {
    hide Alone, Reaches, TotalSize;
    AloneFacts(y, t);
    var y1, _ := GoOn(y, t);
    AloneFacts(y1, t);
    var y2, brk := GoOn(y1, t);
    b := brk;
    y' := TagInCentral(y2, t, job, cached, b, y2.pcs[t].total, 0);
    LeadsOn(y, y1, y2, t);
    LeadsOn(y, y2, y', t);
  }

  /** malloc and realloc begin: the cache is initialized if need be. */
  lemma Begun(y: Sys, t: nat, step: Step, job: Job) returns (y': Sys)
    requires Resting(y, t) && Enabled(y, t, step)
    requires job.before == y.s.mem
    requires step == if job.from == 0 then StartMalloc(job.size) else StartRealloc(job.from, job.size)
    ensures Alone(y', t) && Reaches(y, y') && y'.home == y.home && |y'.pcs| == |y.pcs|
    ensures y'.pcs[t] == if job.size > THRESHOLD then WantCentral(job, false) else WantCache(job)
    ensures y'.inited == if job.size > THRESHOLD || y.inited[y.home[t]] then y.inited else y.inited[y.home[t] := true]
    ensures Changed(y, t, step, y'.s.blocks)
  {
    hide Inv, LocksOk, PcsOk, HandsOk, InitOk, Reaches, Changed, Wiped, Runnable;
    StepKeeps(y, t, step);
    StepChanges(y, t, step);
    ReachesStep(y, t, step);
    y' := Do(y, t, step);
  }

  lemma FitsSame(s: State, s': State)
    requires s'.blocks == s.blocks
    ensures forall h, n :: FitsIn(s', h, n) <==> FitsIn(s, h, n)
  {
  }

  /** malloc(size) of a small object when nothing fits anywhere: a fresh block of whole pages. */
  lemma MallocFresh(y: Sys, t: nat, size: nat) returns (y': Sys, b: int)
    requires Resting(y, t) && 0 < size <= THRESHOLD && !FitsIn(y.s, y.home[t], TotalSize(8, size))
    requires !FitsIn(y.s, CENTRAL, TotalSize(4096, TotalSize(8, size)))
    ensures Resting(y', t) && Reaches(y, y') && y'.home == y.home && |y'.pcs| == |y.pcs|
    ensures y'.inited == y.inited[y.home[t] := true]
    ensures b !in y.s.blocks && y'.s.blocks == y.s.blocks[b := Block(TotalSize(4096, TotalSize(8, size)), Live)]
  {
    hide Alone, Reaches, TotalSize, FitsIn;
    AloneFacts(y, t);
    var job := Job(size, 0, y.s.mem);
    var y1 := Begun(y, t, StartMalloc(size), job);
    FitsSame(y.s, y1.s);
    AloneFacts(y1, t);
    var y2, _ := GoOn(y1, t);
    FitsSame(y.s, y2.s);
    AloneFacts(y2, t);
    var y3, _ := GoOn(y2, t);
    FitsSame(y.s, y3.s);
    AloneFacts(y3, t);
    y', b := FromCentral(y3, t, job, true);
    ReachesOn(y, y1, y2);
    ReachesOn(y, y2, y3);
    ReachesOn(y, y3, y');
  }

  lemma TookThenHanded(bs: Blocks, bs1: Blocks, bs2: Blocks, c: nat, b: int, n: int, t: nat)
    requires n > 0 && TookBlock(bs, bs1, c, 8, b, n, Held(t)) && Rehanded(bs1, bs2, b, Live)
    ensures TookBlock(bs, bs2, c, 8, b, n, Live)
  {
    hide LeastFit, OwnClassServes;
    TookFacts(bs, bs1, c, 8, b, n, Held(t));
  }

  /** malloc(size) of a small object from the thread's own, initialized cache. */
  lemma MallocHit(y: Sys, t: nat, size: nat) returns (y': Sys, b: int)
    requires Resting(y, t) && y.inited[y.home[t]] && 0 < size <= THRESHOLD && FitsIn(y.s, y.home[t], TotalSize(8, size))
    ensures Resting(y', t) && Leads(y, y', t)
    ensures TookBlock(y.s.blocks, y'.s.blocks, y.home[t], 8, b, TotalSize(8, size), Live)
  {
    hide Alone, Reaches, TotalSize, FitsIn, TookBlock;
    AloneFacts(y, t);
    TotalSizeFacts(8, size);
    var job := Job(size, 0, y.s.mem);
    var y1 := Begun(y, t, StartMalloc(size), job);
    FitsSame(y.s, y1.s);
    AloneFacts(y1, t);
    var y2, _ := GoOn(y1, t);
    FitsSame(y.s, y2.s);
    AloneFacts(y2, t);
    var y3, _ := GoOn(y2, t);
    b := y3.pcs[t].block;
    y' := TagInCache(y3, t, job, b, y3.pcs[t].total, 0);
    TookThenHanded(y.s.blocks, y3.s.blocks, y'.s.blocks, y.home[t], b, TotalSize(8, size), t);
    ReachesOn(y, y1, y2);
    ReachesOn(y, y2, y3);
    ReachesOn(y, y3, y');
  }

  /** The block size of an object of q times 16384 bytes. */
  function ThresholdBlock(q: nat): (size: int) {
    2 * TAG + q * 16384
  }

  /** A block of this size goes to the central heap when it is freed. */
  ghost predicate CentralSized(size: int) {
    exists q: nat :: size == ThresholdBlock(q)
  }

  lemma CentralSizedIff(y: Sys, t: nat, size: int)
    requires t < |y.home| && y.home[t] < CACHES && size >= 2 * TAG
    ensures FreeHeap(y, t, size) == if CentralSized(size) then CENTRAL else y.home[t]
  {
    if FreeHeap(y, t, size) == CENTRAL {
      assert size == ThresholdBlock((size - 2 * TAG) / THRESHOLD);
    }
  }

  /** free(b): the block goes to the central heap exactly if its object size is a multiple of 16384,
      and otherwise to the cache of the thread that frees it, whoever allocated it. */
  lemma FreeCall(y: Sys, t: nat, b: int) returns (y': Sys)
    requires Resting(y, t) && Enabled(y, t, StartFree(b)) && b in y.s.blocks
    ensures Resting(y', t) && Leads(y, y', t)
    ensures Rehanded(y.s.blocks, y'.s.blocks, b, Free(if CentralSized(y.s.blocks[b].size) then CENTRAL else y.home[t]))
  {
    hide Alone, Reaches, CentralSized;
    AloneFacts(y, t);
    BlockSize(y, t, b);
    CentralSizedIff(y, t, y.s.blocks[b].size);
    var y1, h := FreeBegun(y, t, b);
    AloneFacts(y1, t);
    var y2, _ := GoOn(y1, t);
    AloneFacts(y2, t);
    var y3, _ := GoOn(y2, t);
    y' := y3;
    LeadsOn(y, y1, y2, t);
    LeadsOn(y, y2, y', t);
  }

  lemma BlockSize(y: Sys, t: nat, b: int)
    requires Alone(y, t) && b in y.s.blocks
    ensures y.s.blocks[b].size >= MIN_BLOCK
  {
    GeometryOf(y.s, b);
  }

  lemma FreeBegun(y: Sys, t: nat, b: int) returns (y': Sys, h: nat)
    requires Resting(y, t) && Enabled(y, t, StartFree(b)) && b in y.s.blocks
    ensures Leads(y, y', t) && t < |y'.pcs| && y'.pcs[t] == WantFree(h, b) && h == FreeHeap(y, t, y.s.blocks[b].size)
    ensures Rehanded(y.s.blocks, y'.s.blocks, b, Held(t))
  {
    hide Inv, LocksOk, PcsOk, HandsOk, InitOk, Reaches, Runnable;
    LiveTags(y.s, b);
    StepKeeps(y, t, StartFree(b));
    ReachesStep(y, t, StartFree(b));
    y', h := Do(y, t, StartFree(b)), FreeHeap(y, t, y.s.blocks[b].size);
  }

  /** realloc(b, size) to a large object when the central heap has nothing: the old block goes to
      the central heap, whatever its size. */
  lemma ReallocFresh(y: Sys, t: nat, b: int, size: nat) returns (y': Sys, b': int)
    requires Resting(y, t) && LiveAt(y.s, b) && size > THRESHOLD
    requires !FitsIn(y.s, CENTRAL, TotalSize(4096, size))
    ensures Resting(y', t) && Leads(y, y', t)
    ensures b' !in y.s.blocks && y'.s.blocks ==
              y.s.blocks[b' := Block(TotalSize(4096, size), Live)][b := y.s.blocks[b].(owner := Free(CENTRAL))]
  {
    hide Alone, Reaches, TotalSize, FitsIn;
    AloneFacts(y, t);
    var job := Job(size, b, y.s.mem);
    LiveIsPositive(y, t, b);
    var y1 := Begun(y, t, StartRealloc(b, size), job);
    RehandedFits(y.s, y1.s, b, Held(t), CENTRAL, TotalSize(4096, size));
    var y2: Sys;
    y2, b' := FromCentral(y1, t, job, false);
    AloneFacts(y2, t);
    var y3, _ := GoOn(y2, t);
    AloneFacts(y3, t);
    var y4, _ := GoOn(y3, t);
    AloneFacts(y4, t);
    var y5, _ := GoOn(y4, t);
    y' := y5;
    LeadsOn(y1, y2, y3, t);
    LeadsOn(y1, y3, y4, t);
    LeadsOn(y1, y4, y', t);
    ReachesOn(y, y1, y');
  }

  lemma LiveIsPositive(y: Sys, t: nat, b: int)
    requires Alone(y, t) && LiveAt(y.s, b)
    ensures b > 0
  {
    GeometryOf(y.s, b);
  }

  lemma RehandedFits(s: State, s': State, b: int, o: Owner, h: nat, n: int)
    requires Rehanded(s.blocks, s'.blocks, b, o) && !o.Free?
    ensures FitsIn(s', h, n) ==> FitsIn(s, h, n)
  {
  }

  /** malloc from the cache and free: what was cut off stays cut off, and both parts are in the
      thread's own cache, unless the object size is a multiple of 16384. A block that was handed
      out whole is back where it was. */
  lemma MallocThenFree(y: Sys, t: nat, size: nat) returns (y1: Sys, b: int, y2: Sys)
    requires Resting(y, t) && y.inited[y.home[t]] && 0 < size <= THRESHOLD && FitsIn(y.s, y.home[t], TotalSize(8, size))
    ensures Leads(y, y1, t) && Resting(y2, t) && Leads(y1, y2, t)
    ensures var c, bs, bs1 := y.home[t], y.s.blocks, y1.s.blocks;
            && TookBlock(bs, bs1, c, 8, b, TotalSize(8, size), Live) && b in bs && b in bs1
            && Rehanded(bs1, y2.s.blocks, b, Free(if CentralSized(bs1[b].size) then CENTRAL else c))
            && (bs1[b].size == bs[b].size && !CentralSized(bs[b].size) ==> y2.s.blocks == bs)
  {
    hide Alone, Reaches, TotalSize, FitsIn, LeastFit, OwnClassServes, CentralSized;
    AloneFacts(y, t);
    TotalSizeFacts(8, size);
    y1, b := MallocHit(y, t, size);
    TookFacts(y.s.blocks, y1.s.blocks, y.home[t], 8, b, TotalSize(8, size), Live);
    AloneFacts(y1, t);
    y2 := FreeCall(y1, t, b);
  }

  /** A small object cut off the front of the one free block goes back to the thread's own cache. */
  lemma CutGoesHome(y: Sys, t: nat, f: int, z: int, size: nat) returns (y': Sys)
    requires Resting(y, t) && y.inited[y.home[t]] && Sole(y.s.blocks, y.home[t], f, z)
    requires size > 0 && TotalSize(8, size) < 8 * LAST <= z - MIN_BLOCK
    ensures Resting(y', t) && Leads(y, y', t)
    ensures var n, c := TotalSize(8, size), y.home[t];
            y'.s.blocks == y.s.blocks[f := Block(n, Free(c))][f + n := Block(z - n, Free(c))]
  {
    hide Alone, Reaches, TotalSize, FitsIn;
    AloneFacts(y, t);
    TotalSizeFacts(8, size);
    SoleFits(y.s, y.home[t], f, z, TotalSize(8, size));
    SmallRequest(size);
    var y1, b;
    y1, b, y' := MallocThenFree(y, t, size);
    SoleTaken(y.s.blocks, y1.s.blocks, y.home[t], f, z, b, TotalSize(8, size));
    SmallIsNotCentral(TotalSize(8, size));
    LeadsOn(y, y1, y', t);
  }

  lemma SmallIsNotCentral(size: int)
    requires MIN_BLOCK <= size < 16384
    ensures !CentralSized(size)
  {
  }

  // ---------- A cache block cut down ----------

  /** The one free block is f, of z bytes, in cache c. */
  ghost predicate Sole(bs: Blocks, c: nat, f: int, z: int) {
    f in bs && bs[f] == Block(z, Free(c)) && forall b :: b in bs && b != f ==> bs[b].owner.Live?
  }

  lemma SoleFits(s: State, c: nat, f: int, z: int, n: int)
    requires Sole(s.blocks, c, f, z)
    ensures FitsIn(s, c, n) <==> n <= z
    ensures forall h: nat :: h != c ==> !FitsIn(s, h, n)
  {
    assert f in s.blocks && s.blocks[f].owner == Free(c);
  }

  lemma NothingFits(s: State, h: nat, n: int)
    requires s.blocks == map[]
    ensures !FitsIn(s, h, n)
  {
  }

  /** One malloc and one free: the cache of thread t has one block, of z bytes. */
  lemma FirstBlock(y: Sys, t: nat, size: nat, z: int) returns (y': Sys, f: int)
    requires Start(y) && t < |y.pcs| && 0 < size <= THRESHOLD
    requires z == TotalSize(4096, TotalSize(8, size)) && (z - 2 * TAG) % THRESHOLD != 0
    ensures Resting(y', t) && Reaches(y, y') && y'.home == y.home && y'.inited[y'.home[t]]
    ensures Sole(y'.s.blocks, y.home[t], f, z)
  {
    hide Alone, Reaches, TotalSize, FitsIn, SysInv;
    StartRests(y, t);
    NothingFits(y.s, y.home[t], TotalSize(8, size));
    NothingFits(y.s, CENTRAL, z);
    var y1: Sys;
    y1, f := MallocFresh(y, t, size);
    AloneFacts(y1, t);
    SizeInHeader(y1, t, f);
    BlockSize(y1, t, f);
    CentralSizedIff(y1, t, z);
    y' := FreeCall(y1, t, f);
    AloneFacts(y', t);
    ReachesOn(y, y1, y');
  }

  lemma SizeInHeader(y: Sys, t: nat, b: int)
    requires Alone(y, t) && LiveAt(y.s, b)
    ensures Rd(y.s.mem, b + 8) == y.s.blocks[b].size
  {
    LiveTags(y.s, b);
  }

  lemma StartRests(y: Sys, t: nat)
    requires Start(y) && t < |y.pcs|
    ensures Resting(y, t)
  {
    hide SysInv;
    StartInv(y);
  }

  lemma SoleTaken(bs: Blocks, bs': Blocks, c: nat, f: int, z: int, b: int, n: int)
    requires n > 0 && Sole(bs, c, f, z) && TookBlock(bs, bs', c, 8, b, n, Live)
    ensures b == f
    ensures bs' == if n < 8 * LAST && z / 8 != n / 8 && z >= n + MIN_BLOCK
                   then bs[f := Block(n, Live)][f + n := Block(z - n, Free(c))] else bs[f := Block(z, Live)]
    ensures n < 8 * LAST && z / 8 != n / 8 && z >= n + MIN_BLOCK ==> f + n !in bs
  {
  }

  /** A small malloc cuts its block off the front of the one free block. */
  lemma CutOne(y: Sys, t: nat, f: int, z: int, size: nat) returns (y': Sys)
    requires Resting(y, t) && y.inited[y.home[t]] && Sole(y.s.blocks, y.home[t], f, z)
    requires size > 0 && TotalSize(8, size) < 8 * LAST <= z - MIN_BLOCK
    ensures Resting(y', t) && Leads(y, y', t)
    ensures var n := TotalSize(8, size);
            && Sole(y'.s.blocks, y.home[t], f + n, z - n)
            && f in y'.s.blocks && y'.s.blocks[f] == Block(n, Live)
  {
    hide Alone, Reaches, TotalSize, FitsIn;
    AloneFacts(y, t);
    TotalSizeFacts(8, size);
    SoleFits(y.s, y.home[t], f, z, TotalSize(8, size));
    SmallRequest(size);
    var b: int;
    y', b := MallocHit(y, t, size);
    SoleTaken(y.s.blocks, y'.s.blocks, y.home[t], f, z, b, TotalSize(8, size));
  }

  lemma SmallRequest(size: nat)
    requires TotalSize(8, size) < 8 * LAST
    ensures size <= THRESHOLD
  {
  }

  lemma {:induction false} CutMany(y: Sys, t: nat, f: int, z: int, k: nat) returns (y': Sys, f': int)
    requires Resting(y, t) && y.inited[y.home[t]] && Sole(y.s.blocks, y.home[t], f, z) && z >= 480 * k + 1024
    ensures Resting(y', t) && Leads(y, y', t) && Sole(y'.s.blocks, y.home[t], f', z - 480 * k)
    decreases k
  {
    hide Alone, Reaches, Sole, FitsIn;
    if k == 0 {
      ReachesSelf(y);
      y', f' := y, f;
    } else {
      var y1 := CutOne(y, t, f, z, 448);
      AloneFacts(y1, t);
      y', f' := CutMany(y1, t, f + 480, z - 480, k - 1);
      LeadsOn(y, y1, y', t);
    }
  }

  // ---------- The failures happen ----------

  /** In any program a history leads to a live block whose free goes to the central heap; after
      that free nobody is inside a call and the central heap's check fails. */
  lemma FreeToCentralHappens(y: Sys, t: nat) returns (y1: Sys, b: int, y2: Sys)
    requires Start(y) && t < |y.pcs|
    ensures Resting(y1, t) && Reaches(y, y1) && Enabled(y1, t, StartFree(b))
    ensures FreeHeap(y1, t, Rd(y1.s.mem, b + 8)) == CENTRAL
    ensures Resting(y2, t) && Reaches(y1, y2) && !WholePages(y2.s.blocks)
  {
    hide Alone, Reaches, Sole, FitsIn;
    var x1, f := FirstBlock(y, t, 16384, 20480);
    AloneFacts(x1, t);
    var x2, f2 := CutMany(x1, t, f, 20480, 8);
    AloneFacts(x2, t);
    var x3 := CutOne(x2, t, f2, 16640, 192);
    AloneFacts(x3, t);
    y1, b := TakeSole(x3, t, f2 + 224, 16416, 16384);
    ReachesOn(y, x1, x2);
    ReachesOn(y, x2, x3);
    ReachesOn(y, x3, y1);
    AloneFacts(y1, t);
    SizeInHeader(y1, t, b);
    assert 16416 == ThresholdBlock(1);
    y2 := FreeCall(y1, t, b);
    assert y2.s.blocks[b] == Block(16416, Free(CENTRAL));
  }

  /** A malloc that needs exactly the one free block. */
  lemma TakeSole(y: Sys, t: nat, f: int, z: int, size: nat) returns (y': Sys, b: int)
    requires Resting(y, t) && y.inited[y.home[t]] && Sole(y.s.blocks, y.home[t], f, z)
    requires 0 < size <= THRESHOLD && z == TotalSize(8, size)
    ensures Resting(y', t) && Leads(y, y', t) && LiveAt(y'.s, b) && y'.s.blocks[b].size == z
  {
    hide Alone, Reaches, TotalSize, FitsIn;
    AloneFacts(y, t);
    TotalSizeFacts(8, size);
    SoleFits(y.s, y.home[t], f, z, z);
    y', b := MallocHit(y, t, size);
    SoleTaken(y.s.blocks, y'.s.blocks, y.home[t], f, z, b, z);
  }

  /** realloc of an object that was cut off a larger block makes the check fail as well. */
  lemma ReallocToCentralHappens(y: Sys, t: nat) returns (y': Sys)
    requires Start(y) && t < |y.pcs|
    ensures Resting(y', t) && Reaches(y, y') && !WholePages(y'.s.blocks)
  {
    hide Alone, Reaches, FitsIn;
    var x1, f := FirstBlock(y, t, 1, 4096);
    AloneFacts(x1, t);
    var x2 := CutOne(x1, t, f, 4096, 1);
    AloneFacts(x2, t);
    SoleFits(x2.s, x1.home[t], f + 48, 4048, TotalSize(4096, 20000));
    var b: int;
    y', b := ReallocFresh(x2, t, f, 20000);
    assert y'.s.blocks[f] == Block(48, Free(CENTRAL));
    ReachesOn(y, x1, x2);
    ReachesOn(y, x2, y');
  }

  /** An object of one thread can be freed by another whose cache has not been initialized; by
      EarlyFreeIsLost its block is then lost with that thread's first malloc. */
  lemma EarlyFreeHappens(y: Sys, t: nat, u: nat) returns (y': Sys, b: int)
    requires Start(y) && t < |y.pcs| && u < |y.pcs| && y.home[t] != y.home[u] && !y.inited[y.home[u]]
    ensures Resting(y', t) && Reaches(y, y') && LiveAt(y'.s, b) && u < |y'.pcs| && y'.pcs[u].Idle?
    ensures FreeHeap(y', u, Rd(y'.s.mem, b + 8)) == y'.home[u] < CACHES && !y'.inited[y'.home[u]]
    ensures Linkable(Flagged(y'.s, b, u), y'.home[u], b)
    ensures var s := Wiped(Link(Flagged(y'.s, b, u), y'.home[u], b), y'.home[u]);
            s.blocks[b].owner == Free(y'.home[u]) && forall h, i, k :: !At(s, h, i, k, b)
  {
    hide Reaches, FitsIn, SysInv, Link, Flagged, Linkable, Wiped, At;
    StartRests(y, t);
    NothingFits(y.s, y.home[t], TotalSize(8, 1));
    NothingFits(y.s, CENTRAL, TotalSize(4096, TotalSize(8, 1)));
    y', b := MallocFresh(y, t, 1);
    AloneFacts(y', t);
    SizeInHeader(y', t, b);
    InvShaped(y');
    EarlyFreeIsLost(y'.s, y'.home[u], b, u);
  }
}

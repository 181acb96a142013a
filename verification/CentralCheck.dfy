/** How the steps of the two-layer allocator change the blocks, and what becomes of the central
    heap's consistency check. */
module CentralCheck {
  import opened Words
  import opened Bytes
  import opened Arena
  import opened Fit
  import opened Objects
  import opened TwoLayer
  import opened TwoLayerSteps
  import opened TwoLayerRuns

  // ---------- The blocks after a step ----------

  ghost predicate Rehanded(bs: Blocks, bs': Blocks, b: int, o: Owner) {
    b in bs && bs' == bs[b := bs[b].(owner := o)]
  }

  /** Thread t got the best fit for n bytes of heap h with grain g, whole or cut. */
  ghost predicate Taken(bs: Blocks, bs': Blocks, h: nat, g: int, n: int, t: nat) {
    exists b :: TookBlock(bs, bs', h, g, b, n, Held(t))
  }

  ghost predicate Continued(y: Sys, t: nat, brk: int, bs': Blocks)
    requires Shaped(y) && t < |y.pcs|
  {
    var bs := y.s.blocks;
    match y.pcs[t]
    case InCache(job) =>
      var n := TotalSize(8, job.size);
      if FitsIn(y.s, y.home[t], n) then Taken(bs, bs', y.home[t], 8, n, t) else bs' == bs
    case InCentral(job, cached) =>
      var n := TotalSize(4096, Need(job, cached));
      if FitsIn(y.s, CENTRAL, n) then Taken(bs, bs', CENTRAL, 4096, n, t)
      else brk !in bs && bs' == bs[brk := Block(n, Held(t))]
    case TagCentral(job, cached, b, _, k) =>
      if k >= 4 && !cached && job.from == 0 then Rehanded(bs, bs', b, Live) else bs' == bs
    case TagCache(job, b, _, k) =>
      if k >= 4 && job.from == 0 then Rehanded(bs, bs', b, Live) else bs' == bs
    case Copying(_, b) => Rehanded(bs, bs', b, Live)
    case InFree(h, b) => Rehanded(bs, bs', b, Free(h))
    case _ => bs' == bs
  }

  ghost predicate Changed(y: Sys, t: nat, step: Step, bs': Blocks)
    requires Shaped(y) && t < |y.pcs|
  {
    match step
    case StartRealloc(from, _) => Rehanded(y.s.blocks, bs', from, Held(t))
    case StartFree(b) => Rehanded(y.s.blocks, bs', b, Held(t))
    case Continue(brk) => Continued(y, t, brk, bs')
    case _ => bs' == y.s.blocks
  }

  /** What each step does to the blocks. */
  lemma StepChanges(y: Sys, t: nat, step: Step)
    requires SysInv(y) && t < |y.pcs| && Enabled(y, t, step)
    ensures Runnable(y, t) && Changed(y, t, step, Do(y, t, step).s.blocks)
  {
    hide Inv, LocksOk, PcsOk, HandsOk, InitOk, Runnable, Take, Takeable, Acquire, Link, Flagged, Copy, Continued, Fresh;
    RunnableAlways(y, t);
    match step
    case StartMalloc(size) => BeginSpares(y, t, Job(size, 0, y.s.mem));
    case StartRealloc(from, size) =>
      BeginSpares(y.(s := SetOwner(y.s, from, Held(t))), t, Job(size, from, y.s.mem));
    case StartFree(_) =>
    case Store(_, _, _) =>
    case Continue(brk) => AdvanceChanges(y, t, brk);
  }

  lemma AdvanceChanges(y: Sys, t: nat, brk: int)
    requires SysInv(y) && t < |y.pcs| && Enabled(y, t, Continue(brk)) && Runnable(y, t)
    ensures Continued(y, t, brk, Advance(y, t, brk).s.blocks)
  {
    hide Inv, LocksOk, PcsOk, HandsOk, InitOk, Ready;
    hide Take, Takeable, Acquire, Link, Linkable, Flagged, Copy, Fresh, Undisturbed;
    match y.pcs[t]
    case InCache(job) =>
      TotalSizeFacts(8, job.size);
      TakeKeeps(y.s, y.home[t], TotalSize(8, job.size), t);
    case InCentral(job, cached) =>
      TotalSizeFacts(4096, Need(job, cached));
      AcquireKeeps(y.s, CENTRAL, TotalSize(4096, Need(job, cached)), brk, t);
    case InFree(h, b) => FreeChanges(y, t);
    case _ =>
  }

  lemma FreeChanges(y: Sys, t: nat)
    requires SysInv(y) && t < |y.pcs| && y.pcs[t].InFree? && Runnable(y, t)
    ensures Rehanded(y.s.blocks, Advance(y, t, 0).s.blocks, y.pcs[t].block, Free(y.pcs[t].heap))
  {
    hide Inv, LocksOk, HandsOk, InitOk, Runnable, Link, Flagged, Linkable, Tagged, Undisturbed;
    assert PcOk(y.s, y.inited, y.home[t], t, y.pcs[t]);
    ReleaseKeeps(y.s, y.pcs[t].heap, y.pcs[t].block, t);
  }

  /** A block in use keeps its size in every step; only free blocks are cut. */
  lemma SizesStay(y: Sys, t: nat, step: Step, b: int)
    requires SysInv(y) && t < |y.pcs| && Enabled(y, t, step)
    requires b in y.s.blocks && !y.s.blocks[b].owner.Free?
    ensures Runnable(y, t)
    ensures var bs' := Do(y, t, step).s.blocks;
            b in bs' && bs'[b].size == y.s.blocks[b].size
  {
    hide SysInv, Runnable, Do, Changed;
    StepChanges(y, t, step);
    InvShaped(y);
    ChangedSizes(y, t, step, Do(y, t, step).s.blocks, b);
  }

  lemma ChangedSizes(y: Sys, t: nat, step: Step, bs': Blocks, b: int)
    requires Shaped(y) && t < |y.pcs| && Changed(y, t, step, bs') && b in y.s.blocks && !y.s.blocks[b].owner.Free?
    ensures b in bs' && bs'[b].size == y.s.blocks[b].size
  {
    hide TotalSize, FitsIn, OwnClassServes;
  }

  lemma InvShaped(y: Sys)
    requires SysInv(y)
    ensures Shaped(y) && Inv(y.s)
  {
  }

  // ---------- Whole pages ----------

  /** What the central heap's checkALL asks of the sizes on its lists. */
  ghost predicate WholePages(bs: Blocks) {
    forall b :: b in bs && bs[b].owner == Free(CENTRAL) ==> bs[b].size % 4096 == 0
  }

  lemma RehandedWhole(bs: Blocks, bs': Blocks, b: int, o: Owner)
    requires Rehanded(bs, bs', b, o) && bs[b].owner != Free(CENTRAL)
    ensures WholePages(bs') <==> WholePages(bs) && (o == Free(CENTRAL) ==> bs[b].size % 4096 == 0)
  {
    assert bs'[b] == bs[b].(owner := o);
    assert forall c :: c in bs && c != b ==> bs'[c] == bs[c];
  }

  lemma TakenWhole(bs: Blocks, bs': Blocks, h: nat, g: int, n: int, t: nat)
    requires Taken(bs, bs', h, g, n, t) && WholePages(bs) && (h == CENTRAL ==> n % 4096 == 0)
    ensures WholePages(bs')
  {
    hide OwnClassServes;
  }

  /** A thread is about to put a block on the central heap's lists. */
  predicate CentralRelease(y: Sys, t: nat, step: Step)
    requires t < |y.pcs|
  {
    step.Continue? && y.pcs[t].InFree? && y.pcs[t].heap == CENTRAL
  }

  /** Every step but a release to the central heap keeps the sizes on its lists whole pages. A
      release does exactly if the released block is. */
  lemma StepKeepsWhole(y: Sys, t: nat, step: Step)
    requires SysInv(y) && t < |y.pcs| && Enabled(y, t, step)
    ensures Runnable(y, t)
    ensures !CentralRelease(y, t, step) && WholePages(y.s.blocks) ==> WholePages(Do(y, t, step).s.blocks)
    ensures CentralRelease(y, t, step) ==>
              && y.pcs[t].block in y.s.blocks
              && (WholePages(Do(y, t, step).s.blocks) <==>
                  WholePages(y.s.blocks) && y.s.blocks[y.pcs[t].block].size % 4096 == 0)
  {
    hide Inv, LocksOk, HandsOk, InitOk, Runnable, Do, WholePages, PcOk, Continued;
    StepChanges(y, t, step);
    assert PcOk(y.s, y.inited, y.home[t], t, y.pcs[t]);
    var bs, bs' := y.s.blocks, Do(y, t, step).s.blocks;
    match step
    case StartRealloc(from, _) => RehandedWhole(bs, bs', from, Held(t));
    case StartFree(b) => RehandedWhole(bs, bs', b, Held(t));
    case Continue(brk) => ContinueKeepsWhole(y, t, brk, bs');
    case _ =>
  }

  lemma ContinueKeepsWhole(y: Sys, t: nat, brk: int, bs': Blocks)
    requires Shaped(y) && t < |y.pcs| && PcOk(y.s, y.inited, y.home[t], t, y.pcs[t]) && Continued(y, t, brk, bs')
    ensures !CentralRelease(y, t, Continue(brk)) && WholePages(y.s.blocks) ==> WholePages(bs')
    ensures CentralRelease(y, t, Continue(brk)) ==>
              && y.pcs[t].block in y.s.blocks
              && (WholePages(bs') <==> WholePages(y.s.blocks) && y.s.blocks[y.pcs[t].block].size % 4096 == 0)
  {
    hide WholePages, Taken, Tagged, JobOk, TagsUpTo, TotalSize, FitsIn;
    var bs := y.s.blocks;
    match y.pcs[t]
    case InCache(job) =>
      if Taken(bs, bs', y.home[t], 8, TotalSize(8, job.size), t) && WholePages(bs) {
        TakenWhole(bs, bs', y.home[t], 8, TotalSize(8, job.size), t);
      }
    case InCentral(job, cached) => RefillWhole(y, bs', job, cached, t, brk);
    case TagCentral(_, _, b, _, _) =>
      if bs' != bs {
        RehandedWhole(bs, bs', b, Live);
      }
    case TagCache(_, b, _, _) =>
      if bs' != bs {
        RehandedWhole(bs, bs', b, Live);
      }
    case Copying(_, b) => RehandedWhole(bs, bs', b, Live);
    case InFree(h, b) => RehandedWhole(bs, bs', b, Free(h));
    case _ =>
  }

  lemma RefillWhole(y: Sys, bs': Blocks, job: Job, cached: bool, t: nat, brk: int)
    requires Shaped(y) && t < |y.pcs| && y.pcs[t] == InCentral(job, cached) && Continued(y, t, brk, bs')
    ensures WholePages(y.s.blocks) ==> WholePages(bs')
  {
    hide Taken, TotalSize;
    var n := TotalSize(4096, Need(job, cached));
    TotalSizeFacts(4096, Need(job, cached));
    if FitsIn(y.s, CENTRAL, n) && WholePages(y.s.blocks) {
      TakenWhole(y.s.blocks, bs', CENTRAL, 4096, n, t);
    }
  }

  // ---------- Over runs ----------

  /** The central check passes at the start, at the end and all the way. */
  ghost predicate AlwaysWhole(y: Sys, run: seq<Event>)
    requires Legal(y, run)
    decreases |run|
  {
    WholePages(y.s.blocks) && (|run| > 0 ==> AlwaysWhole(Do(y, run[0].thread, run[0].step), run[1..]))
  }

  /** Every block that the run gives to the central heap is a number of whole pages. */
  ghost predicate WholeReleases(y: Sys, run: seq<Event>)
    requires Legal(y, run)
    decreases |run|
  {
    |run| > 0 ==>
      var t, step := run[0].thread, run[0].step;
      && (CentralRelease(y, t, step) ==>
            y.pcs[t].block in y.s.blocks && y.s.blocks[y.pcs[t].block].size % 4096 == 0)
      && WholeReleases(Do(y, t, step), run[1..])
  }

  /** The central heap's check passes all through a run exactly if every block that the run gives
      to that heap is a number of whole pages. */
  lemma {:induction false} CentralCheckPassesIff(y: Sys, run: seq<Event>)
    requires SysInv(y) && Legal(y, run) && WholePages(y.s.blocks)
    ensures AlwaysWhole(y, run) <==> WholeReleases(y, run)
    decreases |run|
  {
    hide SysInv, Runnable, Do, WholePages, CentralRelease;
    if |run| > 0 {
      var t, step := run[0].thread, run[0].step;
      RunnableThread(y, t);
      StepKeepsWhole(y, t, step);
      KeepsOne(y, t, step);
      var y1 := Do(y, t, step);
      if WholePages(y1.s.blocks) {
        CentralCheckPassesIff(y1, run[1..]);
      }
    }
  }

  /** From the start of the program. */
  lemma CentralCheckFromStart(y: Sys, run: seq<Event>)
    requires Start(y) && Legal(y, run)
    ensures AlwaysWhole(y, run) <==> WholeReleases(y, run)
  {
    hide SysInv, Legal;
    StartInv(y);
    CentralCheckPassesIff(y, run);
  }

  lemma RunnableThread(y: Sys, t: nat)
    requires Runnable(y, t)
    ensures t < |y.pcs| && Shaped(y)
  {
  }

  // ---------- free ----------

  /** Thread t is about to put block b of z bytes on the lists of heap h, or is done. */
  ghost predicate Releasing(y: Sys, t: nat, h: nat, b: int, z: int) {
    && t < |y.pcs|
    && (|| y.pcs[t].Idle?
        || ((y.pcs[t] == WantFree(h, b) || y.pcs[t] == InFree(h, b)) && b in y.s.blocks && y.s.blocks[b].size == z))
  }

  lemma ReleasingOnce(y: Sys, u: nat, step: Step, t: nat, h: nat, b: int, z: int)
    requires SysInv(y) && u < |y.pcs| && Enabled(y, u, step) && Releasing(y, t, h, b, z)
    requires u == t ==> step.Continue? || step.Store?
    ensures Runnable(y, u) && Releasing(Do(y, u, step), t, h, b, z)
  {
    hide Inv, LocksOk, HandsOk, InitOk, Runnable, Do, Enabled, Tagged;
    RunnableAlways(y, u);
    assert PcOk(y.s, y.inited, y.home[t], t, y.pcs[t]);
    if !y.pcs[t].Idle? {
      SizesStay(y, u, step, b);
    }
    if u != t {
      OthersStay(y, u, step, t);
    } else {
      ReleaseMoves(y, t, step);
    }
  }

  lemma OthersStay(y: Sys, u: nat, step: Step, t: nat)
    requires Runnable(y, u) && Enabled(y, u, step) && t < |y.pcs| && u != t
    ensures |Do(y, u, step).pcs| == |y.pcs| && Do(y, u, step).pcs[t] == y.pcs[t]
  {
    hide Take, Acquire, Link, Copy, Wiped;
  }

  lemma ReleaseMoves(y: Sys, t: nat, step: Step)
    requires Runnable(y, t) && Enabled(y, t, step) && (step.Continue? || step.Store?)
    requires y.pcs[t].Idle? || y.pcs[t].WantFree? || y.pcs[t].InFree?
    ensures var pc, pcs' := y.pcs[t], Do(y, t, step).pcs;
            && |pcs'| == |y.pcs|
            && (pcs'[t] == pc || pcs'[t].Idle? || (pc.WantFree? && pcs'[t] == InFree(pc.heap, pc.block)))
  {
    hide Link, Flagged, Linkable, Ready;
  }

  lemma {:induction false} ReleasingUntil(y: Sys, run: seq<Event>, t: nat, h: nat, b: int, z: int)
    requires SysInv(y) && Legal(y, run) && Releasing(y, t, h, b, z)
    requires forall j :: 0 <= j < |run| && run[j].thread == t ==> run[j].step.Continue? || run[j].step.Store?
    ensures SysInv(After(y, run)) && Releasing(After(y, run), t, h, b, z)
    decreases |run|
  {
    hide SysInv, Runnable, Do, Releasing;
    if |run| > 0 {
      RunnableThread(y, run[0].thread);
      ReleasingOnce(y, run[0].thread, run[0].step, t, h, b, z);
      KeepsOne(y, run[0].thread, run[0].step);
      assert forall j :: 0 <= j < |run[1..]| ==> run[1..][j] == run[j + 1];
      ReleasingUntil(Do(y, run[0].thread, run[0].step), run[1..], t, h, b, z);
    }
  }

  /** Every free that goes to the central heap makes its check fail: free tests the object size,
      without the tags, where the check asks for whole blocks. */
  lemma FreeBreaksCentralCheck(y: Sys, y1: Sys, b: int, t: nat, run: seq<Event>, brk: int)
    requires SysInv(y) && t < |y.pcs| && Enabled(y, t, StartFree(b)) && FreeHeap(y, t, Rd(y.s.mem, b + 8)) == CENTRAL
    requires Runnable(y, t) && Legal(Do(y, t, StartFree(b)), run) && y1 == After(Do(y, t, StartFree(b)), run)
    requires forall j :: 0 <= j < |run| && run[j].thread == t ==> run[j].step.Continue? || run[j].step.Store?
    requires t < |y1.pcs| && y1.pcs[t].InFree?
    ensures Runnable(y1, t) && !WholePages(Advance(y1, t, brk).s.blocks)
  {
    hide SysInv, Legal, After, Runnable, Advance, WholePages, Do;
    var z := y.s.blocks[b].size;
    StartedFree(y, t, b);
    KeepsOne(y, t, StartFree(b));
    ReleasingUntil(Do(y, t, StartFree(b)), run, t, CENTRAL, b, z);
    InvShaped(y1);
    StepKeepsWhole(y1, t, Continue(brk));
    DoContinue(y1, t, brk);
  }

  lemma DoContinue(y: Sys, t: nat, brk: int)
    requires Runnable(y, t)
    ensures Do(y, t, Continue(brk)) == Advance(y, t, brk)
  {
  }

  lemma StartedFree(y: Sys, t: nat, b: int)
    requires SysInv(y) && t < |y.pcs| && Enabled(y, t, StartFree(b)) && FreeHeap(y, t, Rd(y.s.mem, b + 8)) == CENTRAL
    requires Runnable(y, t)
    ensures Releasing(Do(y, t, StartFree(b)), t, CENTRAL, b, y.s.blocks[b].size)
    ensures y.s.blocks[b].size % 4096 != 0
  {
    hide Inv, LocksOk, PcsOk, HandsOk, InitOk;
    LiveTags(y.s, b);
  }
}

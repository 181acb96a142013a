/** Thread caches over a central heap, with any number of threads. A step is what a thread
    does between two lock operations, or one store outside the locks. */
module TwoLayer {
  import opened Words
  import opened Bytes
  import opened Arena
  import opened Fit
  import opened Objects

  const CACHES := 17
  const CENTRAL := 17
  const HEAPS := 18
  const THRESHOLD := 16384
  const NOBODY := -1

  /** An allocation in progress: the request, and for realloc the object to move (0 for
      malloc) with the memory as it was at the call. */
  datatype Job = Job(size: nat, from: int, before: Mem)

  /** Where a thread is inside malloc, free or realloc. */
  datatype Pc =
    | Idle
    | WantCache(job: Job)
    | InCache(job: Job)
    | WantCentral(job: Job, cached: bool)
    | InCentral(job: Job, cached: bool)
    | TagCentral(job: Job, cached: bool, block: int, total: nat, k: nat)
    | TagCache(job: Job, block: int, total: nat, k: nat)
    | Copying(job: Job, block: int)
    | WantFree(heap: nat, block: int)
    | InFree(heap: nat, block: int)

  /** home is pthread_self() % NUMOFTHREADCACHES of each thread; lock holds the owner of each
      heap's mutex. */
  datatype Sys = Sys(s: State, inited: seq<bool>, lock: seq<int>, home: seq<nat>, pcs: seq<Pc>)

  function Grain(h: int): (g: int) {
    if h == CENTRAL then 4096 else 8
  }

  /** Bytes asked of the central heap. */
  function Need(job: Job, cached: bool): (n: nat) {
    if cached then TotalSize(8, job.size) else job.size
  }

  /** The mutex that a thread holds at pc, besides its cache's. */
  predicate Holds(pc: Pc, home: nat, h: int) {
    match pc
    case InCache(_) => h == home
    case WantCentral(_, cached) => cached && h == home
    case InCentral(_, cached) => h == CENTRAL || (cached && h == home)
    case TagCentral(_, cached, _, _, _) => cached && h == home
    case InFree(heap, _) => h == heap
    case _ => false
  }

  /** The blocks in a thread's hands at pc. */
  function Holding(pc: Pc): (r: set<int>) {
    match pc
    case Idle => {}
    case WantCache(job) => {job.from}
    case InCache(job) => {job.from}
    case WantCentral(job, _) => {job.from}
    case InCentral(job, _) => {job.from}
    case TagCentral(job, _, b, _, _) => {job.from, b}
    case TagCache(job, b, _, _) => {job.from, b}
    case Copying(job, b) => {job.from, b}
    case WantFree(_, b) => {b}
    case InFree(_, b) => {b}
  }

  // ---------- Steps ----------

  /** The k-th store of a tag. */
  function TagStore(m: Mem, b: int, size: nat, k: nat): (m': Mem) {
    if k == 0 then m[b + 8 := size]
    else if k == 1 then m[b := OBJ_ALLOCATED]
    else if k == 2 then m[b + size - 8 := size]
    else m[b + size - 16 := OBJ_ALLOCATED]
  }

  datatype Step =
    | StartMalloc(size: nat)
    | StartRealloc(from: int, size: nat)
    | StartFree(block: int)
    | Store(block: int, a: int, v: nat)
    | Continue(brk: int)

  function SetPc(y: Sys, t: nat, pc: Pc): (y': Sys)
    requires t < |y.pcs|
  {
    y.(pcs := y.pcs[t := pc])
  }

  function SetLock(y: Sys, h: nat, t: int): (y': Sys)
    requires h < |y.lock|
  {
    y.(lock := y.lock[h := t])
  }

  /** initialize() of a cache: every head becomes NULL. */
  function Wiped(s: State, c: nat): (s': State)
    requires c < |s.heaps|
  {
    s.(heaps := s.heaps[c := s.heaps[c].(heads := seq(CLASSES, _ => 0), lists := seq(CLASSES, _ => []))])
  }

  predicate Shaped(y: Sys) {
    && |y.s.heaps| == HEAPS && |y.lock| == HEAPS && |y.inited| == CACHES && |y.home| == |y.pcs|
    && (forall t :: 0 <= t < |y.home| ==> y.home[t] < CACHES)
    && (forall h :: 0 <= h < HEAPS ==> y.s.heaps[h].grain == Grain(h))
  }

  /** assignMalloc: small requests go to the thread's cache, after its initialization. */
  function Begin(y: Sys, t: nat, job: Job): (y': Sys)
    requires Shaped(y) && t < |y.pcs|
  {
    if job.size > THRESHOLD then SetPc(y, t, WantCentral(job, false))
    else
      var c := y.home[t];
      var y1 := if y.inited[c] then y else y.(s := Wiped(y.s, c), inited := y.inited[c := true]);
      SetPc(y1, t, WantCache(job))
  }

  /** free looks at the object size to pick a heap. */
  function FreeHeap(y: Sys, t: nat, size: int): (h: nat)
    requires t < |y.home|
  {
    if (size - 2 * TAG) % THRESHOLD == 0 then CENTRAL else y.home[t]
  }

  ghost predicate Enabled(y: Sys, t: nat, step: Step)
    requires Shaped(y) && t < |y.pcs|
  {
    match step
    case StartMalloc(size) => y.pcs[t].Idle? && size > 0
    case StartRealloc(from, size) => y.pcs[t].Idle? && LiveAt(y.s, from) && size > 0
    case StartFree(b) =>
      && y.pcs[t].Idle? && LiveAt(y.s, b)
      && (FreeHeap(y, t, Rd(y.s.mem, b + 8)) != CENTRAL ==> y.inited[y.home[t]])
    case Store(b, a, v) =>
      LiveAt(y.s, b) && b + TAG <= a && a + 8 <= b + y.s.blocks[b].size - TAG && a % 8 == 0
    case Continue(brk) =>
      match y.pcs[t]
      case Idle => false
      case WantCache(_) => y.lock[y.home[t]] == NOBODY
      case WantCentral(_, _) => y.lock[CENTRAL] == NOBODY
      case WantFree(h, _) => h < HEAPS && y.lock[h] == NOBODY
      case InCentral(job, cached) => Fresh(y.s.regions, brk, TotalSize(4096, Need(job, cached)))
      case _ => true
  }

  predicate Ready(s: State, h: nat, n: int, t: nat) {
    && Takeable(s, h, n, t)
    && match Take(s, h, n, t)
       case NoFit => true
       case Got(b, s') => b in s'.blocks && s'.blocks[b].size >= 0
  }

  /** What the functions below need of the state; part of every reachable one. */
  predicate Runnable(y: Sys, t: nat) {
    && Shaped(y) && t < |y.pcs|
    && match y.pcs[t]
       case InCache(job) => Ready(y.s, y.home[t], TotalSize(8, job.size), t)
       case InCentral(job, cached) => Ready(y.s, CENTRAL, TotalSize(4096, Need(job, cached)), t)
       case TagCentral(job, cached, b, total, k) => b in y.s.blocks
       case TagCache(job, b, total, k) => b in y.s.blocks
       case Copying(job, b) => b in y.s.blocks && Rd(y.s.mem, job.from + 8) >= 2 * TAG
       case WantFree(h, b) => h < HEAPS
       case InFree(h, b) => h < HEAPS && b in y.s.blocks && Linkable(Flagged(y.s, b, t), h, b)
       case _ => true
  }

  /** The tags are written: hand the block out, or go on to move the old object. */
  function HandOutOrCopy(y: Sys, t: nat, job: Job, b: int): (y': Sys)
    requires t < |y.pcs| && b in y.s.blocks
  {
    if job.from == 0 then SetPc(y.(s := SetOwner(y.s, b, Live)), t, Idle)
    else SetPc(y, t, Copying(job, b))
  }

  function Advance(y: Sys, t: nat, brk: int): (y': Sys)
    requires Runnable(y, t)
  {
    match y.pcs[t]
    case Idle => y
    case WantCache(job) => SetPc(SetLock(y, y.home[t], t), t, InCache(job))
    case InCache(job) =>
      (match Take(y.s, y.home[t], TotalSize(8, job.size), t)
       case Got(b, s') =>
         SetPc(SetLock(y.(s := s'), y.home[t], NOBODY), t, TagCache(job, b, s'.blocks[b].size, 0))
       case NoFit => SetPc(y, t, WantCentral(job, true)))
    case WantCentral(job, cached) => SetPc(SetLock(y, CENTRAL, t), t, InCentral(job, cached))
    case InCentral(job, cached) =>
      var r := Acquire(y.s, CENTRAL, TotalSize(4096, Need(job, cached)), brk, t);
      SetPc(SetLock(y.(s := r.state), CENTRAL, NOBODY), t,
            TagCentral(job, cached, r.block, r.state.blocks[r.block].size, 0))
    case TagCentral(job, cached, b, total, k) =>
      if k < 4 then
        SetPc(y.(s := y.s.(mem := TagStore(y.s.mem, b, total, k))), t, TagCentral(job, cached, b, total, k + 1))
      else if cached then
        var asked, header := TotalSize(8, job.size), Rd(y.s.mem, b + 8);
        SetPc(SetLock(y, y.home[t], NOBODY), t, TagCache(job, b, if header > asked then header else asked, 0))
      else HandOutOrCopy(y, t, job, b)
    case TagCache(job, b, total, k) =>
      if k < 4 then
        SetPc(y.(s := y.s.(mem := TagStore(y.s.mem, b, total, k))), t, TagCache(job, b, total, k + 1))
      else HandOutOrCopy(y, t, job, b)
    case Copying(job, b) =>
      var objectSize := Rd(y.s.mem, job.from + 8) - 2 * TAG;
      var n := if objectSize > job.size then job.size else objectSize;
      SetPc(y.(s := SetOwner(y.s.(mem := Copy(y.s.mem, b + TAG, job.from + TAG, n)), b, Live)), t,
            WantFree(CENTRAL, job.from))
    case WantFree(h, b) =>
      SetPc(SetLock(y, h, t), t, InFree(h, b))
    case InFree(h, b) =>
      SetPc(SetLock(y.(s := Link(Flagged(y.s, b, t), h, b)), h, NOBODY), t, Idle)
  }

  function Do(y: Sys, t: nat, step: Step): (y': Sys)
    requires Runnable(y, t)
    requires step.StartRealloc? ==> step.from in y.s.blocks
    requires step.StartFree? ==> step.block in y.s.blocks
  {
    match step
    case StartMalloc(size) => Begin(y, t, Job(size, 0, y.s.mem))
    case StartRealloc(from, size) => Begin(y.(s := SetOwner(y.s, from, Held(t))), t, Job(size, from, y.s.mem))
    case StartFree(b) =>
      SetPc(y.(s := SetOwner(y.s, b, Held(t))), t, WantFree(FreeHeap(y, t, Rd(y.s.mem, b + 8)), b))
    case Store(b, a, v) => y.(s := y.s.(mem := y.s.mem[a := v]))
    case Continue(brk) => Advance(y, t, brk)
  }

  // ---------- Invariant ----------

  ghost predicate TagsUpTo(m: Mem, b: int, size: int, k: int) {
    && (k > 0 ==> Rd(m, b + 8) == size)
    && (k > 1 ==> Rd(m, b) == OBJ_ALLOCATED)
    && (k > 2 ==> Rd(m, b + size - 8) == size)
    && (k > 3 ==> Rd(m, b + size - 16) == OBJ_ALLOCATED)
  }

  /** Thread t holds block b, which is still tagged as allocated. */
  ghost predicate HeldObject(s: State, t: nat, b: int) {
    b in s.blocks && s.blocks[b].owner == Held(t) && Tagged(s.mem, b, s.blocks[b].size, OBJ_ALLOCATED)
  }

  /** The object being moved is intact since the call. */
  ghost predicate JobOk(s: State, t: nat, job: Job) {
    && job.size > 0
    && (job.from != 0 ==>
          && HeldObject(s, t, job.from)
          && Same(job.before, s.mem, job.from, job.from + s.blocks[job.from].size))
  }

  /** Thread t holds block b for the job, with k tag words written. */
  ghost predicate NewOk(s: State, t: nat, job: Job, b: int, total: int, k: int) {
    && b in s.blocks && s.blocks[b] == Block(total, Held(t)) && b != job.from
    && total >= job.size + 2 * TAG && total >= TotalSize(8, job.size) && k <= 4 && TagsUpTo(s.mem, b, total, k)
  }

  ghost predicate PcOk(s: State, inited: seq<bool>, home: nat, t: nat, pc: Pc)
    requires home < |inited|
  {
    match pc
    case Idle => true
    case WantCache(job) => JobOk(s, t, job) && inited[home]
    case InCache(job) => JobOk(s, t, job) && inited[home]
    case WantCentral(job, cached) => JobOk(s, t, job)
    case InCentral(job, cached) => JobOk(s, t, job)
    case TagCentral(job, cached, b, total, k) => JobOk(s, t, job) && NewOk(s, t, job, b, total, k)
    case TagCache(job, b, total, k) => JobOk(s, t, job) && NewOk(s, t, job, b, total, k)
    case Copying(job, b) =>
      JobOk(s, t, job) && job.from != 0 && b in s.blocks && NewOk(s, t, job, b, s.blocks[b].size, 4)
    case WantFree(h, b) => HeldObject(s, t, b) && h < HEAPS && (h < CACHES ==> h == home && inited[h])
    case InFree(h, b) => HeldObject(s, t, b) && h < HEAPS && (h < CACHES ==> h == home && inited[h])
  }

  ghost predicate LocksOk(y: Sys)
    requires Shaped(y)
  {
    && (forall h :: 0 <= h < HEAPS ==> NOBODY <= y.lock[h] < |y.pcs|)
    && (forall t, h :: 0 <= t < |y.pcs| && 0 <= h < HEAPS ==> (Holds(y.pcs[t], y.home[t], h) <==> y.lock[h] == t))
  }

  /** A held block is in the hands of the thread that its owner names. */
  ghost predicate HandsOk(y: Sys) {
    forall b :: b in y.s.blocks && y.s.blocks[b].owner.Held? ==>
      y.s.blocks[b].owner.thread < |y.pcs| && b in Holding(y.pcs[y.s.blocks[b].owner.thread])
  }

  ghost predicate Empty(f: Heap) {
    f.heads == seq(CLASSES, _ => 0) && f.lists == seq(CLASSES, _ => [])
  }

  /** Before its initialization a cache is empty. */
  ghost predicate InitOk(y: Sys)
    requires Shaped(y)
  {
    forall c :: 0 <= c < CACHES && !y.inited[c] ==> Empty(y.s.heaps[c])
  }

  ghost predicate PcsOk(y: Sys)
    requires Shaped(y)
  {
    forall t :: 0 <= t < |y.pcs| ==> PcOk(y.s, y.inited, y.home[t], t, y.pcs[t])
  }

  ghost predicate SysInv(y: Sys) {
    Shaped(y) && Inv(y.s) && LocksOk(y) && PcsOk(y) && HandsOk(y) && InitOk(y)
  }

  // ---------- Framing between threads ----------

  /** What thread u holds is as before. */
  ghost predicate HeldKept(s: State, s': State, u: nat) {
    forall c :: c in s.blocks && s.blocks[c].owner == Held(u) ==>
      c in s'.blocks && s'.blocks[c] == s.blocks[c] && Same(s.mem, s'.mem, c, c + s.blocks[c].size)
  }

  lemma PcFrame(s: State, s': State, inited: seq<bool>, inited': seq<bool>, home: nat, t: nat, pc: Pc)
    requires Inv(s) && home < |inited| == |inited'| && PcOk(s, inited, home, t, pc) && HeldKept(s, s', t)
    requires inited[home] ==> inited'[home]
    ensures PcOk(s', inited', home, t, pc)
  {
    hide Inv, JobOk, NewOk, HeldObject, HeldKept;
    match pc
    case Idle =>
    case WantFree(_, b) => HeldObjectKept(s, s', t, b);
    case InFree(_, b) => HeldObjectKept(s, s', t, b);
    case TagCentral(job, _, b, total, k) =>
      JobKept(s, s', t, job);
      NewKept(s, s', t, job, b, total, k);
    case TagCache(job, b, total, k) =>
      JobKept(s, s', t, job);
      NewKept(s, s', t, job, b, total, k);
    case Copying(job, b) =>
      JobKept(s, s', t, job);
      NewKept(s, s', t, job, b, s.blocks[b].size, 4);
    case _ => JobKept(s, s', t, pc.job);
  }

  lemma HeldObjectKept(s: State, s': State, t: nat, b: int)
    requires Inv(s) && HeldObject(s, t, b) && HeldKept(s, s', t)
    ensures HeldObject(s', t, b) && s'.blocks[b] == s.blocks[b] && Same(s.mem, s'.mem, b, b + s.blocks[b].size)
  {
    hide Inv;
    GeometryOf(s, b);
  }

  lemma JobKept(s: State, s': State, t: nat, job: Job)
    requires Inv(s) && JobOk(s, t, job) && HeldKept(s, s', t)
    ensures JobOk(s', t, job)
  {
    hide Inv, HeldObject;
    if job.from != 0 {
      HeldObjectKept(s, s', t, job.from);
    }
  }

  lemma NewKept(s: State, s': State, t: nat, job: Job, b: int, total: int, k: int)
    requires Inv(s) && NewOk(s, t, job, b, total, k) && HeldKept(s, s', t)
    ensures NewOk(s', t, job, b, total, k) && b in s'.blocks && s'.blocks[b].size == total
  {
    hide Inv, TotalSize;
    GeometryOf(s, b);
  }
}

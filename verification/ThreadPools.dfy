/** The plain queue pool: workers take tasks from one shared queue. */
module NormalPool {

  /** A NULL task asks the worker that takes it to stop. */
  datatype Task = Stop | Job(id: nat)

  datatype Worker = Ready | Took(task: Task) | Stopped

  datatype State = State(queue: seq<Task>, workers: seq<Worker>)

  datatype Step = Add(task: Task) | Take(w: nat) | Return(w: nat) | Quit(w: nat)

  predicate Enabled(s: State, step: Step) {
    match step
    case Add(_) => true
    case Take(w) => w < |s.workers| && s.workers[w].Ready? && |s.queue| > 0
    case Return(w) => w < |s.workers| && s.workers[w].Took? && s.workers[w].task.Job?
    case Quit(w) => w < |s.workers| && s.workers[w] == Took(Stop)
  }

  function Do(s: State, step: Step): (s': State)
    requires Enabled(s, step)
  {
    match step
    case Add(task) => s.(queue := s.queue + [task])
    case Take(w) => s.(queue := s.queue[1..], workers := s.workers[w := Took(s.queue[0])])
    case Return(w) => s.(workers := s.workers[w := Ready])
    case Quit(w) => s.(workers := s.workers[w := Stopped])
  }

  /** The steps can be taken one after the other. */
  predicate Legal(s: State, run: seq<Step>)
    decreases |run|
  {
    |run| > 0 ==> Enabled(s, run[0]) && Legal(Do(s, run[0]), run[1..])
  }

  function After(s: State, run: seq<Step>): (s': State)
    requires Legal(s, run)
    decreases |run|
  {
    if |run| == 0 then s else After(Do(s, run[0]), run[1..])
  }
}

/** The direct-handoff pool: an idle worker is given its task without going through the queue. */
module FastPool {
  import opened Sets
  import N = NormalPool
  import opened NormalPool

  /** Where a worker thread is in workerLoop. */
  datatype Pc =
    | Waiting             // under m_, has_task_ to be read
    | Reading             // has_task_ taken, task_ to be read outside m_
    | Running(task: Task) // inside the task
    | Returning           // calling queueWorker, m_dispatch_ to be taken
    | Queuing             // inside queueWorker
    | Gone                // deleted

  /** Who holds m_dispatch_, and how far it is. */
  datatype Dispatch =
    | Unlocked
    | Adding(task: Task)             // addTask, lock taken
    | Handing(task: Task, w: nat)    // addTask, worker popped, assignTask to come
    | Requeuing(w: nat)              // queueWorker, lock taken
    | Popping(w: nat)                // queueWorker, task assigned, pop to come

  /** The pool, with its history: the tasks in addTask order, the worker that each handed-out
      task went to, the task number each worker has yet to begin (NONE for none), and the task
      numbers in the order in which they were begun. */
  datatype State = State(
    dispatch: Dispatch,
    queue: seq<Task>,
    idle: seq<nat>,
    hasTask: seq<bool>,
    task: seq<Task>,
    pcs: seq<Pc>,
    added: seq<Task>,
    handed: seq<nat>,
    pending: seq<int>,
    begun: seq<nat>)

  const NONE := -1

  datatype Step =
    | AddTask(task: Task) // addTask takes m_dispatch_
    | Dispatch            // the holder of m_dispatch_ goes on
    | Go(w: nat)          // worker w goes on

  predicate Shaped(s: State) {
    |s.hasTask| == |s.task| == |s.pcs| == |s.pending|
  }

  predicate Enabled(s: State, step: Step)
    requires Shaped(s)
  {
    match step
    case AddTask(_) => s.dispatch.Unlocked?
    case Dispatch => !s.dispatch.Unlocked?
    case Go(w) =>
      && w < |s.pcs|
      && match s.pcs[w]
         case Waiting => s.hasTask[w]
         case Returning => s.dispatch.Unlocked?
         case Queuing => false
         case Gone => false
         case _ => true
  }

  /** What a step goes through exists. */
  predicate Runnable(s: State, step: Step) {
    && Shaped(s) && Enabled(s, step)
    && (step.Dispatch? ==>
          match s.dispatch
          case Unlocked => true
          case Adding(_) => forall k :: 0 <= k < |s.idle| ==> s.idle[k] < |s.pcs|
          case Handing(_, w) => w < |s.pcs|
          case Requeuing(w) => w < |s.pcs|
          case Popping(w) => w < |s.pcs| && |s.queue| > 0)
  }

  /** assignTask; the task is the next one in addTask order. */
  function Assign(s: State, w: nat, task: Task): (s': State)
    requires Shaped(s) && w < |s.pcs|
  {
    s.(task := s.task[w := task], hasTask := s.hasTask[w := true],
       handed := s.handed + [w], pending := s.pending[w := |s.handed|])
  }

  function DoDispatch(s: State): (s': State)
    requires Runnable(s, Dispatch)
  {
    match s.dispatch
    case Unlocked => s
    case Adding(task) =>
      if |s.idle| > 0 then s.(idle := s.idle[1..], dispatch := Handing(task, s.idle[0]))
      else s.(queue := s.queue + [task], dispatch := Unlocked)
    case Handing(task, w) => Assign(s, w, task).(dispatch := Unlocked)
    case Requeuing(w) =>
      if |s.queue| > 0 then Assign(s, w, s.queue[0]).(dispatch := Popping(w))
      else s.(idle := [w] + s.idle, pcs := s.pcs[w := Waiting], dispatch := Unlocked)
    case Popping(w) => s.(queue := s.queue[1..], pcs := s.pcs[w := Waiting], dispatch := Unlocked)
  }

  function DoWorker(s: State, w: nat): (s': State)
    requires Runnable(s, Go(w))
  {
    match s.pcs[w]
    case Waiting => s.(hasTask := s.hasTask[w := false], pcs := s.pcs[w := Reading])
    case Reading =>
      var s1 := s.(pending := s.pending[w := NONE],
                   begun := if s.pending[w] >= 0 then s.begun + [s.pending[w]] else s.begun);
      if s.task[w] == Stop then s1.(pcs := s.pcs[w := Gone]) else s1.(pcs := s.pcs[w := Running(s.task[w])])
    case Running(_) => s.(pcs := s.pcs[w := Returning])
    case Returning => s.(pcs := s.pcs[w := Queuing], dispatch := Requeuing(w))
    case _ => s
  }

  function Do(s: State, step: Step): (s': State)
    requires Runnable(s, step)
  {
    match step
    case AddTask(task) => s.(dispatch := Adding(task), added := s.added + [task])
    case Dispatch => DoDispatch(s)
    case Go(w) => DoWorker(s, w)
  }

  // ---------- Invariant ----------

  /** The worker has nothing given to it that it has not begun, and is not in a task. */
  predicate FreeHanded(s: State, w: nat)
    requires Shaped(s) && w < |s.pcs|
  {
    !s.hasTask[w] && s.pending[w] == NONE && !s.pcs[w].Reading? && !s.pcs[w].Running? && !s.pcs[w].Gone?
  }

  /** The worker that m_dispatch_'s holder is dealing with. */
  predicate InHand(s: State, w: nat) {
    match s.dispatch
    case Handing(_, u) => u == w
    case Requeuing(u) => u == w
    case Popping(u) => u == w
    case _ => false
  }

  ghost predicate WorkerOk(s: State, w: nat)
    requires Shaped(s) && w < |s.pcs|
  {
    && (s.pending[w] == NONE || 0 <= s.pending[w] < |s.handed|)
    && (s.pending[w] != NONE <==> s.hasTask[w] || s.pcs[w].Reading?)
    && (s.pending[w] != NONE ==>
          && s.handed[s.pending[w]] == w && s.pending[w] !in s.begun
          && s.pending[w] < |s.added| && s.task[w] == s.added[s.pending[w]])
    && (s.hasTask[w] ==> s.pcs[w].Waiting? || s.dispatch == Popping(w))
    && (s.pcs[w].Running? ==> s.pcs[w].task.Job?)
    && (w in s.idle ==> s.pcs[w].Waiting? && !s.hasTask[w] && !InHand(s, w))
    && (s.pcs[w].Waiting? && !s.hasTask[w] ==> w in s.idle || InHand(s, w))
    && (s.pcs[w].Queuing? <==> s.dispatch == Requeuing(w) || s.dispatch == Popping(w))
    && (s.dispatch == Popping(w) ==> s.hasTask[w])
    && (s.dispatch.Handing? && s.dispatch.w == w ==> s.pcs[w].Waiting? && !s.hasTask[w])
  }

  /** How many of the added tasks are not yet in the hands of a worker or in the queue. */
  ghost predicate OrderOk(s: State) {
    match s.dispatch
    case Unlocked => |s.handed| <= |s.added| && s.queue == s.added[|s.handed|..]
    case Adding(task) =>
      && |s.handed| < |s.added| && s.added[|s.added| - 1] == task
      && s.queue == s.added[|s.handed|..|s.added| - 1]
    case Handing(task, w) =>
      |s.handed| == |s.added| - 1 && s.added[|s.added| - 1] == task && s.queue == [] && w < |s.pcs|
    case Requeuing(w) => |s.handed| <= |s.added| && s.queue == s.added[|s.handed|..] && w < |s.pcs|
    case Popping(w) => 0 < |s.handed| <= |s.added| && s.queue == s.added[|s.handed| - 1..] && w < |s.pcs|
  }

  ghost predicate IdleOk(s: State) {
    && (forall k :: 0 <= k < |s.idle| ==> s.idle[k] < |s.pcs|)
    && (forall j, k :: 0 <= j < k < |s.idle| ==> s.idle[j] != s.idle[k])
    && (|s.idle| > 0 ==> s.queue == [])
  }

  ghost predicate NoRepeats(q: seq<nat>) {
    forall j, k :: 0 <= j < k < |q| ==> q[j] != q[k]
  }

  lemma {:induction false} OccursOnce(q: seq<nat>, i: nat)
    requires NoRepeats(q)
    ensures multiset(q)[i] == if i in q then 1 else 0
  {
    if |q| > 0 {
      var n := |q| - 1;
      assert q == q[..n] + [q[n]];
      OccursOnce(q[..n], i);
      assert q[n] !in q[..n];
    }
  }

  /** Each handed-out task has been begun, or is the one its worker has yet to begin. */
  ghost predicate BegunOk(s: State)
    requires Shaped(s)
  {
    && (forall i :: 0 <= i < |s.handed| ==> s.handed[i] < |s.pcs| && (i in s.begun || s.pending[s.handed[i]] == i))
    && (forall i :: i in s.begun ==> i < |s.handed|)
    && NoRepeats(s.begun)
  }

  ghost predicate WorkersOk(s: State)
    requires Shaped(s)
  {
    forall w :: 0 <= w < |s.pcs| ==> WorkerOk(s, w)
  }

  ghost predicate Inv(s: State) {
    Shaped(s) && WorkersOk(s) && IdleOk(s) && OrderOk(s) && BegunOk(s)
  }

  lemma RunnableAlways(s: State, step: Step)
    requires Inv(s) && Enabled(s, step)
    ensures Runnable(s, step)
  {
  }

  lemma AddKeeps(s: State, task: Task)
    requires Inv(s) && Enabled(s, AddTask(task))
    ensures Inv(Do(s, AddTask(task)))
  {
    var s' := Do(s, AddTask(task));
    forall w | 0 <= w < |s.pcs| ensures WorkerOk(s', w) {
      assert WorkerOk(s, w);
    }
  }

  lemma WorkerTakesKeeps(s: State, w: nat)
    requires Inv(s) && Enabled(s, Go(w)) && (s.pcs[w].Waiting? || s.pcs[w].Running? || s.pcs[w].Returning?)
    ensures Inv(Do(s, Go(w)))
  {
    var s' := Do(s, Go(w));
    assert WorkerOk(s, w);
    forall u | 0 <= u < |s.pcs| ensures WorkerOk(s', u) {
      assert WorkerOk(s, u);
    }
  }

  lemma WorkerBeginsKeeps(s: State, w: nat)
    requires Inv(s) && Enabled(s, Go(w)) && s.pcs[w].Reading?
    ensures Inv(Do(s, Go(w)))
    ensures 0 <= s.pending[w] < |s.added| && s.pending[w] !in s.begun && s.task[w] == s.added[s.pending[w]]
    ensures Do(s, Go(w)).begun == s.begun + [s.pending[w]]
  {
    hide OrderOk, BegunOk, WorkerOk;
    var s' := Do(s, Go(w));
    assert WorkerOk(s, w);
    BeginsOwn(s, w);
    forall u | 0 <= u < |s.pcs| ensures WorkerOk(s', u) {
      assert WorkerOk(s, u);
      BeginsWorker(s, w, u);
    }
    BeginsOrder(s, w);
  }

  lemma BeginsOwn(s: State, w: nat)
    requires Shaped(s) && OrderOk(s) && BegunOk(s) && Enabled(s, Go(w)) && s.pcs[w].Reading? && WorkerOk(s, w)
    ensures 0 <= s.pending[w] < |s.added| && s.pending[w] !in s.begun && s.task[w] == s.added[s.pending[w]]
    ensures Do(s, Go(w)).begun == s.begun + [s.pending[w]] && BegunOk(Do(s, Go(w)))
  {
  }

  lemma BeginsWorker(s: State, w: nat, u: nat)
    requires Shaped(s) && Enabled(s, Go(w)) && s.pcs[w].Reading? && u < |s.pcs| && WorkerOk(s, w) && WorkerOk(s, u)
    ensures WorkerOk(Do(s, Go(w)), u)
  {
  }

  lemma BeginsOrder(s: State, w: nat)
    requires Shaped(s) && OrderOk(s) && Enabled(s, Go(w)) && s.pcs[w].Reading?
    ensures OrderOk(Do(s, Go(w)))
  {
  }

  lemma AddingKeeps(s: State)
    requires Inv(s) && s.dispatch.Adding?
    ensures Inv(Do(s, Dispatch))
  {
    var s' := Do(s, Dispatch);
    assert s.added[|s.handed|..] == s.added[|s.handed|..|s.added| - 1] + [s.dispatch.task];
    forall u | 0 <= u < |s.pcs| ensures WorkerOk(s', u) {
      assert WorkerOk(s, u);
    }
  }

  /** assignTask gives the next task in order to a worker with empty hands. */
  lemma AssignKeeps(s: State, w: nat)
    requires Shaped(s) && w < |s.pcs| && BegunOk(s) && WorkerOk(s, w) && FreeHanded(s, w)
    requires |s.handed| < |s.added|
    ensures BegunOk(Assign(s, w, s.added[|s.handed|]))
  {
  }

  lemma HandingKeeps(s: State)
    requires Inv(s) && s.dispatch.Handing?
    ensures Inv(Do(s, Dispatch))
    ensures FreeHanded(s, s.dispatch.w) && s.pcs[s.dispatch.w].Waiting?
  {
    var s' := Do(s, Dispatch);
    var w := s.dispatch.w;
    assert WorkerOk(s, w);
    AssignKeeps(s, w);
    forall u | 0 <= u < |s.pcs| ensures WorkerOk(s', u) {
      assert WorkerOk(s, u);
    }
  }

  lemma RequeuingKeeps(s: State)
    requires Inv(s) && s.dispatch.Requeuing?
    ensures Inv(Do(s, Dispatch))
    ensures FreeHanded(s, s.dispatch.w) && s.pcs[s.dispatch.w].Queuing?
  {
    var s' := Do(s, Dispatch);
    var w := s.dispatch.w;
    assert WorkerOk(s, w);
    if |s.queue| > 0 {
      assert s.queue[0] == s.added[|s.handed|];
      AssignKeeps(s, w);
    }
    forall u | 0 <= u < |s.pcs| ensures WorkerOk(s', u) {
      assert WorkerOk(s, u);
      assert u in [w] + s.idle <==> u == w || u in s.idle;
    }
  }

  lemma PoppingKeeps(s: State)
    requires Inv(s) && s.dispatch.Popping?
    ensures Inv(Do(s, Dispatch))
  {
    var s' := Do(s, Dispatch);
    assert WorkerOk(s, s.dispatch.w);
    forall u | 0 <= u < |s.pcs| ensures WorkerOk(s', u) {
      assert WorkerOk(s, u);
    }
  }

  lemma StepKeeps(s: State, step: Step)
    requires Inv(s) && Enabled(s, step)
    ensures Runnable(s, step) && Inv(Do(s, step)) && Shaped(Do(s, step)) && |Do(s, step).pcs| == |s.pcs|
  {
    RunnableAlways(s, step);
    hide Inv, WorkerOk;
    match step
    case AddTask(task) => AddKeeps(s, task);
    case Go(w) =>
      if s.pcs[w].Reading? {
        WorkerBeginsKeeps(s, w);
      } else {
        WorkerTakesKeeps(s, w);
      }
    case Dispatch =>
      match s.dispatch
      case Adding(_) => AddingKeeps(s);
      case Handing(_, _) => HandingKeeps(s);
      case Requeuing(_) => RequeuingKeeps(s);
      case Popping(_) => PoppingKeeps(s);
  }

  // ---------- The fast pool refines the plain one ----------

  function AbsWorker(s: State, w: nat): (a: N.Worker)
    requires Shaped(s) && w < |s.pcs|
  {
    if s.pending[w] != NONE then Took(s.task[w])
    else match s.pcs[w]
         case Running(task) => Took(task)
         case Gone => Stopped
         case _ => Ready
  }

  /** The plain pool that a fast pool stands for. */
  function Abs(s: State): (a: N.State)
    requires Shaped(s) && |s.handed| <= |s.added|
  {
    N.State(s.added[|s.handed|..], seq(|s.pcs|, w requires 0 <= w < |s.pcs| => AbsWorker(s, w)))
  }

  datatype Image = Same | Next(step: N.Step)

  /** What a step looks like from outside. */
  function ImageOf(s: State, step: Step): (i: Image)
    requires Shaped(s) && Enabled(s, step)
  {
    match step
    case AddTask(task) => Next(Add(task))
    case Dispatch =>
      (match s.dispatch
       case Handing(_, w) => Next(Take(w))
       case Requeuing(w) => if |s.queue| > 0 then Next(Take(w)) else Same
       case _ => Same)
    case Go(w) =>
      (match s.pcs[w]
       case Reading => if s.task[w] == Stop then Next(Quit(w)) else Same
       case Running(_) => Next(Return(w))
       case _ => Same)
  }

  /** Every step of the fast pool is a step of the plain pool or invisible in it; so tasks leave
      in addTask order, each to one worker, and a worker takes its next task only when it is ready
      for it. */
  lemma Refines(s: State, step: Step)
    requires Inv(s) && Enabled(s, step)
    ensures Runnable(s, step) && |s.handed| <= |s.added| && |Do(s, step).handed| <= |Do(s, step).added|
    ensures match ImageOf(s, step)
            case Same => Abs(Do(s, step)) == Abs(s)
            case Next(n) => N.Enabled(Abs(s), n) && Abs(Do(s, step)) == N.Do(Abs(s), n)
  {
    hide Inv, AbsWorker, WorkerImage, ImageOf, Do;
    StepKeeps(s, step);
    RefinesQueue(s, step);
    forall w: nat | w < |s.pcs| ensures AbsWorker(Do(s, step), w) == WorkerImage(s, step, w) {
      RefinesWorker(s, step, w);
    }
    ImageEnabled(s, step);
    var s', i := Do(s, step), ImageOf(s, step);
    if i.Next? {
      ImageOfDo(s, step);
      assert Abs(s').workers == N.Do(Abs(s), i.step).workers;
    } else {
      SameImage(s, step);
      assert Abs(s').workers == Abs(s).workers;
    }
  }

  lemma SameImage(s: State, step: Step)
    requires Shaped(s) && Enabled(s, step) && ImageOf(s, step).Same?
    ensures forall w: nat :: w < |s.pcs| ==> WorkerImage(s, step, w) == AbsWorker(s, w)
  {
  }

  lemma ImageOfDo(s: State, step: Step)
    requires Shaped(s) && Enabled(s, step) && ImageOf(s, step).Next? && |s.handed| <= |s.added|
    requires N.Enabled(Abs(s), ImageOf(s, step).step)
    ensures forall w: nat :: w < |s.pcs| ==>
              WorkerImage(s, step, w) == N.Do(Abs(s), ImageOf(s, step).step).workers[w]
  {
  }

  /** What becomes of worker w in the plain pool. */
  function WorkerImage(s: State, step: Step, w: nat): (a: N.Worker)
    requires Shaped(s) && Enabled(s, step) && w < |s.pcs|
  {
    match ImageOf(s, step)
    case Next(Take(u)) =>
      if w == u && |s.handed| < |s.added| then Took(s.added[|s.handed|]) else AbsWorker(s, w)
    case Next(Return(u)) => if w == u then Ready else AbsWorker(s, w)
    case Next(Quit(u)) => if w == u then Stopped else AbsWorker(s, w)
    case _ => AbsWorker(s, w)
  }

  lemma RefinesWorker(s: State, step: Step, w: nat)
    requires Inv(s) && Runnable(s, step) && w < |s.pcs|
    ensures Shaped(Do(s, step)) && |Do(s, step).pcs| == |s.pcs|
    ensures AbsWorker(Do(s, step), w) == WorkerImage(s, step, w)
  {
    hide IdleOk, BegunOk, OrderOk, WorkerOk;
    match step
    case AddTask(_) =>
    case Go(u) => RefinesGo(s, u, w);
    case Dispatch => RefinesDispatch(s, w);
  }

  lemma RefinesGo(s: State, u: nat, w: nat)
    requires Shaped(s) && WorkersOk(s) && Runnable(s, Go(u)) && w < |s.pcs|
    ensures AbsWorker(Do(s, Go(u)), w) == WorkerImage(s, Go(u), w)
  {
    assert WorkerOk(s, u);
  }

  lemma RefinesDispatch(s: State, w: nat)
    requires Inv(s) && Runnable(s, Dispatch) && w < |s.pcs|
    ensures AbsWorker(Do(s, Dispatch), w) == WorkerImage(s, Dispatch, w)
  {
    hide IdleOk, BegunOk, WorkerOk, OrderOk, WorkerImage, AbsWorker, Do;
    assert WorkerOk(s, w);
    match s.dispatch
    case Handing(_, _) => RefinesHanding(s, w);
    case _ => RefinesRest(s, w);
  }

  lemma RefinesHanding(s: State, w: nat)
    requires Shaped(s) && OrderOk(s) && Runnable(s, Dispatch) && s.dispatch.Handing? && w < |s.pcs| && WorkerOk(s, w)
    ensures AbsWorker(Do(s, Dispatch), w) == WorkerImage(s, Dispatch, w)
  {
  }

  lemma RefinesRest(s: State, w: nat)
    requires Shaped(s) && OrderOk(s) && Runnable(s, Dispatch) && !s.dispatch.Handing? && w < |s.pcs| && WorkerOk(s, w)
    ensures AbsWorker(Do(s, Dispatch), w) == WorkerImage(s, Dispatch, w)
  {
  }

  lemma RefinesQueue(s: State, step: Step)
    requires Inv(s) && Runnable(s, step)
    ensures |s.handed| <= |s.added| && |Do(s, step).handed| <= |Do(s, step).added|
    ensures var q, q' := s.added[|s.handed|..], Do(s, step).added[|Do(s, step).handed|..];
            match ImageOf(s, step)
            case Next(Add(task)) => q' == q + [task]
            case Next(Take(_)) => |q| > 0 && q' == q[1..]
            case _ => q' == q
  {
    hide BegunOk, IdleOk, WorkersOk;
  }

  lemma ImageEnabled(s: State, step: Step)
    requires Inv(s) && Runnable(s, step)
    ensures |s.handed| <= |s.added|
    ensures ImageOf(s, step).Next? ==> N.Enabled(Abs(s), ImageOf(s, step).step)
  {
    hide BegunOk, IdleOk;
    RefinesQueue(s, step);
    match step
    case AddTask(_) =>
    case Go(w) => assert WorkerOk(s, w);
    case Dispatch =>
      if s.dispatch.Handing? || s.dispatch.Requeuing? {
        assert WorkerOk(s, s.dispatch.w);
      }
  }

  // ---------- Safety of the handoff ----------

  /** Whenever m_dispatch_ is free, there are no idle workers or no queued tasks; and assignTask
      is only ever called on a worker that waits for it with no task pending or running, so the
      worker's later read of task_ outside its mutex sees the task it was given. */
  lemma HandoffIsSafe(s: State)
    requires Inv(s)
    ensures s.idle == [] || s.queue == []
    ensures s.dispatch.Handing? ==> FreeHanded(s, s.dispatch.w) && s.pcs[s.dispatch.w].Waiting?
    ensures s.dispatch.Requeuing? ==> FreeHanded(s, s.dispatch.w) && s.pcs[s.dispatch.w].Queuing?
    ensures forall w: nat :: w < |s.pcs| && s.pcs[w].Reading? ==>
              !InHand(s, w) && 0 <= s.pending[w] < |s.added| && s.task[w] == s.added[s.pending[w]]
  {
    HandsFree(s);
    forall w: nat | w < |s.pcs| && s.pcs[w].Reading?
      ensures !InHand(s, w) && 0 <= s.pending[w] < |s.added| && s.task[w] == s.added[s.pending[w]]
    {
      assert WorkerOk(s, w);
    }
  }

  lemma HandsFree(s: State)
    requires Inv(s)
    ensures s.dispatch.Handing? ==> FreeHanded(s, s.dispatch.w) && s.pcs[s.dispatch.w].Waiting?
    ensures s.dispatch.Requeuing? ==> FreeHanded(s, s.dispatch.w) && s.pcs[s.dispatch.w].Queuing?
  {
    if s.dispatch.Handing? {
      HandingKeeps(s);
    } else if s.dispatch.Requeuing? {
      RequeuingKeeps(s);
    }
  }

  // ---------- stop ----------

  /** Workers that have been told to stop. */
  function Told(s: State): (r: set<nat>)
    requires Shaped(s)
  {
    set w: nat | w < |s.pcs| && (s.pcs[w].Gone? || (s.pending[w] != NONE && s.task[w] == Stop))
  }

  /** Numbers of the stop requests handed out. */
  function StopsHanded(s: State): (r: set<nat>)
    requires |s.handed| <= |s.added|
  {
    set i: nat | i < |s.handed| && s.added[i] == Stop
  }

  /** Each stop request handed out went to a different worker. */
  ghost predicate StopsOk(s: State)
    requires Shaped(s) && |s.handed| <= |s.added|
  {
    && |StopsHanded(s)| == |Told(s)|
    && (forall i :: i in StopsHanded(s) ==> s.handed[i] in Told(s))
    && (forall i, j :: i in StopsHanded(s) && j in StopsHanded(s) && s.handed[i] == s.handed[j] ==> i == j)
  }

  lemma StopsKeep(s: State, step: Step)
    requires Inv(s) && Runnable(s, step) && |s.handed| <= |s.added| && StopsOk(s)
    ensures Shaped(Do(s, step)) && |Do(s, step).handed| <= |Do(s, step).added| && StopsOk(Do(s, step))
  {
    hide StopsOk, Told, StopsHanded, WorkerOk, OrderOk;
    StepKeeps(s, step);
    RefinesQueue(s, step);
    var i := ImageOf(s, step);
    if i.Next? && i.step.Take? {
      HandedOut(s, step);
      HandedStops(s, Do(s, step), i.step.w);
    } else {
      NotHanded(s, step);
      StopsUnmoved(s, Do(s, step));
    }
  }

  lemma StopsUnmoved(s: State, s': State)
    requires Shaped(s) && |s.handed| <= |s.added| && StopsOk(s)
    requires Shaped(s') && |s'.handed| <= |s'.added|
    requires Told(s') == Told(s) && StopsHanded(s') == StopsHanded(s) && s'.handed == s.handed
    ensures StopsOk(s')
  {
  }

  /** A step that hands nothing out. */
  lemma NotHanded(s: State, step: Step)
    requires Inv(s) && Runnable(s, step) && |s.handed| <= |s.added|
    requires !(ImageOf(s, step).Next? && ImageOf(s, step).step.Take?)
    ensures var s' := Do(s, step);
            && Shaped(s') && |s'.handed| <= |s'.added|
            && Told(s') == Told(s) && StopsHanded(s') == StopsHanded(s) && s'.handed == s.handed
  {
    hide Inv, Do, Runnable, ImageOf;
    InvShaped(s);
    RunnableEnabled(s, step);
    NothingHanded(s, step);
    var s' := Do(s, step);
    forall w: nat | w < |s.pcs| ensures w in Told(s') <==> w in Told(s) {
      ToldStays(s, step, w);
    }
    assert forall i: nat :: i in StopsHanded(s') <==> i in StopsHanded(s);
  }

  lemma NothingHanded(s: State, step: Step)
    requires Inv(s) && Runnable(s, step) && |s.handed| <= |s.added|
    requires !(ImageOf(s, step).Next? && ImageOf(s, step).step.Take?)
    ensures var s' := Do(s, step);
            && Shaped(s') && |s'.pcs| == |s.pcs| && s'.handed == s.handed && s.added <= s'.added
  {
    hide WorkersOk, IdleOk, OrderOk, BegunOk;
  }

  lemma ToldStays(s: State, step: Step, w: nat)
    requires Inv(s) && Runnable(s, step) && w < |s.pcs|
    requires !(ImageOf(s, step).Next? && ImageOf(s, step).step.Take?)
    ensures Shaped(Do(s, step)) && (w in Told(Do(s, step)) <==> w in Told(s))
  {
    hide IdleOk, OrderOk, BegunOk;
    assert WorkerOk(s, w);
  }

  /** A step that hands the next task to a worker with empty hands. */
  lemma HandedOut(s: State, step: Step)
    requires Inv(s) && Runnable(s, step) && |s.handed| <= |s.added|
    requires ImageOf(s, step).Next? && ImageOf(s, step).step.Take?
    ensures var s', w := Do(s, step), ImageOf(s, step).step.w;
            && w < |s.pcs| && Shaped(s') && |s.handed| < |s.added| && s'.added == s.added && s'.handed == s.handed + [w]
            && w !in Told(s)
            && Told(s') == Told(s) + (if s.added[|s.handed|] == Stop then {w} else {})
  {
    HandsFree(s);
    RefinesQueue(s, step);
    var s', w := Do(s, step), ImageOf(s, step).step.w;
    forall u: nat | u < |s.pcs|
      ensures u in Told(s') <==> u in Told(s) || (u == w && s.added[|s.handed|] == Stop)
    {
    }
  }

  lemma HandedStops(s: State, s': State, w: nat)
    requires Shaped(s) && |s.handed| < |s.added| && StopsOk(s) && Shaped(s')
    requires s'.added == s.added && s'.handed == s.handed + [w] && w !in Told(s)
    requires Told(s') == Told(s) + (if s.added[|s.handed|] == Stop then {w} else {})
    ensures StopsOk(s')
  {
    hide Shaped, Told, StopsHanded;
    MoreStops(s, s', w);
    StopsGrow(s.handed, s'.handed, w, StopsHanded(s), StopsHanded(s'), Told(s), Told(s'));
  }

  lemma MoreStops(s: State, s': State, w: nat)
    requires |s.handed| < |s.added| && s'.added == s.added && s'.handed == s.handed + [w]
    ensures StopsHanded(s') == StopsHanded(s) + (if s.added[|s.handed|] == Stop then {|s.handed|} else {})
    ensures forall i :: i in StopsHanded(s) ==> i < |s.handed|
  {
  }

  lemma StopsGrow(handed: seq<nat>, handed': seq<nat>, w: nat, a: set<nat>, a': set<nat>, b: set<nat>, b': set<nat>)
    requires handed' == handed + [w] && (forall i :: i in a ==> i < |handed|) && w !in b
    requires (a' == a && b' == b) || (a' == a + {|handed|} && b' == b + {w})
    requires |a| == |b| && (forall i :: i in a ==> handed[i] in b)
    requires forall i, j :: i in a && j in a && handed[i] == handed[j] ==> i == j
    ensures |a'| == |b'| && (forall i :: i in a' ==> i < |handed'| && handed'[i] in b')
    ensures forall i, j :: i in a' && j in a' && handed'[i] == handed'[j] ==> i == j
  {
  }

  // ---------- Runs ----------

  /** After the constructor: every worker waits and is in the list of idle workers. */
  predicate Start(s: State) {
    && Shaped(s) && s.dispatch.Unlocked? && s.queue == [] && s.added == [] && s.handed == [] && s.begun == []
    && |s.idle| == |s.pcs|
    && (forall k :: 0 <= k < |s.idle| ==> s.idle[k] == |s.pcs| - 1 - k)
    && (forall w :: 0 <= w < |s.pcs| ==> s.pcs[w].Waiting? && !s.hasTask[w] && s.pending[w] == NONE)
  }

  lemma StartInv(s: State)
    requires Start(s)
    ensures Inv(s) && |s.handed| <= |s.added| && StopsOk(s)
  {
    forall w: nat | w < |s.pcs| ensures WorkerOk(s, w) {
      assert s.idle[|s.pcs| - 1 - w] == w;
    }
    assert Told(s) == {} && StopsHanded(s) == {};
  }

  ghost predicate Legal(s: State, run: seq<Step>)
    decreases |run|
  {
    |run| > 0 ==> Runnable(s, run[0]) && Legal(Do(s, run[0]), run[1..])
  }

  ghost function After(s: State, run: seq<Step>): (s': State)
    requires Legal(s, run)
    decreases |run|
  {
    if |run| == 0 then s else After(Do(s, run[0]), run[1..])
  }

  lemma {:induction false} RunKeeps(s: State, run: seq<Step>)
    requires Inv(s) && |s.handed| <= |s.added| && StopsOk(s) && Legal(s, run)
    ensures var s' := After(s, run);
            Inv(s') && |s'.handed| <= |s'.added| && StopsOk(s') && |s'.pcs| == |s.pcs|
    decreases |run|
  {
    hide Inv, StopsOk, Runnable, Do;
    if |run| > 0 {
      KeepsOne(s, run[0]);
      RunKeeps(Do(s, run[0]), run[1..]);
    }
  }

  lemma KeepsOne(s: State, step: Step)
    requires Inv(s) && |s.handed| <= |s.added| && StopsOk(s) && Runnable(s, step)
    ensures var s' := Do(s, step);
            Inv(s') && Shaped(s') && |s'.handed| <= |s'.added| && StopsOk(s') && |s'.pcs| == |s.pcs|
  {
    hide Inv, StopsOk;
    StepKeeps(s, step);
    StopsKeep(s, step);
  }

  /** What a run looks like from outside. */
  ghost function Images(s: State, run: seq<Step>): (r: seq<N.Step>)
    requires Legal(s, run)
    decreases |run|
  {
    if |run| == 0 then []
    else
      var rest := Images(Do(s, run[0]), run[1..]);
      match ImageOf(s, run[0])
      case Same => rest
      case Next(step) => [step] + rest
  }

  /** Every run of the fast pool is, from outside, a run of the plain pool. */
  lemma {:induction false} RunRefines(s: State, run: seq<Step>)
    requires Inv(s) && |s.handed| <= |s.added| && Legal(s, run)
    ensures var s' := After(s, run);
            && Shaped(s') && |s'.handed| <= |s'.added|
            && N.Legal(Abs(s), Images(s, run)) && N.After(Abs(s), Images(s, run)) == Abs(s')
    decreases |run|
  {
    hide Inv, Do, ImageOf, Abs, Runnable, N.Do, N.Enabled;
    if |run| == 0 {
      InvShaped(s);
    } else {
      RunnableEnabled(s, run[0]);
      Refines(s, run[0]);
      StepKeeps(s, run[0]);
      RunRefines(Do(s, run[0]), run[1..]);
      if ImageOf(s, run[0]).Next? {
        assert Images(s, run)[1..] == Images(Do(s, run[0]), run[1..]);
      }
    }
  }

  lemma InvShaped(s: State)
    requires Inv(s)
    ensures Shaped(s)
  {
  }

  lemma RunnableEnabled(s: State, step: Step)
    requires Runnable(s, step)
    ensures Shaped(s) && Enabled(s, step)
  {
  }

  // ---------- Which worker is next ----------

  /** A worker without work: it waits and nothing has been given to it. */
  predicate Rests(s: State, w: nat)
    requires Shaped(s)
  {
    w < |s.pcs| && s.pcs[w].Waiting? && !s.hasTask[w]
  }

  /** The number of the step after which each worker last came back to rest, at holding these numbers
      before the run, which begins with step n. */
  ghost function RestTimes(s: State, run: seq<Step>, n: int, at: seq<int>): (r: seq<int>)
    requires Legal(s, run)
    decreases |run|
  {
    if |run| == 0 then at else RestTimes(Do(s, run[0]), run[1..], n + 1, NewTimes(s, run[0], n, at))
  }

  function NewTimes(s: State, step: Step, n: int, at: seq<int>): (at': seq<int>) {
    if step.Dispatch? && s.dispatch.Requeuing? && s.queue == [] && s.dispatch.w < |at| then at[s.dispatch.w := n] else at
  }

  /** The list of idle workers begins with the one that came last. */
  ghost predicate ByReturn(s: State, n: int, at: seq<int>) {
    && |at| == |s.pcs| && (forall w :: 0 <= w < |at| ==> at[w] < n)
    && (forall k :: 0 <= k < |s.idle| ==> s.idle[k] < |at|)
    && (forall j, k :: 0 <= j < k < |s.idle| ==> at[s.idle[j]] > at[s.idle[k]])
  }

  lemma ByReturnKept(s: State, step: Step, n: int, at: seq<int>)
    requires Inv(s) && Runnable(s, step) && ByReturn(s, n, at)
    ensures ByReturn(Do(s, step), n + 1, NewTimes(s, step, n, at))
  {
    hide OrderOk, BegunOk;
    if step.Dispatch? && s.dispatch.Requeuing? {
      assert WorkerOk(s, s.dispatch.w);
      assert s.dispatch.w !in s.idle;
    }
  }

  lemma {:induction false} ByReturnRun(s: State, run: seq<Step>, n: int, at: seq<int>)
    requires Inv(s) && Legal(s, run) && ByReturn(s, n, at)
    ensures Inv(After(s, run)) && ByReturn(After(s, run), n + |run|, RestTimes(s, run, n, at))
    decreases |run|
  {
    hide Inv, Do, Runnable, ByReturn, NewTimes;
    if |run| > 0 {
      RunnableEnabled(s, run[0]);
      StepKeeps(s, run[0]);
      ByReturnKept(s, run[0], n, at);
      ByReturnRun(Do(s, run[0]), run[1..], n + 1, NewTimes(s, run[0], n, at));
    }
  }

  /** The constructor has queued the workers in their order. */
  ghost function FirstTimes(n: nat): (at: seq<int>) {
    seq(n, w => w - n)
  }

  /** After any run, a task that is added while workers rest goes to the one of them that came back
      last. */
  lemma LastBackIsNext(s: State, run: seq<Step>, u: nat)
    requires Start(s) && Legal(s, run)
    requires var s' := After(s, run); Shaped(s') && s'.dispatch.Adding? && Rests(s', u)
    ensures var s', at := After(s, run), RestTimes(s, run, 0, FirstTimes(|s.pcs|));
            && Runnable(s', Dispatch)
            && var d := Do(s', Dispatch).dispatch;
            && d.Handing? && d.task == s'.dispatch.task && Rests(s', d.w)
            && |at| == |s'.pcs| && forall v: nat :: Rests(s', v) && v != d.w ==> at[v] < at[d.w]
  {
    hide Legal, After, RestTimes, OrderOk, BegunOk;
    StartInv(s);
    var at0 := FirstTimes(|s.pcs|);
    assert ByReturn(s, 0, at0);
    ByReturnRun(s, run, 0, at0);
    var s', at := After(s, run), RestTimes(s, run, 0, at0);
    RunnableAlways(s', Dispatch);
    forall v: nat | Rests(s', v) ensures v in s'.idle {
      assert WorkerOk(s', v);
    }
    assert WorkerOk(s', s'.idle[0]);
  }

  /** Nobody inside the pool can go on by itself. */
  predicate Quiet(s: State)
    requires Shaped(s)
  {
    !Enabled(s, Dispatch) && forall w: nat :: w < |s.pcs| ==> !Enabled(s, Go(w))
  }

  /** stop() from outside, after which nothing is added: jobs, then one stop request per worker.
      Whatever the interleaving was, once nothing can move any more the queue is empty, every task
      has been begun exactly once, and every worker is gone, having got exactly one stop request. */
  lemma StopDrains(s: State, run: seq<Step>, jobs: seq<Task>)
    requires Start(s) && |s.pcs| > 0 && Legal(s, run)
    requires forall i :: 0 <= i < |jobs| ==> jobs[i].Job?
    requires Shaped(After(s, run)) && Quiet(After(s, run))
    requires After(s, run).added == jobs + seq(|s.pcs|, _ => Stop)
    ensures var s' := After(s, run);
            && s'.queue == [] && |s'.handed| == |s'.added|
            && (forall i: nat :: multiset(s'.begun)[i] == if i < |s'.added| then 1 else 0)
            && (forall w: nat :: w < |s'.pcs| ==> s'.pcs[w].Gone?)
            && (forall i, j :: |jobs| <= i < j < |s'.added| ==> s'.handed[i] != s'.handed[j])
  {
    hide Inv, StopsOk, Legal, After, Quiet;
    StartInv(s);
    RunKeeps(s, run);
    QuietDrained(After(s, run), jobs);
  }

  lemma QuietDrained(s: State, jobs: seq<Task>)
    requires Inv(s) && |s.handed| <= |s.added| && StopsOk(s) && Quiet(s) && |s.pcs| > 0
    requires forall i :: 0 <= i < |jobs| ==> jobs[i].Job?
    requires s.added == jobs + seq(|s.pcs|, _ => Stop)
    ensures s.queue == [] && |s.handed| == |s.added|
    ensures forall i: nat :: multiset(s.begun)[i] == if i < |s.added| then 1 else 0
    ensures forall w: nat :: w < |s.pcs| ==> s.pcs[w].Gone?
    ensures forall i, j :: |jobs| <= i < j < |s.added| ==> s.handed[i] != s.handed[j]
  {
    QuietWorkers(s);
    SpanSize(0, |s.pcs|);
    if |s.handed| < |s.added| {
      FewerStops(s, jobs);
      LeftoversMeanGone(s);
      assert false;
    }
    AllStops(s, jobs);
    SubsetSize(Told(s), Span(0, |s.pcs|));
    forall w: nat | w < |s.pcs| ensures s.pcs[w].Gone? {
      assert w in Told(s);
    }
    BegunOnce(s);
  }

  /** With all tasks handed out and nothing pending, each has been begun, and only once. */
  lemma BegunOnce(s: State)
    requires Inv(s) && |s.handed| == |s.added| && forall w: nat :: w < |s.pcs| ==> s.pending[w] == NONE
    ensures forall i: nat :: multiset(s.begun)[i] == if i < |s.added| then 1 else 0
  {
    hide WorkersOk, IdleOk, OrderOk;
    forall i: nat ensures multiset(s.begun)[i] == if i < |s.added| then 1 else 0 {
      OccursOnce(s.begun, i);
    }
  }

  lemma LeftoversMeanGone(s: State)
    requires Inv(s) && Quiet(s) && |s.handed| < |s.added|
    ensures Told(s) == Span(0, |s.pcs|)
  {
    hide BegunOk, WorkersOk;
    QuietWorkers(s);
    assert s.queue != [];
    forall w: nat | w < |s.pcs| ensures w in Told(s) {
    }
  }

  /** In a quiet pool a worker is gone, or idle with nothing pending. */
  lemma QuietWorkers(s: State)
    requires Inv(s) && Quiet(s)
    ensures s.dispatch.Unlocked?
    ensures forall w: nat :: w < |s.pcs| ==> s.pending[w] == NONE && (s.pcs[w].Gone? || w in s.idle)
  {
    hide OrderOk, BegunOk;
    forall w: nat | w < |s.pcs| ensures s.pending[w] == NONE && (s.pcs[w].Gone? || w in s.idle) {
      assert WorkerOk(s, w) && !Enabled(s, Go(w));
    }
  }

  lemma FewerStops(s: State, jobs: seq<Task>)
    requires |s.handed| < |s.added| && s.added == jobs + seq(|s.pcs|, _ => Stop) && |s.pcs| > 0
    requires forall i :: 0 <= i < |jobs| ==> jobs[i].Job?
    ensures |StopsHanded(s)| < |s.pcs|
  {
    SpanSize(|jobs|, |s.pcs| - 1);
    forall i | i in StopsHanded(s) ensures i in Span(|jobs|, |s.pcs| - 1) {
      assert i >= |jobs|;
    }
    SubsetSize(StopsHanded(s), Span(|jobs|, |s.pcs| - 1));
  }

  lemma AllStops(s: State, jobs: seq<Task>)
    requires |s.handed| == |s.added| && s.added == jobs + seq(|s.pcs|, _ => Stop)
    ensures |StopsHanded(s)| >= |s.pcs|
    ensures forall i: nat :: |jobs| <= i < |s.added| ==> i in StopsHanded(s)
  {
    SpanSize(|jobs|, |s.pcs|);
    SubsetSize(Span(|jobs|, |s.pcs|), StopsHanded(s));
  }
}

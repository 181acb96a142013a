/** The MCS queue lock, as interleaved atomic steps of any number of threads. */
module McsLock {

  const NULL := -1

  /** Where a thread is. Got and Marked carry the predecessor that the exchange returned. */
  datatype Pc =
    | Outside                   // not using the lock
    | Cleared                   // lock: own next is NULL, exchange to come
    | Got(previous: nat)        // lock: queued behind previous, locked to be set
    | Marked(previous: nat)     // lock: locked is set, link to come
    | Spinning                  // lock: linked, reading own locked
    | Critical                  // lock returned
    | TryCas                    // unlock: read next == NULL, compare-and-swap to come
    | AwaitNext                 // unlock: swap failed, reading own next
    | Release                   // unlock: next is known, its locked to be cleared

  /** One queue node per thread; nodes, the tail and next are named by thread numbers. The
      last three fields record history: the threads between their exchange and the end of their
      unlock in exchange order, all exchanges, and all entries into the critical section. */
  datatype State = State(
    tail: int,
    locked: seq<bool>,
    next: seq<int>,
    pcs: seq<Pc>,
    queue: seq<nat>,
    exchanged: seq<nat>,
    granted: seq<nat>)

  predicate Shaped(s: State) {
    |s.locked| == |s.next| == |s.pcs|
  }

  /** The nodes that a step of thread t goes through exist. */
  predicate Runnable(s: State, t: nat) {
    && Shaped(s) && t < |s.pcs|
    && (s.pcs[t].Marked? ==> s.pcs[t].previous < |s.pcs|)
    && (s.pcs[t].Release? ==> 0 <= s.next[t] < |s.pcs|)
    && (s.pcs[t].TryCas? && s.tail == t ==> |s.queue| > 0)
    && (s.pcs[t].Release? ==> |s.queue| > 0)
    && (s.tail != NULL ==> 0 <= s.tail)
  }

  function At(s: State, t: nat, pc: Pc): (s': State)
    requires t < |s.pcs|
  {
    s.(pcs := s.pcs[t := pc])
  }

  /** One atomic step of thread t: an exchange, a store, a load of a spin loop, a compare-and-swap. */
  function Step(s: State, t: nat): (s': State)
    requires Runnable(s, t)
  {
    match s.pcs[t]
    case Outside => At(s.(next := s.next[t := NULL]), t, Cleared)
    case Cleared =>
      var s1 := s.(tail := t, queue := s.queue + [t], exchanged := s.exchanged + [t]);
      if s.tail == NULL then At(s1.(granted := s.granted + [t]), t, Critical) else At(s1, t, Got(s.tail))
    case Got(p) => At(s.(locked := s.locked[t := true]), t, Marked(p))
    case Marked(p) => At(s.(next := s.next[p := t]), t, Spinning)
    case Spinning => if s.locked[t] then s else At(s.(granted := s.granted + [t]), t, Critical)
    case Critical => At(s, t, if s.next[t] == NULL then TryCas else Release)
    case TryCas =>
      if s.tail == t then At(s.(tail := NULL, queue := s.queue[1..]), t, Outside) else At(s, t, AwaitNext)
    case AwaitNext => if s.next[t] == NULL then s else At(s, t, Release)
    case Release => At(s.(locked := s.locked[s.next[t] := false], queue := s.queue[1..]), t, Outside)
  }

  // ---------- Invariant ----------

  /** From the exchange to the end of unlock. */
  predicate Queued(pc: Pc) {
    !pc.Outside? && !pc.Cleared?
  }

  /** From the return of lock to the end of unlock. */
  predicate Holding(pc: Pc) {
    pc.Critical? || pc.TryCas? || pc.AwaitNext? || pc.Release?
  }

  ghost predicate Distinct(q: seq<nat>) {
    forall i, j :: 0 <= i < j < |q| ==> q[i] != q[j]
  }

  /** The i-th thread of the queue knows its predecessor, and its predecessor knows it once it
      has linked itself. */
  ghost predicate PlaceOk(s: State, i: int)
    requires Shaped(s) && 0 <= i < |s.queue| && forall j :: 0 <= j < |s.queue| ==> s.queue[j] < |s.pcs|
  {
    var t := s.queue[i];
    var pc := s.pcs[t];
    && (i == 0 ==> Holding(pc) || (pc.Spinning? && !s.locked[t]))
    && (i > 0 ==>
          || (pc == Got(s.queue[i - 1]))
          || (pc == Marked(s.queue[i - 1]) && s.locked[t])
          || (pc == Spinning && s.locked[t]))
    && s.next[t] == (if i + 1 < |s.queue| && s.pcs[s.queue[i + 1]].Spinning? then s.queue[i + 1] else NULL)
    && (pc.AwaitNext? ==> |s.queue| > 1)
    && (pc.Release? ==> |s.queue| > 1 && s.pcs[s.queue[1]].Spinning?)
  }

  /** The queue lists, without repetition, the threads that use the lock; tail is its end. */
  ghost predicate Members(s: State) {
    && Shaped(s)
    && (forall i :: 0 <= i < |s.queue| ==> s.queue[i] < |s.pcs|)
    && Distinct(s.queue)
    && (forall t :: 0 <= t < |s.pcs| ==> (Queued(s.pcs[t]) <==> t in s.queue))
    && (forall t :: 0 <= t < |s.pcs| && s.pcs[t].Cleared? ==> s.next[t] == NULL)
    && s.tail == (if |s.queue| == 0 then NULL else s.queue[|s.queue| - 1])
  }

  ghost predicate Places(s: State)
    requires Members(s)
  {
    forall i :: 0 <= i < |s.queue| ==> PlaceOk(s, i)
  }

  ghost predicate Inv(s: State) {
    Members(s) && Places(s) && s.exchanged == s.granted + Waiting(s)
  }

  /** The queue without a head that has been let in. */
  ghost function Waiting(s: State): (w: seq<nat>)
    requires forall i :: 0 <= i < |s.queue| ==> s.queue[i] < |s.pcs|
  {
    if |s.queue| > 0 && Holding(s.pcs[s.queue[0]]) then s.queue[1..] else s.queue
  }

  lemma RunnableAlways(s: State, t: nat)
    requires Inv(s) && t < |s.pcs|
    ensures Runnable(s, t)
  {
    if Queued(s.pcs[t]) {
      var i :| 0 <= i < |s.queue| && s.queue[i] == t;
      assert PlaceOk(s, i);
    }
  }

  lemma Position(s: State, t: nat) returns (i: int)
    requires Inv(s) && t < |s.pcs| && Queued(s.pcs[t])
    ensures 0 <= i < |s.queue| && s.queue[i] == t && PlaceOk(s, i)
    ensures Holding(s.pcs[t]) ==> i == 0
  {
    i :| 0 <= i < |s.queue| && s.queue[i] == t;
    assert PlaceOk(s, i);
  }

  // ---------- lock ----------

  lemma ClearKeeps(s: State, t: nat)
    requires Inv(s) && Runnable(s, t) && s.pcs[t].Outside?
    ensures Inv(Step(s, t))
  {
    var s' := Step(s, t);
    forall i | 0 <= i < |s'.queue| ensures PlaceOk(s', i) {
      assert PlaceOk(s, i);
    }
  }

  lemma ExchangeMembers(s: State, t: nat)
    requires Members(s) && Runnable(s, t) && s.pcs[t].Cleared?
    ensures Members(Step(s, t))
  {
  }

  lemma ExchangePlace(s: State, t: nat, i: int)
    requires Members(s) && Runnable(s, t) && s.pcs[t].Cleared? && 0 <= i <= |s.queue|
    requires i < |s.queue| ==> PlaceOk(s, i)
    ensures Members(Step(s, t)) && PlaceOk(Step(s, t), i)
  {
    ExchangeMembers(s, t);
    var s' := Step(s, t);
    assert forall j :: 0 <= j < |s.queue| ==> s'.queue[j] == s.queue[j];
  }

  lemma ExchangeKeeps(s: State, t: nat)
    requires Inv(s) && Runnable(s, t) && s.pcs[t].Cleared?
    ensures Inv(Step(s, t))
  {
    hide PlaceOk, Waiting;
    ExchangeMembers(s, t);
    var s' := Step(s, t);
    forall i | 0 <= i < |s'.queue| ensures PlaceOk(s', i) {
      ExchangePlace(s, t, i);
    }
    ExchangeHistory(s, t);
  }

  lemma ExchangeHistory(s: State, t: nat)
    requires Members(s) && s.exchanged == s.granted + Waiting(s)
    requires Runnable(s, t) && s.pcs[t].Cleared? && Members(Step(s, t))
    ensures Step(s, t).exchanged == Step(s, t).granted + Waiting(Step(s, t))
  {
    hide PlaceOk, Distinct;
    if |s.queue| > 0 {
      assert Step(s, t).queue[0] == s.queue[0];
      assert Step(s, t).queue[1..] == s.queue[1..] + [t];
    }
  }

  /** A step of a queued thread that leaves the queue as it is. */
  lemma StayKeeps(s: State, t: nat)
    requires Inv(s) && Runnable(s, t) && Queued(s.pcs[t]) && Step(s, t).queue == s.queue
    ensures Inv(Step(s, t))
  {
    hide PlaceOk;
    var s' := Step(s, t);
    StayMembers(s, t);
    var k := Position(s, t);
    forall i | 0 <= i < |s.queue| ensures PlaceOk(s', i) {
      StayPlace(s, t, k, i);
    }
    StayHistory(s, t);
  }

  lemma StayMembers(s: State, t: nat)
    requires Inv(s) && Runnable(s, t) && Queued(s.pcs[t]) && Step(s, t).queue == s.queue
    ensures Members(Step(s, t))
  {
    hide Members, Distinct;
    var i := Position(s, t);
    var x := if s.pcs[t].Marked? then s.pcs[t].previous else t;
    assert x in s.queue by {
      if s.pcs[t].Marked? {
        assert s.queue[i - 1] == x;
      }
    }
    SameMembers(s, Step(s, t), t, x);
  }

  /** Only the place of a queued thread t and the link of a queued thread x change. */
  lemma SameMembers(s: State, s': State, t: nat, x: nat)
    requires Members(s) && Shaped(s') && s'.queue == s.queue && s'.tail == s.tail && t < |s.pcs| == |s'.pcs|
    requires t in s.queue && x in s.queue && Queued(s'.pcs[t])
    requires forall u :: 0 <= u < |s.pcs| && u != t ==> s'.pcs[u] == s.pcs[u]
    requires forall u :: 0 <= u < |s.pcs| && u != x ==> s'.next[u] == s.next[u]
    ensures Members(s')
  {
  }

  lemma StayPlace(s: State, t: nat, k: int, i: int)
    requires Runnable(s, t) && Queued(s.pcs[t]) && Step(s, t).queue == s.queue
    requires Distinct(s.queue) && forall j :: 0 <= j < |s.queue| ==> s.queue[j] < |s.pcs|
    requires 0 <= k < |s.queue| && s.queue[k] == t && PlaceOk(s, k) && 0 <= i < |s.queue| && PlaceOk(s, i)
    requires (i + 1 < |s.queue| ==> PlaceOk(s, i + 1)) && s.tail == s.queue[|s.queue| - 1]
    ensures PlaceOk(Step(s, t), i)
  {
    if i != k && i + 1 != k {
      OtherPlace(s, t, k, i);
    }
  }

  /** The places that are not next to the moving thread are not concerned. */
  lemma OtherPlace(s: State, t: nat, k: int, i: int)
    requires Runnable(s, t) && Queued(s.pcs[t]) && Step(s, t).queue == s.queue
    requires Distinct(s.queue) && forall j :: 0 <= j < |s.queue| ==> s.queue[j] < |s.pcs|
    requires 0 <= k < |s.queue| && s.queue[k] == t && PlaceOk(s, k) && 0 <= i < |s.queue| && PlaceOk(s, i)
    requires i != k && i + 1 != k
    ensures PlaceOk(Step(s, t), i)
  {
  }

  lemma StayHistory(s: State, t: nat)
    requires Inv(s) && Runnable(s, t) && Queued(s.pcs[t]) && Step(s, t).queue == s.queue
    requires Members(Step(s, t))
    ensures Step(s, t).exchanged == Step(s, t).granted + Waiting(Step(s, t))
  {
    hide PlaceOk, Waiting, Step, Distinct;
    var i := Position(s, t);
    HistoryGrows(s, t, i);
  }

  lemma HistoryGrows(s: State, t: nat, i: int)
    requires Runnable(s, t) && Queued(s.pcs[t]) && Step(s, t).queue == s.queue
    requires (forall j :: 0 <= j < |s.queue| ==> s.queue[j] < |s.pcs|) && Distinct(s.queue)
    requires 0 <= i < |s.queue| && s.queue[i] == t && PlaceOk(s, i)
    requires s.exchanged == s.granted + Waiting(s)
    ensures |Step(s, t).pcs| == |s.pcs| && Step(s, t).exchanged == Step(s, t).granted + Waiting(Step(s, t))
  {
    hide Step, Waiting;
    StepMovesOne(s, t);
    if i == 0 {
      HeadHistory(s, t);
    } else {
      assert s.queue[0] != t;
      SameHistory(s, t);
      SameWaiting(s, Step(s, t));
    }
  }

  lemma SameHistory(s: State, t: nat)
    requires Runnable(s, t) && Queued(s.pcs[t]) && Step(s, t).queue == s.queue && (s.pcs[t].Spinning? ==> s.locked[t])
    ensures Step(s, t).exchanged == s.exchanged && Step(s, t).granted == s.granted
  {
  }

  lemma SameWaiting(s: State, s': State)
    requires s'.queue == s.queue && |s'.pcs| == |s.pcs| && forall j :: 0 <= j < |s.queue| ==> s.queue[j] < |s.pcs|
    requires |s.queue| > 0 ==> (Holding(s'.pcs[s.queue[0]]) <==> Holding(s.pcs[s.queue[0]]))
    ensures Waiting(s') == Waiting(s)
  {
  }

  /** The head goes on, and when it is let in the history says so. */
  lemma HeadHistory(s: State, t: nat)
    requires Runnable(s, t) && |s.queue| > 0 && s.queue[0] == t && Step(s, t).queue == s.queue
    requires forall j :: 0 <= j < |s.queue| ==> s.queue[j] < |s.pcs|
    requires |Step(s, t).pcs| == |s.pcs| && s.exchanged == s.granted + Waiting(s)
    requires Holding(s.pcs[t]) || (s.pcs[t].Spinning? && !s.locked[t])
    ensures Step(s, t).exchanged == Step(s, t).granted + Waiting(Step(s, t))
  {
    hide Distinct;
    if s.pcs[t].Spinning? {
      assert s.queue == [t] + s.queue[1..];
    } else {
      SameHistory(s, t);
      HolderStays(s, t);
      SameWaiting(s, Step(s, t));
    }
  }

  lemma HolderStays(s: State, t: nat)
    requires Runnable(s, t) && Holding(s.pcs[t]) && Step(s, t).queue == s.queue
    ensures Holding(Step(s, t).pcs[t])
  {
  }

  // ---------- unlock ----------

  /** The head leaves: the queue was just it, or its successor is told. */
  lemma LeaveMembers(s: State, t: nat)
    requires Inv(s) && Runnable(s, t) && (s.pcs[t].Release? || (s.pcs[t].TryCas? && s.tail == t))
    ensures |s.queue| > 0 && s.queue[0] == t && Members(Step(s, t))
    ensures s.pcs[t].TryCas? ==> |s.queue| == 1
    ensures s.pcs[t].Release? ==> |s.queue| > 1 && s.next[t] == s.queue[1] && s.pcs[s.queue[1]].Spinning?
  {
    var k := Position(s, t);
    var s' := Step(s, t);
    assert forall j :: 0 <= j < |s'.queue| ==> s'.queue[j] == s.queue[j + 1];
    forall u | 0 <= u < |s.pcs| ensures Queued(s'.pcs[u]) <==> u in s'.queue {
      assert u in s.queue <==> u == t || u in s.queue[1..];
    }
  }

  lemma LeavePlace(s: State, t: nat, i: int)
    requires Inv(s) && Runnable(s, t) && (s.pcs[t].Release? || (s.pcs[t].TryCas? && s.tail == t))
    requires 0 <= i < |s.queue| - 1
    ensures Members(Step(s, t)) && PlaceOk(Step(s, t), i)
  {
    LeaveMembers(s, t);
    var s' := Step(s, t);
    assert forall j :: 0 <= j < |s'.queue| ==> s'.queue[j] == s.queue[j + 1];
    assert PlaceOk(s, i + 1);
  }

  lemma LeaveKeeps(s: State, t: nat)
    requires Inv(s) && Runnable(s, t) && (s.pcs[t].Release? || (s.pcs[t].TryCas? && s.tail == t))
    ensures Inv(Step(s, t))
  {
    hide PlaceOk;
    LeaveMembers(s, t);
    var s' := Step(s, t);
    forall i | 0 <= i < |s'.queue| ensures PlaceOk(s', i) {
      LeavePlace(s, t, i);
    }
  }

  lemma StepKeeps(s: State, t: nat)
    requires Inv(s) && t < |s.pcs|
    ensures Runnable(s, t) && Inv(Step(s, t))
  {
    RunnableAlways(s, t);
    hide Inv;
    match s.pcs[t]
    case Outside => ClearKeeps(s, t);
    case Cleared => ExchangeKeeps(s, t);
    case Release => LeaveKeeps(s, t);
    case TryCas =>
      if s.tail == t {
        LeaveKeeps(s, t);
      } else {
        StayKeeps(s, t);
      }
    case _ => StayKeeps(s, t);
  }

  // ---------- Theorems ----------

  /** Any schedule: the n-th step is taken by thread schedule[n]. */
  ghost function Run(s: State, schedule: seq<nat>): (s': State)
    requires Inv(s) && forall i :: 0 <= i < |schedule| ==> schedule[i] < |s.pcs|
    ensures Inv(s') && |s'.pcs| == |s.pcs|
    decreases |schedule|
  {
    if |schedule| == 0 then s
    else
      StepKeeps(s, schedule[0]);
      StepThreads(s, schedule[0]);
      Run(Step(s, schedule[0]), schedule[1..])
  }

  lemma StepThreads(s: State, t: nat)
    requires Runnable(s, t)
    ensures |Step(s, t).pcs| == |s.pcs|
  {
  }

  /** The lock is free and nobody uses it; node contents are arbitrary. */
  predicate Unused(s: State) {
    && Shaped(s) && s.tail == NULL && s.queue == [] && s.exchanged == [] && s.granted == []
    && forall t :: 0 <= t < |s.pcs| ==> s.pcs[t].Outside?
  }

  lemma UnusedInv(s: State)
    requires Unused(s)
    ensures Inv(s)
  {
  }

  /** At most one thread is between the return of lock and the end of unlock, in every
      reachable state, however often threads come back with the same node. */
  lemma MutualExclusion(s: State, schedule: seq<nat>, t: nat, u: nat)
    requires Unused(s) && forall i :: 0 <= i < |schedule| ==> schedule[i] < |s.pcs|
    requires t < |s.pcs| && u < |s.pcs|
    ensures Inv(s)
    ensures var s' := Run(s, schedule);
            Holding(s'.pcs[t]) && Holding(s'.pcs[u]) ==> t == u
  {
    UnusedInv(s);
    var s' := Run(s, schedule);
    if Holding(s'.pcs[t]) && Holding(s'.pcs[u]) {
      var i := Position(s', t);
      var j := Position(s', u);
    }
  }

  /** Threads enter in the order of their exchanges: the entries are a prefix of the exchanges,
      and the rest is exactly the queue of those still waiting. */
  lemma FirstComeFirstServed(s: State, schedule: seq<nat>)
    requires Unused(s) && forall i :: 0 <= i < |schedule| ==> schedule[i] < |s.pcs|
    ensures Inv(s)
    ensures var s' := Run(s, schedule);
            s'.granted <= s'.exchanged && s'.exchanged[|s'.granted|..] == Waiting(s')
  {
  }

  /** What is left to do before the head of the queue is gone: its own steps, and the link of
      its successor if unlock has to wait for that. */
  function Debt(s: State): (n: nat)
    requires Shaped(s) && |s.queue| > 0 && forall i :: 0 <= i < |s.queue| ==> s.queue[i] < |s.pcs|
  {
    OwnDebt(s.pcs[s.queue[0]]) + if |s.queue| < 2 then 3 else LinkDebt(s.pcs[s.queue[1]])
  }

  function OwnDebt(pc: Pc): (n: nat) {
    match pc
    case Spinning => 5
    case Critical => 4
    case TryCas => 3
    case AwaitNext => 2
    case Release => 1
    case _ => 0
  }

  function LinkDebt(pc: Pc): (n: nat) {
    match pc
    case Got(_) => 2
    case Marked(_) => 1
    case _ => 0
  }

  /** The thread that the turn of the head waits for: the head itself, or its successor while the
      head's unlock waits for the successor's link. */
  function Helper(s: State): (t: nat)
    requires Shaped(s) && |s.queue| > 0 && s.queue[0] < |s.pcs|
  {
    if s.pcs[s.queue[0]].AwaitNext? && s.next[s.queue[0]] == NULL && |s.queue| > 1 then s.queue[1] else s.queue[0]
  }

  /** A handoff is never lost: while the lock is in use, a step of the helper ends the head's turn
      or brings the end nearer. */
  lemma Progress(s: State)
    requires Inv(s) && |s.queue| > 0
    ensures var t := Helper(s);
            && t < |s.pcs| && Runnable(s, t)
            && var s' := Step(s, t);
            s'.queue == s.queue[1..] || (s'.queue == s.queue && Debt(s') < Debt(s))
  {
    hide Waiting;
    var h := s.queue[0];
    assert PlaceOk(s, 0);
    RunnableAlways(s, h);
    if Helper(s) != h {
      assert PlaceOk(s, 1);
      RunnableAlways(s, s.queue[1]);
    }
  }

  /** No step of any thread takes the end of the head's turn further away. */
  lemma DebtNeverRises(s: State, t: nat)
    requires Inv(s) && |s.queue| > 0 && t < |s.pcs|
    ensures Runnable(s, t)
    ensures var s' := Step(s, t);
            || s'.queue == s.queue[1..]
            || (s.queue <= s'.queue && Shaped(s') && (forall i :: 0 <= i < |s'.queue| ==> s'.queue[i] < |s'.pcs|)
                && Debt(s') <= Debt(s))
  {
    hide Waiting, Debt;
    RunnableAlways(s, t);
    assert PlaceOk(s, 0);
    if !Queued(s.pcs[t]) {
      OutsiderDebt(s, t);
    } else if Step(s, t).queue == s.queue {
      InsiderDebt(s, t);
    } else {
      var i := Position(s, t);
    }
  }

  lemma OutsiderDebt(s: State, t: nat)
    requires Members(s) && |s.queue| > 0 && Runnable(s, t) && !Queued(s.pcs[t])
    ensures var s' := Step(s, t);
            && s.queue <= s'.queue && Shaped(s') && (forall i :: 0 <= i < |s'.queue| ==> s'.queue[i] < |s'.pcs|)
            && Debt(s') <= Debt(s)
  {
    hide Distinct, PlaceOk;
    assert s.queue[0] in s.queue;
    assert |s.queue| > 1 ==> s.queue[1] in s.queue;
  }

  lemma InsiderDebt(s: State, t: nat)
    requires Shaped(s) && |s.queue| > 0 && (forall i :: 0 <= i < |s.queue| ==> s.queue[i] < |s.pcs|)
    requires Runnable(s, t) && Queued(s.pcs[t]) && Step(s, t).queue == s.queue
    requires Holding(s.pcs[s.queue[0]]) || s.pcs[s.queue[0]].Spinning?
    requires |s.queue| > 1 ==> s.queue[0] != s.queue[1]
    ensures Shaped(Step(s, t)) && |Step(s, t).pcs| == |s.pcs| && Debt(Step(s, t)) <= Debt(s)
  {
    hide OwnDebt, LinkDebt;
    StepMovesOne(s, t);
    if t == s.queue[0] {
      HeadDebt(s, t);
    } else if |s.queue| > 1 && t == s.queue[1] {
      SecondDebt(s, t);
    }
  }

  lemma StepMovesOne(s: State, t: nat)
    requires Runnable(s, t)
    ensures Shaped(Step(s, t)) && Step(s, t).pcs == s.pcs[t := Step(s, t).pcs[t]]
  {
  }

  lemma HeadDebt(s: State, t: nat)
    requires Runnable(s, t) && Step(s, t).queue == s.queue && (Holding(s.pcs[t]) || s.pcs[t].Spinning?)
    ensures OwnDebt(Step(s, t).pcs[t]) <= OwnDebt(s.pcs[t])
  {
  }

  lemma SecondDebt(s: State, t: nat)
    requires Runnable(s, t) && Queued(s.pcs[t]) && Step(s, t).queue == s.queue
    ensures LinkDebt(Step(s, t).pcs[t]) <= LinkDebt(s.pcs[t])
  {
  }

  /** The head of the queue is the same thread all through the schedule. */
  ghost predicate HeadStays(s: State, schedule: seq<nat>)
    requires Inv(s) && |s.queue| > 0 && forall i :: 0 <= i < |schedule| ==> schedule[i] < |s.pcs|
    decreases |schedule|
  {
    |schedule| > 0 ==>
      (StepKeeps(s, schedule[0]);
       StepThreads(s, schedule[0]);
       var s' := Step(s, schedule[0]);
       |s'.queue| > 0 && s'.queue[0] == s.queue[0] && HeadStays(s', schedule[1..]))
  }

  /** How many steps of such a schedule are taken by the helper of the moment. */
  ghost function HelperSteps(s: State, schedule: seq<nat>): (n: nat)
    requires Inv(s) && |s.queue| > 0 && forall i :: 0 <= i < |schedule| ==> schedule[i] < |s.pcs|
    requires HeadStays(s, schedule)
    decreases |schedule|
  {
    if |schedule| == 0 then 0
    else
      StepKeeps(s, schedule[0]);
      StepThreads(s, schedule[0]);
      (if schedule[0] == Helper(s) then 1 else 0) + HelperSteps(Step(s, schedule[0]), schedule[1..])
  }

  /** Every turn ends after at most eight steps of its helper, whatever the other threads do. */
  lemma {:induction false} TurnIsBounded(s: State, schedule: seq<nat>)
    requires Inv(s) && |s.queue| > 0 && forall i :: 0 <= i < |schedule| ==> schedule[i] < |s.pcs|
    requires HeadStays(s, schedule)
    ensures HelperSteps(s, schedule) <= Debt(s) <= 8
    decreases |schedule|
  {
    hide Inv, Step, Runnable, Debt, Helper;
    DebtIsSmall(s);
    if |schedule| > 0 {
      var t := schedule[0];
      StepKeeps(s, t);
      StepThreads(s, t);
      QueueDistinct(s);
      QueueDistinct(Step(s, t));
      Progress(s);
      DebtNeverRises(s, t);
      TurnIsBounded(Step(s, t), schedule[1..]);
    }
  }

  lemma DebtIsSmall(s: State)
    requires Inv(s) && |s.queue| > 0
    ensures Debt(s) <= 8
  {
  }

  lemma QueueDistinct(s: State)
    requires Inv(s)
    ensures Distinct(s.queue) && Shaped(s) && forall i :: 0 <= i < |s.queue| ==> s.queue[i] < |s.pcs|
  {
  }
}

/** The reusable barrier made of two semaphores, for any number of threads and any number of
    uses. */
module Barrier {
  import opened Sets

  /** Where a thread is inside wait(). */
  datatype Pc =
    | Outside      // not inside wait
    | AtArrival    // sem_wait(arrival_)
    | Counting     // holds the token, counter_ += 1 to come
    | Counted      // holds the token, counter_ raised, a post to come
    | AtDeparture  // sem_wait(departure_)
    | Uncounting   // holds the token, counter_ -= 1 to come
    | Uncounted    // holds the token, counter_ lowered, a post to come

  /** arrived and departed record which threads took part in, and left, generation gen. */
  datatype State = State(
    participants: nat,
    arrival: nat,
    departure: nat,
    counter: int,
    pcs: seq<Pc>,
    gen: nat,
    arrived: set<nat>,
    departed: set<nat>)

  function At(s: State, t: nat, pc: Pc): (s': State)
    requires t < |s.pcs|
  {
    s.(pcs := s.pcs[t := pc])
  }

  predicate Enabled(s: State, t: nat)
    requires t < |s.pcs|
  {
    match s.pcs[t]
    case AtArrival => s.arrival > 0
    case AtDeparture => s.departure > 0
    case _ => true
  }

  function Step(s: State, t: nat): (s': State)
    requires t < |s.pcs| && Enabled(s, t)
  {
    match s.pcs[t]
    case Outside => At(s, t, AtArrival)
    case AtArrival => At(s.(arrival := s.arrival - 1), t, Counting)
    case Counting => At(s.(counter := s.counter + 1, arrived := s.arrived + {t}), t, Counted)
    case Counted =>
      if s.counter < s.participants then At(s.(arrival := s.arrival + 1), t, AtDeparture)
      else At(s.(departure := s.departure + 1), t, AtDeparture)
    case AtDeparture => At(s.(departure := s.departure - 1), t, Uncounting)
    case Uncounting => At(s.(counter := s.counter - 1, departed := s.departed + {t}), t, Uncounted)
    case Uncounted =>
      if s.counter > 0 then At(s.(departure := s.departure + 1), t, Outside)
      else At(s.(arrival := s.arrival + 1, gen := s.gen + 1, arrived := {}, departed := {}), t, Outside)
  }

  // ---------- Invariant ----------

  predicate HasToken(pc: Pc) {
    pc.Counting? || pc.Counted? || pc.Uncounting? || pc.Uncounted?
  }

  /** Counted in and not yet counted out. */
  predicate Inside(pc: Pc) {
    pc.Counted? || pc.AtDeparture? || pc.Uncounting?
  }

  function Insiders(s: State): (r: set<nat>) {
    set t | 0 <= t < |s.pcs| && Inside(s.pcs[t])
  }

  /** Where the single token is. */
  datatype Token = OnArrival | OnDeparture | With(thread: nat)

  ghost predicate TokenAt(s: State, k: Token) {
    && s.arrival == (if k.OnArrival? then 1 else 0)
    && s.departure == (if k.OnDeparture? then 1 else 0)
    && (k.With? ==> k.thread < |s.pcs|)
    && (forall t :: 0 <= t < |s.pcs| ==> (HasToken(s.pcs[t]) <==> k == With(t)))
  }

  /** Threads are being counted out. */
  predicate Departing(s: State, k: Token) {
    k.OnDeparture? || (k.With? && k.thread < |s.pcs| && (s.pcs[k.thread].Uncounting? || s.pcs[k.thread].Uncounted?))
  }

  /** The counter and the record of the generation, given who is inside. */
  ghost predicate RecordOk(s: State, k: Token, inside: set<nat>) {
    && s.participants > 0
    && s.counter == |inside|
    && s.arrived == inside + s.departed
    && inside !! s.departed
    && (forall t :: t in s.departed ==> t < |s.pcs|)
    && (forall t :: 0 <= t < |s.pcs| && s.pcs[t].Uncounted? ==> t in s.departed)
    && (if Departing(s, k)
        then |s.arrived| == s.participants && (k.OnDeparture? ==> s.counter > 0)
        else s.departed == {} && |s.arrived| <= s.participants
             && (|s.arrived| == s.participants ==> k.With? && k.thread < |s.pcs| && s.pcs[k.thread].Counted?))
  }

  ghost predicate InvAt(s: State, k: Token) {
    TokenAt(s, k) && RecordOk(s, k, Insiders(s))
  }

  ghost predicate Inv(s: State) {
    exists k :: InvAt(s, k)
  }

  /** The token after a step of thread t. */
  function TokenAfter(s: State, t: nat, k: Token): (k': Token)
    requires t < |s.pcs|
  {
    match s.pcs[t]
    case Outside => k
    case AtArrival => With(t)
    case Counting => k
    case Counted => if s.counter < s.participants then OnArrival else OnDeparture
    case AtDeparture => With(t)
    case Uncounting => k
    case Uncounted => if s.counter > 0 then OnDeparture else OnArrival
  }

  lemma TokenKeeps(s: State, t: nat, k: Token)
    requires TokenAt(s, k) && t < |s.pcs| && Enabled(s, t)
    ensures TokenAt(Step(s, t), TokenAfter(s, t, k))
    ensures HasToken(s.pcs[t]) <==> k == With(t)
    ensures forall u :: 0 <= u < |s.pcs| && s.pcs[u].Uncounted? ==> k == With(u)
    ensures (s.arrival > 0 <==> k.OnArrival?) && (s.departure > 0 <==> k.OnDeparture?)
  {
  }

  lemma InsidersStep(s: State, t: nat)
    requires t < |s.pcs| && Enabled(s, t)
    ensures var s' := Step(s, t);
            && Insiders(s') == (match s.pcs[t]
                                case Counting => Insiders(s) + {t}
                                case Uncounting => Insiders(s) - {t}
                                case _ => Insiders(s))
            && (t in Insiders(s) <==> Inside(s.pcs[t]))
  {
  }

  lemma ArrivalRecord(s: State, t: nat, k: Token, inside: set<nat>)
    requires RecordOk(s, k, inside) && t < |s.pcs| && Enabled(s, t)
    requires s.pcs[t].Outside? || s.pcs[t].AtArrival?
    requires HasToken(s.pcs[t]) <==> k == With(t)
    requires forall u :: 0 <= u < |s.pcs| && s.pcs[u].Uncounted? ==> k == With(u)
    requires (s.arrival > 0 <==> k.OnArrival?) && (s.departure > 0 <==> k.OnDeparture?)
    requires t in inside <==> Inside(s.pcs[t])
    ensures RecordOk(Step(s, t), TokenAfter(s, t, k), inside)
  {
  }

  lemma CountingRecord(s: State, t: nat, k: Token, inside: set<nat>)
    requires RecordOk(s, k, inside) && t < |s.pcs| && s.pcs[t].Counting? && k == With(t) && t !in inside
    requires forall u :: 0 <= u < |s.pcs| && s.pcs[u].Uncounted? ==> k == With(u)
    ensures RecordOk(Step(s, t), TokenAfter(s, t, k), inside + {t})
  {
    assert Step(s, t).arrived == s.arrived + {t};
  }

  lemma CountedRecord(s: State, t: nat, k: Token, inside: set<nat>)
    requires RecordOk(s, k, inside) && t < |s.pcs| && Enabled(s, t)
    requires s.pcs[t].Counted? || s.pcs[t].AtDeparture?
    requires HasToken(s.pcs[t]) <==> k == With(t)
    requires forall u :: 0 <= u < |s.pcs| && s.pcs[u].Uncounted? ==> k == With(u)
    requires (s.arrival > 0 <==> k.OnArrival?) && (s.departure > 0 <==> k.OnDeparture?)
    requires t in inside <==> Inside(s.pcs[t])
    ensures RecordOk(Step(s, t), TokenAfter(s, t, k), inside)
  {
  }

  lemma DepartureRecord(s: State, t: nat, k: Token, inside: set<nat>)
    requires RecordOk(s, k, inside) && t < |s.pcs| && Enabled(s, t)
    requires s.pcs[t].Uncounting? || s.pcs[t].Uncounted?
    requires HasToken(s.pcs[t]) <==> k == With(t)
    requires forall u :: 0 <= u < |s.pcs| && s.pcs[u].Uncounted? ==> k == With(u)
    requires (s.arrival > 0 <==> k.OnArrival?) && (s.departure > 0 <==> k.OnDeparture?)
    requires t in inside <==> Inside(s.pcs[t])
    ensures RecordOk(Step(s, t), TokenAfter(s, t, k), if s.pcs[t].Uncounting? then inside - {t} else inside)
  {
    if s.pcs[t].Uncounting? {
      assert (inside - {t}) + (s.departed + {t}) == inside + s.departed;
    } else {
      assert s.counter <= 0 ==> inside == {};
    }
  }

  lemma StepKeepsAt(s: State, t: nat, k: Token)
    requires InvAt(s, k) && t < |s.pcs| && Enabled(s, t)
    ensures InvAt(Step(s, t), TokenAfter(s, t, k))
  {
    hide Insiders, RecordOk, TokenAt, Departing;
    TokenKeeps(s, t, k);
    InsidersStep(s, t);
    match s.pcs[t]
    case Outside => ArrivalRecord(s, t, k, Insiders(s));
    case AtArrival => ArrivalRecord(s, t, k, Insiders(s));
    case Counting => CountingRecord(s, t, k, Insiders(s));
    case Counted => CountedRecord(s, t, k, Insiders(s));
    case AtDeparture => CountedRecord(s, t, k, Insiders(s));
    case Uncounting => DepartureRecord(s, t, k, Insiders(s));
    case Uncounted => DepartureRecord(s, t, k, Insiders(s));
  }

  // ---------- Theorems ----------

  lemma StepKeeps(s: State, t: nat)
    requires Inv(s) && t < |s.pcs| && Enabled(s, t)
    ensures Inv(Step(s, t)) && |Step(s, t).pcs| == |s.pcs|
  {
    var k :| InvAt(s, k);
    StepKeepsAt(s, t, k);
  }

  /** Any schedule; a scheduled thread that is blocked on a semaphore stays where it is. */
  ghost function Run(s: State, schedule: seq<nat>): (s': State)
    requires Inv(s) && forall i :: 0 <= i < |schedule| ==> schedule[i] < |s.pcs|
    ensures Inv(s') && |s'.pcs| == |s.pcs| && s'.participants == s.participants
    decreases |schedule|
  {
    if |schedule| == 0 then s
    else if !Enabled(s, schedule[0]) then Run(s, schedule[1..])
    else
      StepKeeps(s, schedule[0]);
      Run(Step(s, schedule[0]), schedule[1..])
  }

  predicate Fresh(s: State) {
    && s.participants > 0 && s.arrival == 1 && s.departure == 0 && s.counter == 0
    && s.arrived == {} && s.departed == {}
    && forall t :: 0 <= t < |s.pcs| ==> s.pcs[t].Outside?
  }

  lemma FreshInv(s: State)
    requires Fresh(s)
    ensures Inv(s)
  {
    assert Insiders(s) == {};
    assert InvAt(s, OnArrival);
  }

  /** Exactly one token exists among the two semaphores and the threads at work on counter_. */
  lemma OneToken(s: State)
    requires Inv(s)
    ensures s.arrival + s.departure <= 1
    ensures s.arrival + s.departure == 1 <==> forall t :: 0 <= t < |s.pcs| ==> !HasToken(s.pcs[t])
    ensures forall t, u :: 0 <= t < |s.pcs| && 0 <= u < |s.pcs| && HasToken(s.pcs[t]) && HasToken(s.pcs[u]) ==> t == u
  {
  }

  /** Nobody leaves a generation before as many threads as there are participants have arrived
      in it, and never more than that many arrive. */
  lemma NobodyLeavesEarly(s: State)
    requires Inv(s)
    ensures |s.arrived| <= s.participants
    ensures s.departed != {} ==> |s.arrived| == s.participants
    ensures forall t :: 0 <= t < |s.pcs| && (s.pcs[t].Uncounting? || s.pcs[t].Uncounted?) ==>
              |s.arrived| == s.participants && t in s.arrived
  {
  }

  /** Nobody joins a generation twice, and nobody leaves it twice or without having joined. */
  lemma NobodyJoinsTwice(s: State, t: nat)
    requires Inv(s) && t < |s.pcs|
    ensures s.pcs[t].Counting? ==> t !in s.arrived
    ensures s.pcs[t].Uncounting? ==> t in s.arrived && t !in s.departed
  {
  }

  /** When all threads are participants, nobody leaves before everybody has arrived. */
  lemma EverybodyArrives(s: State)
    requires Inv(s) && |s.pcs| == s.participants && s.departed != {}
    ensures s.arrived == Span(0, |s.pcs|)
  {
    var k :| InvAt(s, k);
    SpanSize(0, |s.pcs|);
    SubsetSize(s.arrived, Span(0, |s.pcs|));
  }

  function Callers(s: State): (r: set<nat>) {
    set t: nat | t < |s.pcs| && !s.pcs[t].Outside?
  }

  /** If as many threads as there are participants are inside wait, one of them can go on. */
  lemma NoDeadlock(s: State)
    requires Inv(s) && |Callers(s)| >= s.participants
    ensures exists t :: t in Callers(s) && Enabled(s, t)
  {
    var k :| InvAt(s, k);
    if k.With? {
      assert k.thread in Callers(s) && Enabled(s, k.thread);
    } else if k.OnDeparture? {
      Inhabited(Insiders(s));
      var t :| t in Insiders(s);
      assert !HasToken(s.pcs[t]);
      assert t in Callers(s) && Enabled(s, t);
    } else if forall t :: t in Callers(s) ==> !Enabled(s, t) {
      forall t | t in Callers(s) ensures t in Insiders(s) {
        assert !HasToken(s.pcs[t]);
      }
      SubsetSize(Callers(s), Insiders(s));
    }
  }

  // ---------- Every generation completes ----------

  /** Steps that a thread can take before the generation ends: through wait once, and up to the
      arrival semaphore again. */
  function Weight(pc: Pc, gone: bool): (n: nat) {
    match pc
    case Outside => if gone then 1 else 8
    case AtArrival => if gone then 0 else 7
    case Counting => 6
    case Counted => 5
    case AtDeparture => 4
    case Uncounting => 3
    case Uncounted => 2
  }

  /** The same for threads 0 to n - 1 together. */
  function StepsLeft(pcs: seq<Pc>, departed: set<nat>, n: nat): (k: nat)
    requires n <= |pcs|
    ensures k <= 8 * n
  {
    if n == 0 then 0 else StepsLeft(pcs, departed, n - 1) + Weight(pcs[n - 1], n - 1 in departed)
  }

  lemma {:induction false} OneWeight(pcs: seq<Pc>, pcs': seq<Pc>, d: set<nat>, d': set<nat>, t: nat, n: nat)
    requires n <= |pcs| == |pcs'| && t < |pcs|
    requires forall u :: 0 <= u < |pcs| && u != t ==> pcs'[u] == pcs[u] && (u in d' <==> u in d)
    requires Weight(pcs'[t], t in d') + 1 == Weight(pcs[t], t in d)
    ensures StepsLeft(pcs', d', n) + (if t < n then 1 else 0) == StepsLeft(pcs, d, n)
  {
    if n > 0 {
      OneWeight(pcs, pcs', d, d', t, n - 1);
    }
  }

  /** A thread about to arrive or counting has not left the generation. */
  lemma NotYetGone(s: State, t: nat)
    requires Inv(s) && t < |s.pcs| && Enabled(s, t)
    ensures s.pcs[t].AtArrival? || s.pcs[t].Counting? ==> s.departed == {}
    ensures s.pcs[t].Uncounted? ==> t in s.departed
  {
    var k :| InvAt(s, k);
    assert HasToken(s.pcs[t]) <==> k == With(t);
  }

  /** Every step ends the generation or leaves one step less to take in it. */
  lemma StepLowers(s: State, t: nat)
    requires Inv(s) && t < |s.pcs| && Enabled(s, t)
    ensures var s', n := Step(s, t), |s.pcs|;
            && |s'.pcs| == n
            && (|| s'.gen == s.gen + 1
                || (s'.gen == s.gen && StepsLeft(s'.pcs, s'.departed, n) + 1 == StepsLeft(s.pcs, s.departed, n)))
  {
    hide Inv, StepsLeft;
    NotYetGone(s, t);
    var s' := Step(s, t);
    if s'.gen == s.gen {
      OneWeight(s.pcs, s'.pcs, s.departed, s'.departed, t, |s.pcs|);
    }
  }

  /** Every scheduled thread has an enabled step when its turn comes. */
  ghost predicate Lively(s: State, schedule: seq<nat>)
    decreases |schedule|
  {
    |schedule| > 0 ==> schedule[0] < |s.pcs| && Enabled(s, schedule[0]) && Lively(Step(s, schedule[0]), schedule[1..])
  }

  /** No generation lasts longer than eight steps per thread. */
  lemma {:induction false} GenerationEnds(s: State, schedule: seq<nat>)
    requires Inv(s) && (forall i :: 0 <= i < |schedule| ==> schedule[i] < |s.pcs|) && Lively(s, schedule)
    requires |schedule| > StepsLeft(s.pcs, s.departed, |s.pcs|)
    ensures Run(s, schedule).gen > s.gen
    ensures StepsLeft(s.pcs, s.departed, |s.pcs|) <= 8 * |s.pcs|
    decreases |schedule|
  {
    hide Inv, StepsLeft, Step, Enabled;
    var s1 := Step(s, schedule[0]);
    StepLowers(s, schedule[0]);
    StepKeeps(s, schedule[0]);
    if s1.gen == s.gen {
      GenerationEnds(s1, schedule[1..]);
    } else {
      GenGrows(s1, schedule[1..]);
    }
  }

  lemma {:induction false} GenGrows(s: State, schedule: seq<nat>)
    requires Inv(s) && forall i :: 0 <= i < |schedule| ==> schedule[i] < |s.pcs|
    ensures Run(s, schedule).gen >= s.gen
    decreases |schedule|
  {
    hide Inv, StepsLeft;
    if |schedule| > 0 {
      if Enabled(s, schedule[0]) {
        StepLowers(s, schedule[0]);
        StepKeeps(s, schedule[0]);
        GenGrows(Step(s, schedule[0]), schedule[1..]);
      } else {
        GenGrows(s, schedule[1..]);
      }
    }
  }

  /** With at least as many threads as participants there is always an enabled step. */
  lemma SomeoneCanStep(s: State)
    requires Inv(s) && |s.pcs| >= s.participants
    ensures exists t: nat :: t < |s.pcs| && Enabled(s, t)
  {
    hide Inv;
    if t: nat :| t < |s.pcs| && s.pcs[t].Outside? {
      assert Enabled(s, t);
    } else {
      SpanSize(0, |s.pcs|);
      SubsetSize(Span(0, |s.pcs|), Callers(s));
      NoDeadlock(s);
    }
  }

  /** The barrier's promises after any schedule, over any number of generations. */
  lemma EverySchedule(s: State, schedule: seq<nat>, t: nat)
    requires Fresh(s) && t < |s.pcs| && forall i :: 0 <= i < |schedule| ==> schedule[i] < |s.pcs|
    ensures Inv(s)
    ensures var s' := Run(s, schedule);
            && (HasToken(s'.pcs[t]) ==>
                  && s'.arrival + s'.departure == 0
                  && forall u :: 0 <= u < |s.pcs| && HasToken(s'.pcs[u]) ==> u == t)
            && (s'.pcs[t].Counting? ==> t !in s'.arrived)
            && (s'.pcs[t].Uncounting? ==> t in s'.arrived && t !in s'.departed && |s'.arrived| == s.participants)
            && (|s.pcs| == s.participants && s'.departed != {} ==> s'.arrived == Span(0, |s.pcs|))
            && (|Callers(s')| >= s.participants ==> exists u :: u in Callers(s') && Enabled(s', u))
  {
    hide Inv, Fresh, Step, Enabled;
    FreshInv(s);
    var s' := Run(s, schedule);
    OneToken(s');
    NobodyLeavesEarly(s');
    NobodyJoinsTwice(s', t);
    if |s.pcs| == s.participants && s'.departed != {} {
      EverybodyArrives(s');
    }
    if |Callers(s')| >= s.participants {
      NoDeadlock(s');
    }
  }
}

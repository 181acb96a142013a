/** Requests per second from a ring of ten slot counters per thread. */
module RequestStats {

  const SLOTS := 10

  /** One recorded request: when it finished, and the slot it was counted in. */
  datatype Entry = Entry(tick: nat, slot: int)

  /** The ring of one thread. */
  datatype Counts = Counts(basePos: nat, baseTick: nat, val: seq<nat>)

  /** The ring position of a slot number. */
  function Pos(s: int): (p: nat)
    ensures p < SLOTS
  {
    s % SLOTS
  }

  lemma PosFacts(s: int)
    ensures IncPos(Pos(s)) == Pos(s + 1)
    ensures forall x :: s - SLOTS < x < s ==> Pos(x) != Pos(s)
  {
  }

  lemma PosPeriod(s: int)
    ensures Pos(s - SLOTS) == Pos(s)
  {
  }

  function IncPos(p: nat): (q: nat) {
    (p + 1) % SLOTS
  }

  function PosForTick(k: nat, t: nat): (p: nat)
    requires k > 0
  {
    t / k % SLOTS
  }

  function RoundTick(k: nat, t: nat): (r: nat)
    requires k > 0
  {
    t - t % k
  }

  // ---------- The log ----------

  /** How many requests were counted in slots a to b. */
  function InSlots(log: seq<Entry>, a: int, b: int): (n: nat) {
    if |log| == 0 then 0
    else InSlots(log[..|log| - 1], a, b) + (if a <= log[|log| - 1].slot <= b then 1 else 0)
  }

  /** How many requests finished after tick t. */
  function After(log: seq<Entry>, t: int): (n: nat) {
    if |log| == 0 then 0
    else After(log[..|log| - 1], t) + (if log[|log| - 1].tick > t then 1 else 0)
  }

  lemma {:induction false} InSlotsSplit(log: seq<Entry>, a: int, b: int, c: int)
    requires a <= b + 1 <= c + 1
    ensures InSlots(log, a, c) == InSlots(log, a, b) + InSlots(log, b + 1, c)
  {
    if |log| > 0 {
      InSlotsSplit(log[..|log| - 1], a, b, c);
    }
  }

  lemma InSlotsAppend(log: seq<Entry>, e: Entry, a: int, b: int)
    ensures InSlots(log + [e], a, b) == InSlots(log, a, b) + (if a <= e.slot <= b then 1 else 0)
  {
  }

  // ---------- Invariant ----------

  /** A request is counted in the slot its tick falls into, or on the dot of a slot boundary in
      the slot that ends there. */
  ghost predicate EntryOk(k: nat, base: int, e: Entry) {
    e.slot <= base && e.slot * k <= e.tick <= e.slot * k + k
  }

  /** The ring holds the counts of the ten slots up to the base slot. */
  ghost predicate RingOk(k: nat, c: Counts, log: seq<Entry>) {
    && k > 0 && |c.val| == SLOTS
    && c.baseTick % k == 0 && c.basePos == Pos(c.baseTick / k)
    && (forall e :: e in log ==> EntryOk(k, c.baseTick / k, e))
    && (forall s :: c.baseTick / k - SLOTS < s <= c.baseTick / k ==> c.val[Pos(s)] == InSlots(log, s, s))
  }

  // ---------- What getStats computes for one thread ----------

  /** The requests that getStats(now) counts on a thread: those in the slots after now - 1s, or
      everything in the ring when now is exactly one second after the base. */
  function Reported(k: nat, c: Counts, log: seq<Entry>, now: nat): (n: nat)
    requires k > 0
  {
    var base := c.baseTick / k;
    if now > c.baseTick + SLOTS * k then 0
    else if now == c.baseTick + SLOTS * k then InSlots(log, base - 9, base)
    else InSlots(log, now / k - 9, base)
  }

  lemma {:induction false} SandwichOne(k: nat, base: int, log: seq<Entry>, now: nat, a: int)
    requires k > 0 && forall e :: e in log ==> EntryOk(k, base, e)
    requires a == now / k - 9
    ensures After(log, now - 9 * k) <= InSlots(log, a, base) <= After(log, now - 10 * k)
  {
    if |log| > 0 {
      var e := log[|log| - 1];
      SandwichOne(k, base, log[..|log| - 1], now, a);
      assert EntryOk(k, base, e);
      SlotBounds(k, e, now);
    }
  }

  lemma SlotBounds(k: nat, e: Entry, now: nat)
    requires k > 0 && e.slot * k <= e.tick <= e.slot * k + k
    ensures e.tick > now - 9 * k ==> e.slot >= now / k - 9
    ensures e.slot >= now / k - 9 ==> e.tick > now - 10 * k
  {
    var n := now / k;
    DivBounds(now, k);
    if e.slot < n - 9 {
      MulMono(e.slot, n - 10, k);
      assert (n - 10) * k == n * k - 10 * k;
    } else {
      MulMono(n - 9, e.slot, k);
      assert (n - 9) * k == n * k - 9 * k;
    }
  }

  lemma DivBounds(x: int, k: nat)
    requires k > 0
    ensures x / k * k <= x < x / k * k + k && x / k * k == x - x % k
  {
  }

  lemma MulMono(a: int, b: int, k: nat)
    requires a <= b
    ensures a * k <= b * k
  {
  }

  lemma {:induction false} NoneAfter(log: seq<Entry>, t: int)
    requires forall e :: e in log ==> e.tick <= t
    ensures After(log, t) == 0
  {
    if |log| > 0 {
      NoneAfter(log[..|log| - 1], t);
    }
  }

  /** The reported count lies between the requests newer than nine slots and those newer than
      ten, for every history, except at the very tick one second after the base. */
  lemma Sandwich(k: nat, c: Counts, log: seq<Entry>, now: nat)
    requires RingOk(k, c, log) && now >= c.baseTick && now != c.baseTick + SLOTS * k
    ensures After(log, now - 9 * k) <= Reported(k, c, log, now) <= After(log, now - 10 * k)
  {
    var base := c.baseTick / k;
    if now > c.baseTick + SLOTS * k {
      DivBounds(c.baseTick, k);
      forall e | e in log ensures e.tick <= now - 9 * k {
        assert EntryOk(k, base, e);
        MulMono(e.slot, base, k);
      }
      NoneAfter(log, now - 9 * k);
    } else {
      SandwichOne(k, base, log, now, now / k - 9);
    }
  }

  /** Requests in the ring that finished at or before tick t. */
  function Stale(log: seq<Entry>, a: int, t: int): (n: nat) {
    if |log| == 0 then 0
    else Stale(log[..|log| - 1], a, t) + (if a <= log[|log| - 1].slot && log[|log| - 1].tick <= t then 1 else 0)
  }

  lemma {:induction false} RingSplit(k: nat, base: int, log: seq<Entry>)
    requires k > 0 && forall e :: e in log ==> EntryOk(k, base, e)
    ensures InSlots(log, base - 9, base) == After(log, base * k) + Stale(log, base - 9, base * k)
  {
    if |log| > 0 {
      var e := log[|log| - 1];
      RingSplit(k, base, log[..|log| - 1]);
      assert EntryOk(k, base, e);
      if e.tick > base * k && e.slot < base {
        MulMono(e.slot + 1, base, k);
      }
    }
  }

  lemma {:induction false} AfterMono(log: seq<Entry>, t: int, u: int)
    requires t <= u
    ensures After(log, u) <= After(log, t)
  {
    if |log| > 0 {
      AfterMono(log[..|log| - 1], t, u);
    }
  }

  /** One second after the base the report is still no lower than the nine-slot count, and it is
      too high exactly when the ring still holds a request that is at least ten slots old. */
  lemma OneSecondLater(k: nat, c: Counts, log: seq<Entry>, now: nat)
    requires RingOk(k, c, log) && now == c.baseTick + SLOTS * k
    ensures After(log, now - 9 * k) <= Reported(k, c, log, now)
    ensures Reported(k, c, log, now) <= After(log, now - 10 * k) <==> Stale(log, c.baseTick / k - 9, c.baseTick) == 0
  {
    DivBounds(c.baseTick, k);
    RingSplit(k, c.baseTick / k, log);
    AfterMono(log, c.baseTick, now - 9 * k);
  }

  // ---------- The code ----------

  class Stats {
    const ticksPerSlot: nat
    var counts: array<Counts>
    ghost var logs: seq<seq<Entry>>

    ghost predicate Valid()
      reads this, counts
    {
      && ticksPerSlot > 0 && |logs| == counts.Length
      && forall t :: 0 <= t < counts.Length ==> RingOk(ticksPerSlot, counts[t], logs[t])
    }

    constructor (threads: nat, ticks: nat)
      requires ticks > 0
      ensures Valid() && fresh(counts) && counts.Length == threads && ticksPerSlot == ticks
      ensures forall t :: 0 <= t < threads ==> counts[t].baseTick == 0 && logs[t] == []
    {
      ticksPerSlot := ticks;
      counts := new Counts[threads](_ => Counts(0, 0, seq(SLOTS, _ => 0)));
      logs := seq(threads, _ => []);
    }

    /** Moves the ring to the slot of now if at least one slot has expired. */
    method Expire(c: Counts, now: nat, ghost log: seq<Entry>) returns (c': Counts)
      requires RingOk(ticksPerSlot, c, log) && now >= c.baseTick
      ensures RingOk(ticksPerSlot, c', log)
      ensures now <= c.baseTick + ticksPerSlot ==> c' == c
      ensures now > c.baseTick + ticksPerSlot ==> c'.baseTick == RoundTick(ticksPerSlot, now)
      ensures c'.baseTick <= now <= c'.baseTick + ticksPerSlot
    {
      hide Pos, InSlots;
      var k := ticksPerSlot;
      c' := c;
      if now > c.baseTick + k {
        var newPos := PosForTick(k, now);
        ghost var base, slot := c.baseTick / k, now / k;
        SlotOfNow(k, c.baseTick, now);
        var val := c.val;
        if c.baseTick + SLOTS * k < now {
          val := seq(SLOTS, _ => 0);
        } else {
          val := ZeroBetween(c, newPos, base, slot, log);
        }
        NothingAhead(k, base, log);
        c' := Counts(newPos, RoundTick(k, now), val);
      }
    }

    /** The do-while loop: zeroes the slots after the base up to the one at newPos. */
    method ZeroBetween(c: Counts, newPos: nat, ghost base: int, ghost slot: int, ghost log: seq<Entry>)
      returns (val: seq<nat>)
      requires |c.val| == SLOTS && c.basePos == Pos(base) && newPos == Pos(slot)
      requires base < slot <= base + SLOTS
      requires forall s :: base - SLOTS < s <= base ==> c.val[Pos(s)] == InSlots(log, s, s)
      ensures |val| == SLOTS
      ensures forall s :: slot - SLOTS < s <= base ==> val[Pos(s)] == InSlots(log, s, s)
      ensures forall s :: base < s <= slot ==> val[Pos(s)] == 0
    {
      hide Pos, IncPos, InSlots;
      val := c.val;
      var currPos := c.basePos;
      ghost var s := base;
      PosFacts(slot);
      while true
        invariant base <= s < slot && |val| == SLOTS && currPos == Pos(s)
        invariant forall x :: slot - SLOTS < x <= base ==> val[Pos(x)] == InSlots(log, x, x)
        invariant forall x :: base < x <= s ==> val[Pos(x)] == 0
        decreases slot - s
      {
        PosFacts(s);
        PosFacts(s + 1);
        currPos := IncPos(currPos);
        s := s + 1;
        val := val[currPos := 0];
        if currPos == newPos {
          break;
        }
      }
    }

    /** Records that a request of the given thread finished now. */
    method FinishedRequest(thread: nat, now: nat)
      requires Valid() && thread < counts.Length && now >= counts[thread].baseTick
      modifies counts, this`logs
      ensures Valid() && counts == old(counts)
      ensures forall t :: 0 <= t < counts.Length && t != thread ==> counts[t] == old(counts[t])
      ensures var e := Entry(now, counts[thread].baseTick / ticksPerSlot);
              logs == old(logs)[thread := old(logs)[thread] + [e]]
      ensures counts[thread].baseTick <= now <= counts[thread].baseTick + ticksPerSlot
      ensures counts[thread].baseTick ==
              if now > old(counts[thread].baseTick) + ticksPerSlot then RoundTick(ticksPerSlot, now)
              else old(counts[thread].baseTick)
    {
      hide RingOk;
      ghost var log := logs[thread];
      assert RingOk(ticksPerSlot, counts[thread], log);
      var c := Expire(counts[thread], now, log);
      RingAppend(ticksPerSlot, c, log, now);
      counts[thread] := c.(val := c.val[c.basePos := c.val[c.basePos] + 1]);
      logs := logs[thread := log + [Entry(now, c.baseTick / ticksPerSlot)]];
    }

    /** The part of getStats for one thread: the unexpired slots, or nothing if the base is
        more than a second old. */
    method CountThread(c: Counts, now: nat, ghost log: seq<Entry>) returns (n: nat)
      requires RingOk(ticksPerSlot, c, log) && now >= c.baseTick
      ensures n == Reported(ticksPerSlot, c, log, now)
    {
      hide Pos, IncPos, InSlots;
      var k := ticksPerSlot;
      n := 0;
      if now - c.baseTick > SLOTS * k {
        return;
      }
      var currPos := PosForTick(k, now);
      ghost var base := c.baseTick / k;
      ghost var from := FirstSlot(k, c.baseTick, now);
      ghost var s := from;
      FirstSlotFacts(k, c.baseTick, now);
      NoSlots(log, from + 1, from);
      PosFacts(base);
      while true
        invariant base - SLOTS <= from <= s < base && currPos == Pos(s)
        invariant n == InSlots(log, from + 1, s)
        decreases base - s
      {
        PosFacts(s);
        InSlotsSplit(log, from + 1, s, s + 1);
        currPos := IncPos(currPos);
        s := s + 1;
        n := n + c.val[currPos];
        if currPos == c.basePos {
          break;
        }
      }
    }

    /** All threads together. Unless now is one second after the base of some thread to the tick,
        the answer lies between the requests of the last nine slots and those of the last ten. */
    method GetStats(now: nat) returns (reqsLastSec: nat)
      requires Valid() && forall t :: 0 <= t < counts.Length ==> now >= counts[t].baseTick
      ensures reqsLastSec == Total(ticksPerSlot, counts[..], logs, now)
      ensures (forall t :: 0 <= t < counts.Length ==> now != counts[t].baseTick + SLOTS * ticksPerSlot) ==>
                AllAfter(logs, now - 9 * ticksPerSlot) <= reqsLastSec <= AllAfter(logs, now - 10 * ticksPerSlot)
    {
      hide RingOk, Reported;
      reqsLastSec := 0;
      for i := 0 to counts.Length
        invariant reqsLastSec == Total(ticksPerSlot, counts[..i], logs[..i], now)
      {
        assert RingOk(ticksPerSlot, counts[i], logs[i]);
        var n := CountThread(counts[i], now, logs[i]);
        assert counts[..i + 1][..i] == counts[..i] && logs[..i + 1][..i] == logs[..i];
        reqsLastSec := reqsLastSec + n;
      }
      assert counts[..counts.Length] == counts[..] && logs[..counts.Length] == logs;
      if forall t :: 0 <= t < counts.Length ==> now != counts[t].baseTick + SLOTS * ticksPerSlot {
        SandwichAll(ticksPerSlot, counts[..], logs, now);
      }
    }
  }

  /** The report summed over threads. */
  function Total(k: nat, counts: seq<Counts>, logs: seq<seq<Entry>>, now: nat): (n: nat)
    requires k > 0 && |counts| == |logs|
  {
    if |counts| == 0 then 0
    else
      var i := |counts| - 1;
      Total(k, counts[..i], logs[..i], now) + Reported(k, counts[i], logs[i], now)
  }

  /** Requests of all threads that finished after tick t. */
  function AllAfter(logs: seq<seq<Entry>>, t: int): (n: nat) {
    if |logs| == 0 then 0 else AllAfter(logs[..|logs| - 1], t) + After(logs[|logs| - 1], t)
  }

  lemma {:induction false} SandwichAll(k: nat, counts: seq<Counts>, logs: seq<seq<Entry>>, now: nat)
    requires k > 0 && |counts| == |logs|
    requires forall t :: 0 <= t < |counts| ==> RingOk(k, counts[t], logs[t])
    requires forall t :: 0 <= t < |counts| ==> now >= counts[t].baseTick && now != counts[t].baseTick + SLOTS * k
    ensures AllAfter(logs, now - 9 * k) <= Total(k, counts, logs, now) <= AllAfter(logs, now - 10 * k)
  {
    hide RingOk, Reported, After;
    if |counts| > 0 {
      var i := |counts| - 1;
      SandwichAll(k, counts[..i], logs[..i], now);
      Sandwich(k, counts[i], logs[i], now);
    }
  }

  /** A request on the base tick, exactly ten slots before now, is still reported. */
  lemma OneSecondLaterOverCounts()
    ensures var c, log := Counts(0, 10, [1, 0, 0, 0, 0, 0, 0, 0, 0, 0]), [Entry(10, 10)];
            RingOk(1, c, log) && Reported(1, c, log, 20) == 1 && After(log, 20 - 10 * 1) == 0
  {
  }

  /** The slot before the first one that getStats adds up. */
  function FirstSlot(k: nat, baseTick: nat, now: nat): (s: int)
    requires k > 0
  {
    if now == baseTick + SLOTS * k then baseTick / k - SLOTS else now / k - SLOTS
  }

  lemma FirstSlotFacts(k: nat, baseTick: nat, now: nat)
    requires k > 0 && baseTick % k == 0 && baseTick <= now <= baseTick + SLOTS * k
    ensures PosForTick(k, now) == Pos(FirstSlot(k, baseTick, now))
    ensures baseTick / k - SLOTS <= FirstSlot(k, baseTick, now) < baseTick / k
  {
    hide Pos, PosForTick;
    TickPos(k, now);
    PosPeriod(now / k);
    PosPeriod(baseTick / k);
    PosPeriod(baseTick / k + SLOTS);
    WithinRing(k, baseTick, now);
  }

  lemma WithinRing(k: nat, baseTick: nat, now: nat)
    requires k > 0 && baseTick % k == 0 && baseTick <= now <= baseTick + SLOTS * k
    ensures baseTick / k <= now / k <= baseTick / k + SLOTS
    ensures now / k == baseTick / k + SLOTS <==> now == baseTick + SLOTS * k
  {
    var n, b := now / k, baseTick / k;
    DivBounds(now, k);
    DivBounds(baseTick, k);
    UpTo(n, b, k, SLOTS);
    Beyond(n, b, k, 0);
    if now == baseTick + SLOTS * k {
      Beyond(n, b, k, SLOTS);
    } else if n == b + SLOTS {
      Distribute(b, SLOTS, k);
    }
  }

  lemma Distribute(a: int, b: int, k: nat)
    ensures (a + b) * k == a * k + b * k
  {
  }

  lemma UpTo(n: int, b: int, k: nat, d: nat)
    requires k > 0 && n * k <= b * k + d * k
    ensures n <= b + d
  {
    if n > b + d {
      MulMono(b + d + 1, n, k);
      Distribute(b + d, 1, k);
      Distribute(b, d, k);
    }
  }

  lemma Beyond(n: int, b: int, k: nat, d: nat)
    requires k > 0 && b * k + d * k < n * k + k
    ensures b + d <= n
  {
    if n < b + d {
      MulMono(n + 1, b + d, k);
      Distribute(n, 1, k);
      Distribute(b, d, k);
    }
  }

  lemma TickPos(k: nat, now: nat)
    requires k > 0
    ensures PosForTick(k, now) == Pos(now / k)
  {
  }

  lemma NoSlots(log: seq<Entry>, a: int, b: int)
    requires b < a
    ensures InSlots(log, a, b) == 0
  {
  }

  /** Counting one more request in the base slot. */
  lemma RingAppend(k: nat, c: Counts, log: seq<Entry>, now: nat)
    requires RingOk(k, c, log) && c.baseTick <= now <= c.baseTick + k
    ensures c.basePos < |c.val|
    ensures RingOk(k, c.(val := c.val[c.basePos := c.val[c.basePos] + 1]), log + [Entry(now, c.baseTick / k)])
  {
    var base := c.baseTick / k;
    var e := Entry(now, base);
    DivBounds(c.baseTick, k);
    PosFacts(base);
    forall s | base - SLOTS < s <= base
      ensures c.val[c.basePos := c.val[c.basePos] + 1][Pos(s)] == InSlots(log + [e], s, s)
    {
      InSlotsAppend(log, e, s, s);
    }
  }

  lemma SlotOfNow(k: nat, baseTick: nat, now: nat)
    requires k > 0 && baseTick % k == 0 && now > baseTick + k
    ensures PosForTick(k, now) == Pos(now / k) && RoundTick(k, now) % k == 0 && RoundTick(k, now) / k == now / k
    ensures RoundTick(k, now) <= now < RoundTick(k, now) + k
    ensures now / k > baseTick / k
    ensures now <= baseTick + SLOTS * k ==> now / k <= baseTick / k + SLOTS
    ensures now > baseTick + SLOTS * k ==> now / k >= baseTick / k + SLOTS
  {
    hide Pos, PosForTick;
    TickPos(k, now);
    var n, b := now / k, baseTick / k;
    DivBounds(now, k);
    DivBounds(baseTick, k);
    MulDiv(n, k);
    Beyond(n, b, k, 1);
    if now <= baseTick + SLOTS * k {
      UpTo(n, b, k, SLOTS);
    } else {
      Beyond(n, b, k, SLOTS);
    }
  }

  lemma MulDiv(n: nat, k: nat)
    requires k > 0
    ensures n * k / k == n && n * k % k == 0
  {
    DivBounds(n * k, k);
    var q := n * k / k;
    assert q * k <= n * k < (q + 1) * k;
    if q < n {
      MulMono(q + 1, n, k);
    } else {
      MulMono(n, q, k);
    }
    if q > n {
      MulMono(n + 1, q, k);
    }
  }

  /** No request is counted in a slot after the base. */
  lemma {:induction false} NothingAhead(k: nat, base: int, log: seq<Entry>)
    requires forall e :: e in log ==> EntryOk(k, base, e)
    ensures forall s :: s > base ==> InSlots(log, s, s) == 0
  {
    if |log| > 0 {
      NothingAhead(k, base, log[..|log| - 1]);
      assert EntryOk(k, base, log[|log| - 1]);
    }
  }
}

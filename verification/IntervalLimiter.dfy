/** The limiter that spaces outgoing lyrics lookups: slots are handed out at
    least an interval apart, each at most a maximal wait ahead. */
module IntervalLimiter {
  import opened Finite
  import opened Options

  /** A caller's request time and the slot it was given. */
  datatype Slot = Slot(asked: int, at: int)

  class Limiter {
    const interval: int
    const maxWait: int
    var next: int

    constructor (interval: int, maxWait: int, next: int)
      ensures this.interval == interval && this.maxWait == maxWait && this.next == next
    {
      this.interval, this.maxWait, this.next := interval, maxWait, next;
    }

    /** Takes the next slot, or none when it is too far away. */
    method Wait(now: int) returns (delay: Option<int>)
      modifies this
      ensures delay == if Max(old(next), now) - now > maxWait then None else Some(Max(old(next), now) - now)
      ensures next == if delay.None? then old(next) else now + delay.value + interval
    {
      var at := next;
      if at < now {
        at := now;
      }
      var d := at - now;
      if d > maxWait {
        return None;
      }
      next := at + interval;
      delay := Some(d);
    }
  }

  // ----- Whole runs -----

  /** The slots given to callers that ask at these times, in order. */
  function Slots(interval: int, maxWait: int, next: int, asks: seq<int>): seq<Slot>
    decreases |asks|
  {
    if asks == [] then []
    else
      var at := Max(next, asks[0]);
      if at - asks[0] > maxWait then Slots(interval, maxWait, next, asks[1..])
      else [Slot(asks[0], at)] + Slots(interval, maxWait, at + interval, asks[1..])
  }

  ghost predicate Ordered(asks: seq<int>) {
    forall i, j :: 0 <= i <= j < |asks| ==> asks[i] <= asks[j]
  }

  lemma SlotsFrom(interval: int, maxWait: int, next: int, asks: seq<int>, i: nat)
    requires i < |asks|
    ensures var at := Max(next, asks[i]);
      Slots(interval, maxWait, next, asks[i..]) ==
        if at - asks[i] > maxWait then Slots(interval, maxWait, next, asks[i + 1..])
        else [Slot(asks[i], at)] + Slots(interval, maxWait, at + interval, asks[i + 1..])
  {
    assert asks[i..][1..] == asks[i + 1..];
  }

  lemma NoSlots(interval: int, maxWait: int, next: int, asks: seq<int>)
    ensures Slots(interval, maxWait, next, asks[|asks|..]) == []
  {
  }

  /** A run of the limiter hands out exactly these slots. */
  method Serve(limiter: Limiter, asks: seq<int>) returns (slots: seq<Slot>)
    modifies limiter
    ensures slots == Slots(limiter.interval, limiter.maxWait, old(limiter.next), asks)
  {
    hide Slots;
    slots := [];
    assert asks[0..] == asks;
    for i := 0 to |asks|
      invariant slots + Slots(limiter.interval, limiter.maxWait, limiter.next, asks[i..]) ==
        Slots(limiter.interval, limiter.maxWait, old(limiter.next), asks)
    {
      SlotsFrom(limiter.interval, limiter.maxWait, limiter.next, asks, i);
      var delay := limiter.Wait(asks[i]);
      if delay.Some? {
        var slot := Slot(asks[i], asks[i] + delay.value);
        ghost var later := Slots(limiter.interval, limiter.maxWait, limiter.next, asks[i + 1..]);
        assert slots + ([slot] + later) == slots + [slot] + later;
        slots := slots + [slot];
      }
    }
    NoSlots(limiter.interval, limiter.maxWait, limiter.next, asks);
  }

  /** Slots lie at least an interval apart, in the order of the requests, and
      each at most the maximal wait after it was asked for. */
  ghost predicate Spaced(interval: int, maxWait: int, slots: seq<Slot>) {
    && (forall i :: 0 <= i < |slots| ==> slots[i].asked <= slots[i].at <= slots[i].asked + maxWait)
    && (forall i, j :: 0 <= i < j < |slots| ==>
          slots[i].asked <= slots[j].asked && slots[i].at + (j - i) * interval <= slots[j].at)
  }

  lemma {:induction false} SlotsAreSpaced(interval: int, maxWait: int, next: int, asks: seq<int>)
    requires Ordered(asks) && interval >= 0
    ensures Spaced(interval, maxWait, Slots(interval, maxWait, next, asks))
    ensures forall i :: 0 <= i < |Slots(interval, maxWait, next, asks)| ==>
      next <= Slots(interval, maxWait, next, asks)[i].at &&
      asks != [] && asks[0] <= Slots(interval, maxWait, next, asks)[i].asked
    decreases |asks|
  {
    if asks != [] {
      var at := Max(next, asks[0]);
      assert Ordered(asks[1..]);
      var taken := at - asks[0] <= maxWait;
      var after := if taken then at + interval else next;
      var rest := Slots(interval, maxWait, after, asks[1..]);
      SlotsAreSpaced(interval, maxWait, after, asks[1..]);
      forall i | 0 <= i < |rest|
        ensures asks[0] <= rest[i].asked
      {
        assert asks[0] <= asks[1..][0];
      }
      if taken {
        FirstIsSpaced(interval, maxWait, Slot(asks[0], at), rest);
        assert Slots(interval, maxWait, next, asks) == [Slot(asks[0], at)] + rest;
      }
    }
  }

  lemma FirstIsSpaced(interval: int, maxWait: int, first: Slot, rest: seq<Slot>)
    requires interval >= 0 && first.asked <= first.at <= first.asked + maxWait
    requires forall i :: 0 <= i < |rest| ==> first.at + interval <= rest[i].at && first.asked <= rest[i].asked
    requires Spaced(interval, maxWait, rest)
    ensures Spaced(interval, maxWait, [first] + rest)
  {
    var slots := [first] + rest;
    forall i, j | 0 <= i < j < |slots|
      ensures slots[i].asked <= slots[j].asked && slots[i].at + (j - i) * interval <= slots[j].at
    {
      assert slots[j] == rest[j - 1];
      if i > 0 {
        assert slots[i] == rest[i - 1] && (j - 1) - (i - 1) == j - i;
      } else if j > 1 {
        assert rest[0].at + (j - 1) * interval <= rest[j - 1].at;
        assert j * interval == (j - 1) * interval + interval;
      }
    }
  }

  /** Who asks next, after any callers, gets the first moment an interval after
      the last slot, or at once when that is past; and is turned away exactly
      when that moment is more than the maximal wait ahead. */
  lemma {:induction false} NextCaller(interval: int, maxWait: int, next: int, asks: seq<int>, now: int)
    requires maxWait >= 0
    ensures var slots := Slots(interval, maxWait, next, asks);
      var earliest := if slots == [] then next else slots[|slots| - 1].at + interval;
      Slots(interval, maxWait, next, asks + [now]) ==
        if earliest > now + maxWait then slots
        else slots + [Slot(now, if earliest > now then earliest else now)]
    decreases |asks|
  {
    if asks == [] {
      assert asks + [now] == [now] && [now][1..] == [];
    } else {
      assert (asks + [now])[1..] == asks[1..] + [now] && (asks + [now])[0] == asks[0];
      var at := Max(next, asks[0]);
      NextCaller(interval, maxWait, if at - asks[0] > maxWait then next else at + interval, asks[1..], now);
    }
  }

  /** Who has asked by a moment and still waits for a later slot. */
  function Waiting(slots: seq<Slot>, moment: int): set<nat> {
    set i: nat | 0 <= i < |slots| && slots[i].asked <= moment < slots[i].at
  }

  /** At most maxWait / interval + 1 callers wait at once. */
  lemma FewWaitAtOnce(interval: int, maxWait: int, next: int, asks: seq<int>, moment: int)
    requires Ordered(asks) && interval > 0 && maxWait >= 0
    ensures |Waiting(Slots(interval, maxWait, next, asks), moment)| <= maxWait / interval + 1
  {
    hide Slots, Spaced, Waiting;
    var slots := Slots(interval, maxWait, next, asks);
    var waiting, q := Waiting(slots, moment), maxWait / interval;
    SlotsAreSpaced(interval, maxWait, next, asks);
    forall i, j | i in waiting && j in waiting && i < j
      ensures j - i <= q
    {
      TwoWait(interval, maxWait, slots, i, j, moment);
    }
    CloseTogether(waiting, q);
  }

  lemma CloseTogether(s: set<nat>, q: nat)
    requires forall i, j :: i in s && j in s && i < j ==> j - i <= q
    ensures |s| <= q + 1
  {
    if s != {} {
      var low := Least(s);
      SizeWithin(s, low, q + 1);
    }
  }

  lemma TwoWait(interval: int, maxWait: int, slots: seq<Slot>, i: nat, j: nat, moment: int)
    requires interval > 0 && Spaced(interval, maxWait, slots) && i < j
    requires i in Waiting(slots, moment) && j in Waiting(slots, moment)
    ensures j - i <= maxWait / interval
  {
    assert slots[i].at + (j - i) * interval <= slots[j].at;
    QuotientBound(j - i, interval, maxWait);
  }

  lemma QuotientBound(n: nat, interval: int, maxWait: int)
    requires interval > 0 && n * interval < maxWait
    ensures n <= maxWait / interval
  {
    var q := maxWait / interval;
    assert maxWait < (q + 1) * interval;
    Products(n, q + 1, interval);
  }

  lemma Products(a: int, b: int, factor: int)
    requires factor > 0 && a * factor < b * factor
    ensures a < b
  {
    assert (b - a) * factor > 0;
  }
}

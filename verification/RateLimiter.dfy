/** The bounded in-memory fixed-window rate limiter: how many requests it lets
    through in any window, and how large its table grows. */
module RateLimiter {
  import opened Finite

  type Key = string

  datatype Limit = Limit(requests: int, window: int)

  datatype Bucket = Bucket(count: int, reset: int)

  type Table = map<Key, Bucket>

  datatype Verdict = Verdict(allowed: bool, retryAfter: int)

  // ----- One call -----

  predicate Running(table: Table, key: Key, now: int) {
    key in table && now < table[key].reset
  }

  function WithoutExpired(table: Table, now: int): Table {
    map key | key in table && now < table[key].reset :: table[key]
  }

  /** The table as the call finds it after making room, if it needed to. */
  function Evicted(table: Table, maxEntries: int, key: Key, now: int): Table {
    if key !in table && |table| >= maxEntries then WithoutExpired(table, now) else table
  }

  predicate Full(table: Table, maxEntries: int, key: Key, now: int) {
    key !in table && |Evicted(table, maxEntries, key, now)| >= maxEntries
  }

  function Answer(table: Table, limit: Limit, maxEntries: int, open: bool, key: Key, now: int): Verdict {
    if Running(table, key, now) then
      if table[key].count >= limit.requests then Verdict(false, table[key].reset - now) else Verdict(true, 0)
    else if Full(table, maxEntries, key, now) then if open then Verdict(true, 0) else Verdict(false, limit.window)
    else Verdict(true, 0)
  }

  function After(table: Table, limit: Limit, maxEntries: int, key: Key, now: int): Table {
    if Running(table, key, now) then
      if table[key].count >= limit.requests then table
      else table[key := Bucket(table[key].count + 1, table[key].reset)]
    else
      var room := Evicted(table, maxEntries, key, now);
      if Full(table, maxEntries, key, now) then room else room[key := Bucket(1, now + limit.window)]
  }

  class RateLimiter {
    const limit: Limit
    const maxEntries: int
    const openWhenFull: bool
    var entries: Table

    constructor (limit: Limit, maxEntries: int, openWhenFull: bool)
      ensures this.limit == limit && this.maxEntries == maxEntries && this.openWhenFull == openWhenFull
      ensures entries == map[]
    {
      this.limit, this.maxEntries, this.openWhenFull, entries := limit, maxEntries, openWhenFull, map[];
    }

    method Allow(key: Key, now: int) returns (v: Verdict)
      modifies this
      ensures v == Answer(old(entries), limit, maxEntries, openWhenFull, key, now)
      ensures entries == After(old(entries), limit, maxEntries, key, now)
    {
      var tracked := key in entries;
      if !tracked || now >= entries[key].reset {
        if !tracked && |entries| >= maxEntries {
          EvictExpired(now);
          if |entries| >= maxEntries {
            return if openWhenFull then Verdict(true, 0) else Verdict(false, limit.window);
          }
        }
        entries := entries[key := Bucket(1, now + limit.window)];
        return Verdict(true, 0);
      }
      var bucket := entries[key];
      if bucket.count >= limit.requests {
        return Verdict(false, bucket.reset - now);
      }
      entries := entries[key := Bucket(bucket.count + 1, bucket.reset)];
      v := Verdict(true, 0);
    }

    method EvictExpired(now: int)
      modifies this
      ensures entries == WithoutExpired(old(entries), now)
    {
      var rest := entries.Keys;
      while rest != {}
        invariant rest <= old(entries).Keys && rest <= entries.Keys && entries.Keys <= old(entries).Keys
        invariant forall key :: key in entries ==> entries[key] == old(entries)[key]
        invariant forall key :: key in old(entries) && key !in rest ==> (key in entries <==> now < old(entries)[key].reset)
        decreases |rest|
      {
        var candidate :| candidate in rest;
        rest := rest - {candidate};
        if now >= entries[candidate].reset {
          entries := entries - {candidate};
        }
      }
    }
  }

  // ----- Whole runs -----

  datatype Call = Call(key: Key, now: int)

  /** tables[i] is the table before the i-th call. */
  ghost predicate Run(limit: Limit, maxEntries: int, tables: seq<Table>, calls: seq<Call>) {
    && |tables| == |calls| + 1 && tables[0] == map[]
    && (forall i :: 0 <= i < |calls| ==> tables[i + 1] == After(tables[i], limit, maxEntries, calls[i].key, calls[i].now))
    && forall i, j :: 0 <= i <= j < |calls| ==> calls[i].now <= calls[j].now
  }

  lemma SizeWithoutExpired(table: Table, now: int)
    ensures |WithoutExpired(table, now)| <= |table|
  {
    var kept := WithoutExpired(table, now);
    assert kept.Keys <= table.Keys;
    SubsetSize(kept.Keys, table.Keys);
    assert |kept.Keys| == |kept| && |table.Keys| == |table|;
  }

  lemma SizeOfUpdate(table: Table, key: Key, bucket: Bucket)
    ensures |table[key := bucket]| == if key in table then |table| else |table| + 1
  {
    assert table[key := bucket].Keys == table.Keys + {key};
    assert |table[key := bucket]| == |table[key := bucket].Keys| && |table| == |table.Keys|;
  }

  /** The table never holds more than it may. */
  lemma {:induction false} TableStaysBounded(limit: Limit, maxEntries: int, tables: seq<Table>, calls: seq<Call>, i: nat)
    requires Run(limit, maxEntries, tables, calls) && i < |tables|
    ensures |tables[i]| <= Max(0, maxEntries)
  {
    if i > 0 {
      var table, call := tables[i - 1], calls[i - 1];
      TableStaysBounded(limit, maxEntries, tables, calls, i - 1);
      SizeWithoutExpired(table, call.now);
      StepStaysBounded(table, limit, maxEntries, call);
    }
  }

  lemma StepStaysBounded(table: Table, limit: Limit, maxEntries: int, call: Call)
    requires |table| <= Max(0, maxEntries) && |WithoutExpired(table, call.now)| <= |table|
    ensures |After(table, limit, maxEntries, call.key, call.now)| <= Max(0, maxEntries)
  {
    hide WithoutExpired;
    var room := Evicted(table, maxEntries, call.key, call.now);
    SizeOfUpdate(room, call.key, Bucket(1, call.now + limit.window));
    if call.key in table {
      SizeOfUpdate(table, call.key, Bucket(table[call.key].count + 1, table[call.key].reset));
    }
  }

  /** The requests of one key that the closed limiter let through, each with
      the start of the bucket it was counted in. */
  datatype Pass = Pass(at: int, start: int)

  function NextPasses(limit: Limit, maxEntries: int, table: Table, call: Call, key: Key, before: seq<Pass>): seq<Pass> {
    if call.key != key || !Answer(table, limit, maxEntries, false, key, call.now).allowed then before
    else
      var start := if Running(table, key, call.now) then table[key].reset - limit.window else call.now;
      before + [Pass(call.now, start)]
  }

  function Passes(limit: Limit, maxEntries: int, tables: seq<Table>, calls: seq<Call>, key: Key, n: nat): seq<Pass>
    requires |tables| == |calls| + 1 && n <= |calls|
  {
    if n == 0 then []
    else
      NextPasses(limit, maxEntries, tables[n - 1], calls[n - 1], key, Passes(limit, maxEntries, tables, calls, key, n - 1))
  }

  /** How the passes of a key are spread over its buckets. */
  ghost predicate Spread(limit: Limit, passes: seq<Pass>) {
    && (forall i :: 0 <= i < |passes| ==> passes[i].start <= passes[i].at < passes[i].start + limit.window)
    && (forall i, j :: 0 <= i < j < |passes| ==>
          passes[i].start == passes[j].start || passes[i].start + limit.window <= passes[j].start)
    && (forall i :: 0 <= i && i + Max(1, limit.requests) < |passes| ==>
          passes[i].start < passes[i + Max(1, limit.requests)].start)
  }

  /** How the table's bucket for a key relates to the key's passes. */
  ghost predicate Tracks(limit: Limit, table: Table, key: Key, passes: seq<Pass>, now: int) {
    && (key in table ==>
          && 1 <= table[key].count <= |passes| && table[key].count <= Max(1, limit.requests)
          && (forall i :: |passes| - table[key].count <= i < |passes| ==> passes[i].start == table[key].reset - limit.window)
          && (forall i :: 0 <= i < |passes| - table[key].count ==> passes[i].start + limit.window <= table[key].reset - limit.window))
    && (key !in table ==> forall i :: 0 <= i < |passes| ==> passes[i].start + limit.window <= now)
  }

  lemma TracksLater(limit: Limit, table: Table, next: Table, key: Key, passes: seq<Pass>, now: int, later: int)
    requires limit.window > 0 && Tracks(limit, table, key, passes, now) && now <= later
    requires if key in next then key in table && next[key] == table[key] else key in table ==> table[key].reset <= later
    ensures Tracks(limit, next, key, passes, later)
  {
    if key !in next && key in table {
      forall i | 0 <= i < |passes|
        ensures passes[i].start + limit.window <= later
      {
        if i >= |passes| - table[key].count {
          assert passes[i].start == table[key].reset - limit.window;
        } else {
          var last := |passes| - 1;
          assert passes[last].start == table[key].reset - limit.window;
          assert passes[i].start + limit.window <= table[key].reset - limit.window;
          assert table[key].count >= 1;
        }
      }
    }
  }

  /** A call with another key leaves the key's bucket, unless it has expired. */
  lemma OthersLeaveIt(table: Table, limit: Limit, maxEntries: int, call: Call, key: Key)
    requires call.key != key
    ensures var next := After(table, limit, maxEntries, call.key, call.now);
      if key in next then key in table && next[key] == table[key] else key in table ==> table[key].reset <= call.now
  {
  }

  /** One more pass, in the last bucket while that has room or in a later one. */
  lemma SpreadOn(limit: Limit, passes: seq<Pass>, pass: Pass)
    requires limit.window > 0 && Spread(limit, passes)
    requires pass.start <= pass.at < pass.start + limit.window
    requires forall i :: 0 <= i < |passes| ==>
      passes[i].start == pass.start || passes[i].start + limit.window <= pass.start
    requires var m := Max(1, limit.requests); |passes| >= m ==> passes[|passes| - m].start + limit.window <= pass.start
    ensures Spread(limit, passes + [pass])
  {
    var all, m := passes + [pass], Max(1, limit.requests);
    assert m >= 1;
    hide Max;
    forall i | 0 <= i && i + m < |all|
      ensures all[i].start < all[i + m].start
    {
      if i + m < |passes| {
        assert passes[i].start < passes[i + m].start;
      }
    }
  }

  /** The next pass, counted in the bucket that is running. */
  lemma PassInBucket(limit: Limit, table: Table, key: Key, passes: seq<Pass>, now: int, at: int)
    requires limit.window > 0 && Spread(limit, passes) && Tracks(limit, table, key, passes, now) && now <= at
    requires Running(table, key, at) && table[key].count < limit.requests
    requires table[key].reset - limit.window <= now
    ensures var next := passes + [Pass(at, table[key].reset - limit.window)];
      Spread(limit, next) && Tracks(limit, table[key := Bucket(table[key].count + 1, table[key].reset)], key, next, at)
  {
    var pass := Pass(at, table[key].reset - limit.window);
    assert Spread(limit, passes + [pass]) by {
      hide Spread;
      SpreadOn(limit, passes, pass);
    }
    hide Spread;
  }

  /** The next pass, in a bucket of its own. */
  lemma PassInNewBucket(limit: Limit, table: Table, next: Table, key: Key, passes: seq<Pass>, now: int, at: int)
    requires limit.window > 0 && Spread(limit, passes) && Tracks(limit, table, key, passes, now) && now <= at
    requires !Running(table, key, at) && key in next && next[key] == Bucket(1, at + limit.window)
    ensures var all := passes + [Pass(at, at)]; Spread(limit, all) && Tracks(limit, next, key, all, at)
  {
    var none := if key in table then table - {key} else table;
    TracksLater(limit, table, none, key, passes, now, at);
    hide Spread;
    SpreadOn(limit, passes, Pass(at, at));
  }

  function LastTime(calls: seq<Call>, n: nat): int
    requires n <= |calls|
  {
    if n == 0 then if calls == [] then 0 else calls[0].now else calls[n - 1].now
  }

  /** Buckets never start in the future. */
  ghost predicate Started(limit: Limit, table: Table, key: Key, now: int) {
    key in table ==> table[key].reset - limit.window <= now
  }

  lemma {:induction false} PassesAreSpread(limit: Limit, maxEntries: int, tables: seq<Table>, calls: seq<Call>, key: Key, n: nat)
    requires Run(limit, maxEntries, tables, calls) && n <= |calls| && limit.window > 0
    ensures var passes := Passes(limit, maxEntries, tables, calls, key, n);
      && Spread(limit, passes) && Tracks(limit, tables[n], key, passes, LastTime(calls, n))
      && Started(limit, tables[n], key, LastTime(calls, n))
      && forall i :: 0 <= i < |passes| ==> passes[i].at <= LastTime(calls, n)
  {
    hide Spread, Tracks, Evicted, WithoutExpired;
    if n == 0 {
      assert Spread(limit, []) && Tracks(limit, tables[0], key, [], LastTime(calls, 0)) by {
        NothingPassed(limit, key, LastTime(calls, 0));
      }
    } else {
      PassesAreSpread(limit, maxEntries, tables, calls, key, n - 1);
      hide Run;
      StepIsSpread(limit, maxEntries, tables[n - 1], calls[n - 1], key,
        Passes(limit, maxEntries, tables, calls, key, n - 1), LastTime(calls, n - 1));
    }
  }

  lemma StepIsSpread(limit: Limit, maxEntries: int, table: Table, call: Call, key: Key, before: seq<Pass>, now: int)
    requires limit.window > 0 && now <= call.now && Spread(limit, before) && Tracks(limit, table, key, before, now)
    requires Started(limit, table, key, now)
    ensures var next := After(table, limit, maxEntries, call.key, call.now);
      var passes := NextPasses(limit, maxEntries, table, call, key, before);
      Spread(limit, passes) && Tracks(limit, next, key, passes, call.now) && Started(limit, next, key, call.now)
  {
    hide Spread, Tracks, Evicted, WithoutExpired;
    var next := After(table, limit, maxEntries, call.key, call.now);
    if call.key != key {
      OthersLeaveIt(table, limit, maxEntries, call, key);
      TracksLater(limit, table, next, key, before, now, call.now);
    } else if Running(table, key, call.now) {
      if table[key].count < limit.requests {
        PassInBucket(limit, table, key, before, now, call.now);
      } else {
        TracksLater(limit, table, table, key, before, now, call.now);
      }
    } else if Full(table, maxEntries, key, call.now) {
      EvictedLacks(table, maxEntries, key, call.now);
      TracksLater(limit, table, next, key, before, now, call.now);
    } else {
      PassInNewBucket(limit, table, next, key, before, now, call.now);
    }
  }

  lemma NothingPassed(limit: Limit, key: Key, now: int)
    ensures Spread(limit, []) && Tracks(limit, map[], key, [], now)
  {
  }

  lemma EvictedLacks(table: Table, maxEntries: int, key: Key, now: int)
    requires key !in table
    ensures key !in Evicted(table, maxEntries, key, now)
  {
  }

  /** The closed limiter lets at most 2 * Requests requests of a key through in
      any half-open window, and one more pass lies more than a window later. */
  lemma PassesAreFarApart(limit: Limit, maxEntries: int, tables: seq<Table>, calls: seq<Call>, key: Key, i: nat)
    requires Run(limit, maxEntries, tables, calls) && limit.window > 0
    requires i + 2 * Max(1, limit.requests) < |Passes(limit, maxEntries, tables, calls, key, |calls|)|
    ensures var passes := Passes(limit, maxEntries, tables, calls, key, |calls|);
      passes[i].at + limit.window < passes[i + 2 * Max(1, limit.requests)].at
  {
    hide Passes, Tracks, After;
    PassesAreSpread(limit, maxEntries, tables, calls, key, |calls|);
    var passes, m := Passes(limit, maxEntries, tables, calls, key, |calls|), Max(1, limit.requests);
    assert passes[i].start < passes[i + m].start;
    assert passes[i + m].start < passes[i + m + m].start;
  }

  /** The passes at times in [from, from + window). */
  function PassesWithin(passes: seq<Pass>, from: int, window: int): set<nat> {
    set i: nat | 0 <= i < |passes| && from <= passes[i].at < from + window
  }

  lemma WindowHoldsFew(limit: Limit, maxEntries: int, tables: seq<Table>, calls: seq<Call>, key: Key, from: int)
    requires Run(limit, maxEntries, tables, calls)
    ensures |PassesWithin(Passes(limit, maxEntries, tables, calls, key, |calls|), from, limit.window)|
      <= 2 * Max(1, limit.requests)
  {
    hide Passes, Max, After;
    var passes := Passes(limit, maxEntries, tables, calls, key, |calls|);
    var inside, m := PassesWithin(passes, from, limit.window), 2 * Max(1, limit.requests);
    MaxIsPositive(limit.requests);
    if inside != {} && limit.window > 0 {
      var low := Least(inside);
      forall i | i in inside
        ensures low <= i < low + m
      {
        if i >= low + m {
          PassesAreFarApart(limit, maxEntries, tables, calls, key, i - m);
          PassTimesRise(limit, maxEntries, tables, calls, key, low, i - m);
        }
      }
      SizeWithin(inside, low, m);
    }
  }

  lemma MaxIsPositive(n: int)
    ensures Max(1, n) >= 1
  {
  }

  lemma PassTimesRise(limit: Limit, maxEntries: int, tables: seq<Table>, calls: seq<Call>, key: Key, i: nat, j: nat)
    requires Run(limit, maxEntries, tables, calls)
    requires i <= j < |Passes(limit, maxEntries, tables, calls, key, |calls|)|
    ensures var passes := Passes(limit, maxEntries, tables, calls, key, |calls|); passes[i].at <= passes[j].at
  {
    TimesRiseUpTo(limit, maxEntries, tables, calls, key, |calls|);
  }

  predicate Rising(passes: seq<Pass>, bound: int) {
    && (forall i :: 0 <= i < |passes| ==> passes[i].at <= bound)
    && (forall i, j :: 0 <= i <= j < |passes| ==> passes[i].at <= passes[j].at)
  }

  lemma RisingMore(passes: seq<Pass>, bound: int, at: int, start: int)
    requires Rising(passes, bound) && bound <= at
    ensures Rising(passes, at) && Rising(passes + [Pass(at, start)], at)
  {
  }

  lemma {:induction false} TimesRiseUpTo(limit: Limit, maxEntries: int, tables: seq<Table>, calls: seq<Call>, key: Key, n: nat)
    requires Run(limit, maxEntries, tables, calls) && n <= |calls|
    ensures Rising(Passes(limit, maxEntries, tables, calls, key, n), LastTime(calls, n))
  {
    hide After, Answer, Rising;
    if n == 0 {
      assert Rising([], LastTime(calls, 0)) by {
        NothingRises(LastTime(calls, 0));
      }
    } else {
      TimesRiseUpTo(limit, maxEntries, tables, calls, key, n - 1);
      var before, all := Passes(limit, maxEntries, tables, calls, key, n - 1), Passes(limit, maxEntries, tables, calls, key, n);
      assert LastTime(calls, n - 1) <= calls[n - 1].now;
      RisingMore(before, LastTime(calls, n - 1), calls[n - 1].now, 0);
      if all != before {
        RisingMore(before, LastTime(calls, n - 1), calls[n - 1].now, all[|before|].start);
      }
    }
  }

  lemma NothingRises(bound: int)
    ensures Rising([], bound)
  {
  }

  /** A tracked key that is refused is refused again however often it retries
      too early, and once the delay it was told has passed it is accepted,
      unless the closed limiter has forgotten it meanwhile and has no room. */
  lemma {:induction false} RefusedThenAccepted(limit: Limit, maxEntries: int, open: bool, tables: seq<Table>, calls: seq<Call>, i: nat, j: nat)
    requires Run(limit, maxEntries, tables, calls) && i < j < |calls|
    requires calls[j].key == calls[i].key && Running(tables[i], calls[i].key, calls[i].now)
    requires var v := Answer(tables[i], limit, maxEntries, open, calls[i].key, calls[i].now);
      !v.allowed
      && forall k :: i < k < j && calls[k].key == calls[i].key ==> calls[k].now < calls[i].now + v.retryAfter
    ensures var told := calls[i].now + Answer(tables[i], limit, maxEntries, open, calls[i].key, calls[i].now).retryAfter;
      if calls[j].now < told then
        Answer(tables[j], limit, maxEntries, open, calls[j].key, calls[j].now) == Verdict(false, told - calls[j].now)
      else
        Answer(tables[j], limit, maxEntries, open, calls[j].key, calls[j].now).allowed <==>
          open || calls[j].key in tables[j] || !Full(tables[j], maxEntries, calls[j].key, calls[j].now)
  {
    hide Evicted;
    var key := calls[i].key;
    var bucket := tables[i][key];
    var k := i + 1;
    while k < j
      invariant i < k <= j
      invariant if key in tables[k] then tables[k][key] == bucket else bucket.reset <= calls[k - 1].now
    {
      assert calls[k - 1].now <= calls[k].now;
      if calls[k].key != key {
        OthersLeaveIt(tables[k], limit, maxEntries, calls[k], key);
      }
      k := k + 1;
    }
    assert calls[j - 1].now <= calls[j].now;
  }

  // ----- Nobody is refused too early -----

  /** There is no room for a new key exactly while at least as many other keys
      as fit have buckets that still run. */
  lemma FullIff(table: Table, maxEntries: int, key: Key, now: int)
    ensures Full(table, maxEntries, key, now) <==>
      key !in table && |set k | k in table && now < table[k].reset| >= maxEntries
  {
    var running := set k | k in table && now < table[k].reset;
    assert WithoutExpired(table, now).Keys == running;
    assert |WithoutExpired(table, now).Keys| == |WithoutExpired(table, now)|;
    SizeWithoutExpired(table, now);
  }

  /** Who is refused by the closed limiter was let through as often as allowed
      within the window that ends now, or met a full table; and is told to come
      back within a window. */
  lemma RefusedHadEnough(limit: Limit, maxEntries: int, tables: seq<Table>, calls: seq<Call>, n: nat)
    requires Run(limit, maxEntries, tables, calls) && n < |calls| && limit.window > 0
    requires !Answer(tables[n], limit, maxEntries, false, calls[n].key, calls[n].now).allowed
    ensures var key, now := calls[n].key, calls[n].now;
      var told := Answer(tables[n], limit, maxEntries, false, key, now).retryAfter;
      && 0 < told <= limit.window
      && if key in tables[n] then
           |PassesWithin(Passes(limit, maxEntries, tables, calls, key, n), now - limit.window + 1, limit.window)| >=
             Max(1, limit.requests)
         else |set k | k in tables[n] && now < tables[n][k].reset| >= maxEntries
  {
    hide Passes, After, Evicted, Spread;
    var key, now := calls[n].key, calls[n].now;
    var passes := Passes(limit, maxEntries, tables, calls, key, n);
    PassesAreSpread(limit, maxEntries, tables, calls, key, n);
    FullIff(tables[n], maxEntries, key, now);
    assert LastTime(calls, n) <= now;
    if key in tables[n] {
      var bucket := tables[n][key];
      var recent := Range(|passes| - bucket.count, bucket.count);
      RangeSize(recent, |passes| - bucket.count, bucket.count);
      forall i | i in recent
        ensures i in PassesWithin(passes, now - limit.window + 1, limit.window)
      {
        StartedBefore(limit, passes, i);
      }
      SubsetSize(recent, PassesWithin(passes, now - limit.window + 1, limit.window));
    }
  }

  lemma StartedBefore(limit: Limit, passes: seq<Pass>, i: nat)
    requires Spread(limit, passes) && i < |passes|
    ensures passes[i].start <= passes[i].at
  {
  }
}

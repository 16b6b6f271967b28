/** The session cache: how long a revoked token can still be accepted when
    checks, lookups, revocations and Forget race with each other. */
module Sessions {
  import opened Finite

  type UserId = nat
  type CheckId = nat

  /** An account's session epoch; a deleted or unknown account has none. */
  datatype Epoch = Missing | At(number: int)

  datatype Entry = Entry(value: Epoch, expires: int)

  type Cache = map<UserId, Entry>

  datatype Lookup = Found(value: Epoch) | LookupFailed

  predicate Hit(entries: Cache, user: UserId, now: int) {
    user in entries && now < entries[user].expires
  }

  /** A full table is emptied before anything is added. */
  function AfterStore(entries: Cache, maxEntries: int, user: UserId, entry: Entry): Cache {
    (if |entries| >= maxEntries then map[] else entries)[user := entry]
  }

  class Sessions {
    const ttl: int
    const maxEntries: int
    var entries: Cache

    constructor (ttl: int, maxEntries: int)
      ensures this.ttl == ttl && this.maxEntries == maxEntries && entries == map[]
    {
      this.ttl, this.maxEntries, entries := ttl, maxEntries, map[];
    }

    method Forget(user: UserId)
      modifies this
      ensures entries == old(entries) - {user}
    {
      entries := entries - {user};
    }

    /** One check, with the lookup's answer in case it is needed. */
    method Check(now: int, user: UserId, epoch: int, lookup: Lookup) returns (accepted: bool)
      modifies this
      ensures |entries| <= Max(|old(entries)|, Max(1, maxEntries))
      ensures Hit(old(entries), user, now) ==>
        entries == old(entries) && accepted == (old(entries)[user].value == At(epoch))
      ensures !Hit(old(entries), user, now) && lookup.LookupFailed? ==> entries == old(entries) && !accepted
      ensures !Hit(old(entries), user, now) && lookup.Found? ==>
        && entries == AfterStore(old(entries), maxEntries, user, Entry(lookup.value, now + ttl))
        && accepted == (lookup.value == At(epoch))
    {
      var entry := Entry(Missing, now);
      var ok := user in entries;
      if ok {
        entry := entries[user];
      }
      if !ok || now >= entry.expires {
        if lookup.LookupFailed? {
          return false;
        }
        entry := Entry(lookup.value, now + ttl);
        if |entries| >= maxEntries {
          entries := map[];
        }
        entries := entries[user := entry];
      }
      accepted := !entry.value.Missing? && entry.value.number == epoch;
    }
  }

  // ----- Interleavings -----

  /** A check reads the clock, then the table; without a usable entry it asks
      the database, then stores the answer. */
  datatype Phase = Started | Asking | Answered(value: Epoch) | Decided(accepted: bool)

  datatype Check = Check(user: UserId, epoch: int, start: int, phase: Phase)

  datatype World = World(clock: int, epochs: map<UserId, Epoch>, entries: Cache, checks: map<CheckId, Check>)

  datatype Step =
    | Tick(to: int)
    | CreateAccount(user: UserId, epoch: int)
    | Revoke(user: UserId)
    | DeleteAccount(user: UserId)
    | Forget(user: UserId)
    | Begin(check: CheckId, user: UserId, epoch: int)
    | Read(check: CheckId)
    | AskFails(check: CheckId)
    | Ask(check: CheckId)
    | Save(check: CheckId)

  function Current(w: World, user: UserId): Epoch {
    if user in w.epochs then w.epochs[user] else Missing
  }

  predicate InPhase(w: World, check: CheckId, phase: Phase) {
    check in w.checks && w.checks[check].phase == phase
  }

  predicate Enabled(w: World, s: Step) {
    match s
    case Tick(to) => to >= w.clock
    case CreateAccount(user, epoch) => user !in w.epochs
    case Revoke(user) => Current(w, user).At?
    case DeleteAccount(user) => user in w.epochs
    case Forget(user) => true
    case Begin(check, user, epoch) => check !in w.checks
    case Read(check) => InPhase(w, check, Started)
    case AskFails(check) => InPhase(w, check, Asking)
    case Ask(check) => InPhase(w, check, Asking)
    case Save(check) => check in w.checks && w.checks[check].phase.Answered?
  }

  function Move(w: World, check: CheckId, phase: Phase): World
    requires check in w.checks
  {
    w.(checks := w.checks[check := w.checks[check].(phase := phase)])
  }

  function Apply(w: World, ttl: int, maxEntries: int, s: Step): World
    requires Enabled(w, s)
  {
    match s
    case Tick(to) => w.(clock := to)
    case CreateAccount(user, epoch) => w.(epochs := w.epochs[user := At(epoch)])
    case Revoke(user) => w.(epochs := w.epochs[user := At(w.epochs[user].number + 1)])
    case DeleteAccount(user) => w.(epochs := w.epochs[user := Missing])
    case Forget(user) => w.(entries := w.entries - {user})
    case Begin(check, user, epoch) => w.(checks := w.checks[check := Check(user, epoch, w.clock, Started)])
    case Read(check) =>
      var c := w.checks[check];
      if Hit(w.entries, c.user, c.start) then Move(w, check, Decided(w.entries[c.user].value == At(c.epoch)))
      else Move(w, check, Asking)
    case AskFails(check) => Move(w, check, Decided(false))
    case Ask(check) => Move(w, check, Answered(Current(w, w.checks[check].user)))
    case Save(check) =>
      var c := w.checks[check];
      var stored := w.(entries := AfterStore(w.entries, maxEntries, c.user, Entry(c.phase.value, c.start + ttl)));
      Move(stored, check, Decided(c.phase.value == At(c.epoch)))
  }

  ghost predicate Run(ttl: int, maxEntries: int, worlds: seq<World>, steps: seq<Step>) {
    && |worlds| == |steps| + 1
    && worlds[0].entries == map[] && worlds[0].checks == map[]
    && forall i :: 0 <= i < |steps| ==> Enabled(worlds[i], steps[i]) && worlds[i + 1] == Apply(worlds[i], ttl, maxEntries, steps[i])
  }

  /** At some instant of the run so far that was no earlier than `since`, the
      user's epoch was this. */
  ghost predicate WasCurrent(worlds: seq<World>, i: nat, user: UserId, value: Epoch, since: int)
    requires i < |worlds|
  {
    exists k :: 0 <= k <= i && Current(worlds[k], user) == value && worlds[k].clock >= since
  }

  /** Every cached or looked-up epoch was current recently enough. */
  ghost predicate Inv(ttl: int, worlds: seq<World>, i: nat)
    requires i < |worlds|
  {
    var w := worlds[i];
    && (forall user :: user in w.entries ==>
          WasCurrent(worlds, i, user, w.entries[user].value, w.entries[user].expires - ttl))
    && (forall c :: c in w.checks ==> CheckOk(ttl, worlds, i, w.checks[c]))
  }

  ghost predicate CheckOk(ttl: int, worlds: seq<World>, i: nat, c: Check)
    requires i < |worlds|
  {
    && c.start <= worlds[i].clock
    && (c.phase.Answered? ==> WasCurrent(worlds, i, c.user, c.phase.value, c.start))
    && (c.phase == Decided(true) ==> AcceptedInTime(ttl, worlds, i, c))
  }

  /** The accepted epoch was current at some instant later than the start of
      the check less the time to live, or not before the start. */
  ghost predicate AcceptedInTime(ttl: int, worlds: seq<World>, i: nat, c: Check)
    requires i < |worlds|
  {
    || WasCurrent(worlds, i, c.user, At(c.epoch), c.start)
    || WasCurrent(worlds, i, c.user, At(c.epoch), c.start - ttl + 1)
  }

  lemma WasCurrentLater(worlds: seq<World>, i: nat, user: UserId, value: Epoch, since: int, earlier: int)
    requires i + 1 < |worlds| && earlier <= since && WasCurrent(worlds, i, user, value, since)
    ensures WasCurrent(worlds, i, user, value, earlier) && WasCurrent(worlds, i + 1, user, value, earlier)
  {
    var k :| 0 <= k <= i && Current(worlds[k], user) == value && worlds[k].clock >= since;
    assert 0 <= k <= i + 1 && Current(worlds[k], user) == value && worlds[k].clock >= earlier;
  }

  lemma CheckOkLater(ttl: int, worlds: seq<World>, i: nat, c: Check)
    requires i + 1 < |worlds| && worlds[i].clock <= worlds[i + 1].clock && CheckOk(ttl, worlds, i, c)
    ensures CheckOk(ttl, worlds, i + 1, c)
  {
    hide WasCurrent;
    if c.phase.Answered? {
      WasCurrentLater(worlds, i, c.user, c.phase.value, c.start, c.start);
    } else if c.phase == Decided(true) {
      if WasCurrent(worlds, i, c.user, At(c.epoch), c.start) {
        WasCurrentLater(worlds, i, c.user, At(c.epoch), c.start, c.start);
      } else {
        WasCurrentLater(worlds, i, c.user, At(c.epoch), c.start - ttl + 1, c.start - ttl + 1);
      }
    }
  }

  lemma EntryLater(ttl: int, worlds: seq<World>, i: nat, user: UserId)
    requires i + 1 < |worlds| && Inv(ttl, worlds, i) && user in worlds[i].entries
    ensures var e := worlds[i].entries[user];
      WasCurrent(worlds, i, user, e.value, e.expires - ttl) && WasCurrent(worlds, i + 1, user, e.value, e.expires - ttl)
  {
    hide WasCurrent;
    var e := worlds[i].entries[user];
    WasCurrentLater(worlds, i, user, e.value, e.expires - ttl, e.expires - ttl);
  }

  /** The check that a step moves on. */
  lemma MovedCheckOk(ttl: int, maxEntries: int, worlds: seq<World>, i: nat, s: Step, id: CheckId)
    requires i + 1 < |worlds| && Inv(ttl, worlds, i) && Enabled(worlds[i], s)
    requires worlds[i + 1] == Apply(worlds[i], ttl, maxEntries, s)
    requires id in worlds[i + 1].checks && (id in worlds[i].checks ==> worlds[i + 1].checks[id] != worlds[i].checks[id])
    ensures CheckOk(ttl, worlds, i + 1, worlds[i + 1].checks[id])
  {
    hide WasCurrent;
    var w := worlds[i];
    match s
    case Begin(_, _, _) =>
    case Read(check) =>
      var c := w.checks[check];
      assert CheckOk(ttl, worlds, i, c);
      if Hit(w.entries, c.user, c.start) {
        EntryLater(ttl, worlds, i, c.user);
        var e := w.entries[c.user];
        WasCurrentLater(worlds, i, c.user, e.value, e.expires - ttl, c.start - ttl + 1);
      }
    case AskFails(check) => assert CheckOk(ttl, worlds, i, w.checks[check]);
    case Ask(check) =>
      var c := w.checks[check];
      assert CheckOk(ttl, worlds, i, c);
      HoldsNow(worlds, i, c.user, c.start);
      WasCurrentLater(worlds, i, c.user, Current(w, c.user), c.start, c.start);
    case Save(check) =>
      var c := w.checks[check];
      assert CheckOk(ttl, worlds, i, c);
      WasCurrentLater(worlds, i, c.user, c.phase.value, c.start, c.start);
    case _ =>
  }

  lemma HoldsNow(worlds: seq<World>, i: nat, user: UserId, since: int)
    requires i < |worlds| && worlds[i].clock >= since
    ensures WasCurrent(worlds, i, user, Current(worlds[i], user), since)
  {
  }

  lemma StepKeepsInv(ttl: int, maxEntries: int, worlds: seq<World>, i: nat, s: Step)
    requires i + 1 < |worlds| && Inv(ttl, worlds, i) && Enabled(worlds[i], s)
    requires worlds[i + 1] == Apply(worlds[i], ttl, maxEntries, s)
    ensures Inv(ttl, worlds, i + 1)
  {
    hide WasCurrent;
    var w, v := worlds[i], worlds[i + 1];
    assert w.clock <= v.clock;
    forall id | id in v.checks
      ensures CheckOk(ttl, worlds, i + 1, v.checks[id])
    {
      hide CheckOk;
      if id in w.checks && w.checks[id] == v.checks[id] {
        CheckOkLater(ttl, worlds, i, w.checks[id]);
      } else {
        MovedCheckOk(ttl, maxEntries, worlds, i, s, id);
      }
    }
    forall user | user in v.entries
      ensures WasCurrent(worlds, i + 1, user, v.entries[user].value, v.entries[user].expires - ttl)
    {
      if user in w.entries && w.entries[user] == v.entries[user] {
        EntryLater(ttl, worlds, i, user);
      } else {
        var c := w.checks[s.check];
        assert CheckOk(ttl, worlds, i, c);
        WasCurrentLater(worlds, i, c.user, c.phase.value, c.start, c.start);
      }
    }
  }

  lemma {:induction false} RunKeepsInv(ttl: int, maxEntries: int, worlds: seq<World>, steps: seq<Step>, i: nat)
    requires Run(ttl, maxEntries, worlds, steps) && i < |worlds|
    ensures Inv(ttl, worlds, i)
  {
    hide Inv, Enabled, Apply;
    if i == 0 {
      assert Inv(ttl, worlds, 0) by {
        NothingCached(ttl, worlds);
      }
    } else {
      RunKeepsInv(ttl, maxEntries, worlds, steps, i - 1);
      StepKeepsInv(ttl, maxEntries, worlds, i - 1, steps[i - 1]);
    }
  }

  lemma NothingCached(ttl: int, worlds: seq<World>)
    requires worlds != [] && worlds[0].entries == map[] && worlds[0].checks == map[]
    ensures Inv(ttl, worlds, 0)
  {
  }

  /** An accepted token's epoch was current at some instant later than the
      request's start less the time to live. */
  lemma AcceptedWasCurrent(ttl: int, maxEntries: int, worlds: seq<World>, steps: seq<Step>, i: nat, id: CheckId)
    requires Run(ttl, maxEntries, worlds, steps) && i < |worlds| && InPhase(worlds[i], id, Decided(true)) && ttl > 0
    ensures var c := worlds[i].checks[id];
      exists k :: 0 <= k <= i && Current(worlds[k], c.user) == At(c.epoch) && worlds[k].clock > c.start - ttl
  {
    RunKeepsInv(ttl, maxEntries, worlds, steps, i);
    var c := worlds[i].checks[id];
    assert CheckOk(ttl, worlds, i, c);
    if WasCurrent(worlds, i, c.user, At(c.epoch), c.start) {
      var k :| 0 <= k <= i && Current(worlds[k], c.user) == At(c.epoch) && worlds[k].clock >= c.start;
      assert worlds[k].clock > c.start - ttl;
    } else {
      var k :| 0 <= k <= i && Current(worlds[k], c.user) == At(c.epoch) && worlds[k].clock >= c.start - ttl + 1;
      assert worlds[k].clock > c.start - ttl;
    }
  }

  /** So a token revoked at least the time to live before a request starts is
      always refused. */
  lemma RevokedIsRefused(ttl: int, maxEntries: int, worlds: seq<World>, steps: seq<Step>, i: nat, id: CheckId)
    requires Run(ttl, maxEntries, worlds, steps) && i < |worlds| && id in worlds[i].checks && ttl > 0
    requires var c := worlds[i].checks[id];
      forall k :: 0 <= k <= i && worlds[k].clock > c.start - ttl ==> Current(worlds[k], c.user) != At(c.epoch)
    ensures worlds[i].checks[id].phase != Decided(true)
  {
    if worlds[i].checks[id].phase == Decided(true) {
      AcceptedWasCurrent(ttl, maxEntries, worlds, steps, i, id);
    }
  }

  /** The cache holds at most maxEntries, or one when that is less. */
  lemma {:induction false} CacheStaysBounded(ttl: int, maxEntries: int, worlds: seq<World>, steps: seq<Step>, i: nat)
    requires Run(ttl, maxEntries, worlds, steps) && i < |worlds|
    ensures |worlds[i].entries| <= Max(1, maxEntries)
  {
    if i > 0 {
      CacheStaysBounded(ttl, maxEntries, worlds, steps, i - 1);
      FewerEntries(worlds[i - 1], ttl, maxEntries, steps[i - 1]);
    }
  }

  lemma FewerEntries(w: World, ttl: int, maxEntries: int, s: Step)
    requires Enabled(w, s) && |w.entries| <= Max(1, maxEntries)
    ensures |Apply(w, ttl, maxEntries, s).entries| <= Max(1, maxEntries)
  {
    hide Enabled, Apply, AfterStore, Max;
    EntriesAfter(w, ttl, maxEntries, s);
    if s.Forget? {
      SizeWithout(w.entries, s.user);
    } else if s.Save? {
      var c := w.checks[s.check];
      SizeAfterStore(w.entries, maxEntries, c.user, Entry(c.phase.value, c.start + ttl));
    }
  }

  lemma EntriesAfter(w: World, ttl: int, maxEntries: int, s: Step)
    requires Enabled(w, s)
    ensures s.Save? ==> s.check in w.checks && w.checks[s.check].phase.Answered?
    ensures Apply(w, ttl, maxEntries, s).entries ==
      if s.Forget? then w.entries - {s.user}
      else if s.Save? then
        var c := w.checks[s.check];
        AfterStore(w.entries, maxEntries, c.user, Entry(c.phase.value, c.start + ttl))
      else w.entries
  {
    hide AfterStore, Hit;
  }

  lemma SizeWithout(entries: Cache, user: UserId)
    ensures |entries - {user}| <= |entries|
  {
    assert (entries - {user}).Keys == entries.Keys - {user};
    assert |(entries - {user}).Keys| == |entries - {user}| && |entries.Keys| == |entries|;
  }

  lemma SizeAfterStore(entries: Cache, maxEntries: int, user: UserId, entry: Entry)
    requires |entries| <= Max(1, maxEntries)
    ensures |AfterStore(entries, maxEntries, user, entry)| <= Max(1, maxEntries)
  {
    if |entries| >= maxEntries {
      var none: Cache := map[];
      assert none[user := entry].Keys == {user};
      assert |none[user := entry]| == |none[user := entry].Keys|;
    } else {
      assert entries[user := entry].Keys == entries.Keys + {user};
      assert |entries[user := entry]| == |entries[user := entry].Keys|;
    }
  }

  // ----- Forgetting within one process -----

  /** The account's tokens of this epoch were revoked, or it was deleted. */
  predicate Revoked(w: World, user: UserId, epoch: int) {
    user in w.epochs && (w.epochs[user].At? ==> w.epochs[user].number > epoch)
  }

  predicate Waits(c: Check, user: UserId, epoch: int) {
    c.user == user && c.epoch == epoch && c.phase == Started
  }

  /** Whether an entry that lasts until `expires` can still be read as valid:
      by a check that is yet to begin, or by one that began before. */
  predicate StillRead(w: World, user: UserId, epoch: int, expires: int) {
    w.clock < expires || exists c :: c in w.checks && Waits(w.checks[c], user, epoch) && w.checks[c].start < expires
  }

  /** What of the old epoch is still about in this process: a cached entry that
      can still be read, or a looked-up answer that is yet to be stored, and
      will be accepted itself or leave such an entry. */
  predicate Lingers(w: World, ttl: int, user: UserId, epoch: int) {
    || (user in w.entries && w.entries[user].value == At(epoch) && StillRead(w, user, epoch, w.entries[user].expires))
    || exists c :: c in w.checks && Lurks(w, ttl, user, epoch, w.checks[c])
  }

  predicate Lurks(w: World, ttl: int, user: UserId, epoch: int, c: Check) {
    c.user == user && c.phase == Answered(At(epoch)) && (c.epoch == epoch || StillRead(w, user, epoch, c.start + ttl))
  }

  predicate AcceptedAs(w: World, id: CheckId, user: UserId, epoch: int) {
    InPhase(w, id, Decided(true)) && w.checks[id].user == user && w.checks[id].epoch == epoch
  }

  /** Some continuation accepts a check of the old epoch that is not accepted
      yet. */
  ghost predicate CanBeAccepted(w: World, ttl: int, maxEntries: int, user: UserId, epoch: int) {
    exists worlds, steps, id :: Accepts(w, ttl, maxEntries, user, epoch, worlds, steps, id)
  }

  ghost predicate Accepts(w: World, ttl: int, maxEntries: int, user: UserId, epoch: int,
                          worlds: seq<World>, steps: seq<Step>, id: CheckId) {
    && Continues(ttl, maxEntries, worlds, steps) && worlds[0] == w
    && AcceptedAs(worlds[|steps|], id, user, epoch) && !AcceptedAs(w, id, user, epoch)
  }

  ghost predicate Continues(ttl: int, maxEntries: int, worlds: seq<World>, steps: seq<Step>) {
    && |worlds| == |steps| + 1
    && forall i :: 0 <= i < |steps| ==> Enabled(worlds[i], steps[i]) && worlds[i + 1] == Apply(worlds[i], ttl, maxEntries, steps[i])
  }

  /** Once nothing lingers, no step accepts the old epoch or brings it back. */
  lemma StaysOut(w: World, ttl: int, maxEntries: int, s: Step, user: UserId, epoch: int, id: CheckId)
    requires Enabled(w, s) && Revoked(w, user, epoch) && !Lingers(w, ttl, user, epoch)
    ensures var v := Apply(w, ttl, maxEntries, s);
      && Revoked(v, user, epoch) && !Lingers(v, ttl, user, epoch)
      && (AcceptedAs(v, id, user, epoch) ==> AcceptedAs(w, id, user, epoch))
  {
  }

  lemma AcceptedStays(w: World, ttl: int, maxEntries: int, s: Step, user: UserId, epoch: int, id: CheckId)
    requires Enabled(w, s) && AcceptedAs(w, id, user, epoch)
    ensures AcceptedAs(Apply(w, ttl, maxEntries, s), id, user, epoch)
  {
  }

  /** A step may be taken first. */
  lemma StepFirst(w: World, ttl: int, maxEntries: int, s: Step, user: UserId, epoch: int)
    requires Enabled(w, s) && CanBeAccepted(Apply(w, ttl, maxEntries, s), ttl, maxEntries, user, epoch)
    ensures CanBeAccepted(w, ttl, maxEntries, user, epoch)
  {
    hide Enabled, Apply, AcceptedAs;
    var v := Apply(w, ttl, maxEntries, s);
    var worlds, steps, id :| Accepts(v, ttl, maxEntries, user, epoch, worlds, steps, id);
    if AcceptedAs(w, id, user, epoch) {
      AcceptedStays(w, ttl, maxEntries, s, user, epoch, id);
    }
    assert ([w] + worlds)[|[s] + steps|] == worlds[|steps|];
    assert Accepts(w, ttl, maxEntries, user, epoch, [w] + worlds, [s] + steps, id);
  }

  lemma StepAccepts(w: World, ttl: int, maxEntries: int, s: Step, user: UserId, epoch: int, id: CheckId)
    requires Enabled(w, s) && AcceptedAs(Apply(w, ttl, maxEntries, s), id, user, epoch) && !AcceptedAs(w, id, user, epoch)
    ensures CanBeAccepted(w, ttl, maxEntries, user, epoch)
  {
    hide Enabled, Apply, AcceptedAs;
    assert Accepts(w, ttl, maxEntries, user, epoch, [w, Apply(w, ttl, maxEntries, s)], [s], id);
  }

  lemma EntryAccepts(w: World, ttl: int, maxEntries: int, user: UserId, epoch: int)
    requires user in w.entries && w.entries[user].value == At(epoch)
    requires StillRead(w, user, epoch, w.entries[user].expires)
    ensures CanBeAccepted(w, ttl, maxEntries, user, epoch)
  {
    hide CanBeAccepted;
    if w.clock < w.entries[user].expires {
      var id := Outside(w.checks.Keys);
      var s := Begin(id, user, epoch);
      StepAccepts(Apply(w, ttl, maxEntries, s), ttl, maxEntries, Read(id), user, epoch, id);
      StepFirst(w, ttl, maxEntries, s, user, epoch);
    } else {
      var c :| c in w.checks && Waits(w.checks[c], user, epoch) && w.checks[c].start < w.entries[user].expires;
      StepAccepts(w, ttl, maxEntries, Read(c), user, epoch, c);
    }
  }

  lemma AnswerAccepts(w: World, ttl: int, maxEntries: int, user: UserId, epoch: int, c: CheckId)
    requires c in w.checks && Lurks(w, ttl, user, epoch, w.checks[c])
    ensures CanBeAccepted(w, ttl, maxEntries, user, epoch)
  {
    hide CanBeAccepted;
    if w.checks[c].epoch == epoch {
      StepAccepts(w, ttl, maxEntries, Save(c), user, epoch, c);
    } else {
      var v := Apply(w, ttl, maxEntries, Save(c));
      assert StillRead(v, user, epoch, w.checks[c].start + ttl) by {
        if w.clock >= w.checks[c].start + ttl {
          var d :| d in w.checks && Waits(w.checks[d], user, epoch) && w.checks[d].start < w.checks[c].start + ttl;
          assert d in v.checks && v.checks[d] == w.checks[d];
        }
      }
      EntryAccepts(v, ttl, maxEntries, user, epoch);
      StepFirst(w, ttl, maxEntries, Save(c), user, epoch);
    }
  }

  lemma NothingLingersNoneAccepted(w: World, ttl: int, maxEntries: int, user: UserId, epoch: int,
                                   worlds: seq<World>, steps: seq<Step>, id: CheckId)
    requires Revoked(w, user, epoch) && !Lingers(w, ttl, user, epoch)
    requires Continues(ttl, maxEntries, worlds, steps) && worlds[0] == w
    ensures AcceptedAs(worlds[|steps|], id, user, epoch) ==> AcceptedAs(w, id, user, epoch)
  {
    hide Enabled, Apply, AcceptedAs, Lingers, Revoked;
    var n := 0;
    while n < |steps|
      invariant n <= |steps| && Revoked(worlds[n], user, epoch) && !Lingers(worlds[n], ttl, user, epoch)
      invariant AcceptedAs(worlds[n], id, user, epoch) ==> AcceptedAs(w, id, user, epoch)
    {
      StaysOut(worlds[n], ttl, maxEntries, steps[n], user, epoch, id);
      n := n + 1;
    }
  }

  /** After a revocation, an old token can still be accepted if and only if the
      old epoch lingers in this process. */
  lemma StillAcceptedIff(w: World, ttl: int, maxEntries: int, user: UserId, epoch: int)
    requires Revoked(w, user, epoch)
    ensures CanBeAccepted(w, ttl, maxEntries, user, epoch) <==> Lingers(w, ttl, user, epoch)
  {
    hide AcceptedAs, StillRead, Lurks;
    if Lingers(w, ttl, user, epoch) {
      if user in w.entries && w.entries[user].value == At(epoch) && StillRead(w, user, epoch, w.entries[user].expires) {
        EntryAccepts(w, ttl, maxEntries, user, epoch);
      } else {
        var c :| c in w.checks && Lurks(w, ttl, user, epoch, w.checks[c]);
        AnswerAccepts(w, ttl, maxEntries, user, epoch, c);
      }
    } else if CanBeAccepted(w, ttl, maxEntries, user, epoch) {
      var worlds, steps, id :| Accepts(w, ttl, maxEntries, user, epoch, worlds, steps, id);
      NothingLingersNoneAccepted(w, ttl, maxEntries, user, epoch, worlds, steps, id);
    }
  }

  /** Right after Forget, that is so if and only if a lookup that found the old
      epoch is under way, and it is for a check of that epoch itself or some
      check of it begins, or began, before the answer's time to live ends. */
  lemma ForgottenIsStillAcceptedIff(w: World, ttl: int, maxEntries: int, user: UserId, epoch: int)
    requires Revoked(w, user, epoch)
    ensures CanBeAccepted(Apply(w, ttl, maxEntries, Forget(user)), ttl, maxEntries, user, epoch) <==>
      exists c :: c in w.checks && Lurks(w, ttl, user, epoch, w.checks[c])
  {
    hide CanBeAccepted;
    var v := Apply(w, ttl, maxEntries, Forget(user));
    StillAcceptedIff(v, ttl, maxEntries, user, epoch);
    forall c | c in w.checks
      ensures Lurks(v, ttl, user, epoch, w.checks[c]) == Lurks(w, ttl, user, epoch, w.checks[c])
    {
      forall expires
        ensures StillRead(v, user, epoch, expires) == StillRead(w, user, epoch, expires)
      {
      }
    }
  }

  /** Step by step from nothing: a lookup is under way when the account's
      tokens are revoked and its entry is forgotten; its answer is stored
      afterwards, and a request that begins after that is accepted with a token
      that is no longer current. */
  lemma LateStoreOutlivesForget(ttl: int, maxEntries: int, epoch: int) returns (worlds: seq<World>, steps: seq<Step>)
    requires ttl > 0
    ensures Run(ttl, maxEntries, worlds, steps)
    ensures steps == [CreateAccount(0, epoch), Begin(0, 0, epoch), Read(0), Ask(0), Revoke(0), Forget(0), Save(0),
                      Begin(1, 0, epoch), Read(1)]
    ensures Current(worlds[7], 0) != At(epoch) && Current(worlds[9], 0) != At(epoch)
    ensures AcceptedAs(worlds[9], 1, 0, epoch)
  {
    var w4 := World(0, map[0 := At(epoch)], map[], map[0 := Check(0, epoch, 0, Answered(At(epoch)))]);
    var w7 := World(0, map[0 := At(epoch + 1)], map[0 := Entry(At(epoch), ttl)], map[0 := Check(0, epoch, 0, Decided(true))]);
    var w9 := w7.(checks := w7.checks[1 := Check(0, epoch, 0, Decided(true))]);
    var worlds4, steps4 := UpToTheAnswer(ttl, maxEntries, epoch, w4);
    var worlds7, steps7 := UpToTheStore(ttl, maxEntries, epoch, w4, w7, worlds4, steps4);
    AcceptedHere(w9, epoch);
    hide Apply, Enabled, InPhase, AcceptedAs, Run;
    worlds, steps := UpToTheEnd(ttl, maxEntries, epoch, w7, w9, worlds7, steps7);
  }

  lemma Then(ttl: int, maxEntries: int, worlds: seq<World>, steps: seq<Step>, s: Step, v: World)
    requires Run(ttl, maxEntries, worlds, steps) && Enabled(worlds[|steps|], s)
    requires Apply(worlds[|steps|], ttl, maxEntries, s) == v
    ensures Run(ttl, maxEntries, worlds + [v], steps + [s])
    ensures |worlds| == |steps| + 1 && (worlds + [v])[|steps + [s]|] == v
  {
    hide Enabled, Apply;
  }

  lemma UpToTheAnswer(ttl: int, maxEntries: int, epoch: int, w4: World) returns (worlds: seq<World>, steps: seq<Step>)
    requires w4 == World(0, map[0 := At(epoch)], map[], map[0 := Check(0, epoch, 0, Answered(At(epoch)))])
    ensures Run(ttl, maxEntries, worlds, steps) && worlds[|steps|] == w4
    ensures steps == [CreateAccount(0, epoch), Begin(0, 0, epoch), Read(0), Ask(0)]
  {
    var w0 := World(0, map[], map[], map[]);
    var w1 := w0.(epochs := map[0 := At(epoch)]);
    var w2 := w1.(checks := map[0 := Check(0, epoch, 0, Started)]);
    var w3 := w1.(checks := map[0 := Check(0, epoch, 0, Asking)]);
    LookedUp(w0, w1, w2, w3, w4, ttl, maxEntries, epoch);
    worlds, steps := [w0], [];
    assert Run(ttl, maxEntries, worlds, steps);
    hide Apply, Enabled, InPhase, Run;
    Then(ttl, maxEntries, worlds, steps, CreateAccount(0, epoch), w1);
    worlds, steps := worlds + [w1], steps + [CreateAccount(0, epoch)];
    Then(ttl, maxEntries, worlds, steps, Begin(0, 0, epoch), w2);
    worlds, steps := worlds + [w2], steps + [Begin(0, 0, epoch)];
    Then(ttl, maxEntries, worlds, steps, Read(0), w3);
    worlds, steps := worlds + [w3], steps + [Read(0)];
    Then(ttl, maxEntries, worlds, steps, Ask(0), w4);
    worlds, steps := worlds + [w4], steps + [Ask(0)];
  }

  lemma UpToTheStore(ttl: int, maxEntries: int, epoch: int, w4: World, w7: World, before: seq<World>, done: seq<Step>)
    returns (worlds: seq<World>, steps: seq<Step>)
    requires w4 == World(0, map[0 := At(epoch)], map[], map[0 := Check(0, epoch, 0, Answered(At(epoch)))])
    requires w7 == World(0, map[0 := At(epoch + 1)], map[0 := Entry(At(epoch), ttl)], map[0 := Check(0, epoch, 0, Decided(true))])
    requires Run(ttl, maxEntries, before, done) && before[|done|] == w4
    ensures Run(ttl, maxEntries, worlds, steps) && worlds[|steps|] == w7
    ensures steps == done + [Revoke(0), Forget(0), Save(0)]
  {
    var w5 := w4.(epochs := map[0 := At(epoch + 1)]);
    RevokedAndForgotten(w4, w5, w7, ttl, maxEntries, epoch);
    hide Apply, Enabled, InPhase, Run;
    Then(ttl, maxEntries, before, done, Revoke(0), w5);
    worlds, steps := before + [w5], done + [Revoke(0)];
    Then(ttl, maxEntries, worlds, steps, Forget(0), w5);
    worlds, steps := worlds + [w5], steps + [Forget(0)];
    Then(ttl, maxEntries, worlds, steps, Save(0), w7);
    worlds, steps := worlds + [w7], steps + [Save(0)];
  }

  lemma UpToTheEnd(ttl: int, maxEntries: int, epoch: int, w7: World, w9: World, before: seq<World>, done: seq<Step>)
    returns (worlds: seq<World>, steps: seq<Step>)
    requires ttl > 0
    requires w7 == World(0, map[0 := At(epoch + 1)], map[0 := Entry(At(epoch), ttl)], map[0 := Check(0, epoch, 0, Decided(true))])
    requires w9 == w7.(checks := w7.checks[1 := Check(0, epoch, 0, Decided(true))])
    requires Run(ttl, maxEntries, before, done) && |done| == 7 && before[7] == w7
    ensures Run(ttl, maxEntries, worlds, steps)
    ensures steps == done + [Begin(1, 0, epoch), Read(1)] && |worlds| == 10 && worlds[7] == w7 && worlds[9] == w9
  {
    var w8 := w7.(checks := w7.checks[1 := Check(0, epoch, 0, Started)]);
    ReadLater(w7, w8, w9, ttl, maxEntries, epoch);
    hide Apply, Enabled, InPhase, Run;
    Then(ttl, maxEntries, before, done, Begin(1, 0, epoch), w8);
    worlds, steps := before + [w8], done + [Begin(1, 0, epoch)];
    Then(ttl, maxEntries, worlds, steps, Read(1), w9);
    worlds, steps := worlds + [w9], steps + [Read(1)];
  }

  lemma AcceptedHere(w: World, epoch: int)
    requires 1 in w.checks && w.checks[1] == Check(0, epoch, 0, Decided(true))
    ensures AcceptedAs(w, 1, 0, epoch)
  {
  }

  lemma LookedUp(w0: World, w1: World, w2: World, w3: World, w4: World, ttl: int, maxEntries: int, epoch: int)
    requires w0 == World(0, map[], map[], map[]) && w1 == w0.(epochs := map[0 := At(epoch)])
    requires w2 == w1.(checks := map[0 := Check(0, epoch, 0, Started)])
    requires w3 == w1.(checks := map[0 := Check(0, epoch, 0, Asking)])
    requires w4 == w1.(checks := map[0 := Check(0, epoch, 0, Answered(At(epoch)))])
    ensures Enabled(w0, CreateAccount(0, epoch)) && Apply(w0, ttl, maxEntries, CreateAccount(0, epoch)) == w1
    ensures Enabled(w1, Begin(0, 0, epoch)) && Apply(w1, ttl, maxEntries, Begin(0, 0, epoch)) == w2
    ensures Enabled(w2, Read(0)) && Apply(w2, ttl, maxEntries, Read(0)) == w3
    ensures Enabled(w3, Ask(0)) && Apply(w3, ttl, maxEntries, Ask(0)) == w4
  {
    assert w0.epochs[0 := At(epoch)] == w1.epochs && w1.checks[0 := Check(0, epoch, 0, Started)] == w2.checks;
    assert w2.checks[0 := Check(0, epoch, 0, Asking)] == w3.checks;
    assert w3.checks[0 := Check(0, epoch, 0, Answered(At(epoch)))] == w4.checks;
  }

  lemma RevokedAndForgotten(w4: World, w5: World, w7: World, ttl: int, maxEntries: int, epoch: int)
    requires w4 == World(0, map[0 := At(epoch)], map[], map[0 := Check(0, epoch, 0, Answered(At(epoch)))])
    requires w5 == w4.(epochs := map[0 := At(epoch + 1)])
    requires w7 == w5.(entries := map[0 := Entry(At(epoch), ttl)], checks := map[0 := Check(0, epoch, 0, Decided(true))])
    ensures Enabled(w4, Revoke(0)) && Apply(w4, ttl, maxEntries, Revoke(0)) == w5
    ensures Enabled(w5, Forget(0)) && Apply(w5, ttl, maxEntries, Forget(0)) == w5
    ensures Enabled(w5, Save(0)) && Apply(w5, ttl, maxEntries, Save(0)) == w7
  {
    assert w4.epochs[0 := At(epoch + 1)] == w5.epochs && w5.entries - {0} == w5.entries;
    assert w5.checks[0 := Check(0, epoch, 0, Decided(true))] == w7.checks;
    assert AfterStore(w5.entries, maxEntries, 0, Entry(At(epoch), ttl)) == w7.entries;
  }

  lemma ReadLater(w7: World, w8: World, w9: World, ttl: int, maxEntries: int, epoch: int)
    requires ttl > 0
    requires w7.clock == 0 && w7.entries == map[0 := Entry(At(epoch), ttl)] && w7.checks.Keys == {0}
    requires w8 == w7.(checks := w7.checks[1 := Check(0, epoch, 0, Started)])
    requires w9 == w7.(checks := w7.checks[1 := Check(0, epoch, 0, Decided(true))])
    ensures Enabled(w7, Begin(1, 0, epoch)) && Apply(w7, ttl, maxEntries, Begin(1, 0, epoch)) == w8
    ensures Enabled(w8, Read(1)) && Apply(w8, ttl, maxEntries, Read(1)) == w9
  {
    assert w8.checks[1 := Check(0, epoch, 0, Decided(true))] == w9.checks;
  }

  // ----- One check on its own -----

  /** A store keeps everybody else's entries while there is room, and nobody's
      when there is none. */
  lemma StoreKeepsOthers(entries: Cache, maxEntries: int, user: UserId, entry: Entry)
    ensures var next := AfterStore(entries, maxEntries, user, entry);
      && user in next && next[user] == entry
      && forall other :: other != user ==>
        && (other in next <==> other in entries && |entries| < maxEntries)
        && (other in next ==> next[other] == entries[other])
  {
  }

  /** Nobody in between: a check is answered from an entry that has not
      expired, and otherwise by the database, whose answer is kept for the time
      to live; when the database does not answer, nothing is accepted. */
  lemma UndisturbedCheck(w: World, ttl: int, maxEntries: int, id: CheckId, user: UserId, epoch: int)
    requires id !in w.checks
    ensures var begun := Apply(w, ttl, maxEntries, Begin(id, user, epoch));
      var seen := Apply(begun, ttl, maxEntries, Read(id));
      if user in w.entries && w.clock < w.entries[user].expires then
        seen.entries == w.entries && seen.checks[id].phase == Decided(w.entries[user].value == At(epoch))
      else
        && seen.checks[id].phase == Asking
        && (var failed := Apply(seen, ttl, maxEntries, AskFails(id));
            failed.entries == w.entries && failed.checks[id].phase == Decided(false))
        && (var saved := Apply(Apply(seen, ttl, maxEntries, Ask(id)), ttl, maxEntries, Save(id));
            && saved.checks[id].phase == Decided(Current(w, user) == At(epoch))
            && saved.entries == AfterStore(w.entries, maxEntries, user, Entry(Current(w, user), w.clock + ttl)))
  {
    hide AfterStore;
  }
}

/** Transcription jobs: the claim's timestamp is a fencing token, so that a
    late result cannot overwrite a newer attempt. */
module Transcriptions {
  import opened Finite
  import opened Options

  type UserId = nat
  type TrackId = nat

  datatype Track = Track(owner: UserId, ready: bool)

  datatype State = Queued | Processing | Done | Failed

  datatype Job = Job(state: State, plain: string, synced: string, updated: int)

  type Jobs = map<TrackId, Job>
  type Tracks = map<TrackId, Track>

  /** What a claim hands to a worker: the lease is the row's new timestamp. */
  datatype Lease = Lease(track: TrackId, stamp: int)

  /** What a worker reports: a transcription or a failure. */
  datatype Report = Report(done: bool, plain: string, synced: string)

  const MOST_ACTIVE := 2

  predicate Active(job: Job) {
    job.state == Queued || job.state == Processing
  }

  function ActiveOf(tracks: Tracks, jobs: Jobs, owner: UserId): set<TrackId> {
    set id | id in jobs && id in tracks && tracks[id].owner == owner && Active(jobs[id])
  }

  // ----- What each statement does -----

  predicate Busy(tracks: Tracks, jobs: Jobs, owner: UserId, id: TrackId) {
    |ActiveOf(tracks, jobs, owner) - {id}| >= MOST_ACTIVE
  }

  /** Inserts a job, or starts a failed one again. */
  function AfterQueue(tracks: Tracks, jobs: Jobs, owner: UserId, id: TrackId, now: int): Jobs {
    if Busy(tracks, jobs, owner, id) || id !in tracks || tracks[id].owner != owner || !tracks[id].ready then jobs
    else if id !in jobs || jobs[id].state == Failed then jobs[id := Job(Queued, "", "", now)]
    else jobs
  }

  predicate Claimable(job: Job, cutoff: int) {
    job.state == Queued || (job.state == Processing && job.updated < cutoff)
  }

  function AfterClaim(jobs: Jobs, id: TrackId, now: int): Jobs
    requires id in jobs
  {
    jobs[id := jobs[id].(state := Processing, updated := now)]
  }

  predicate Accepts(jobs: Jobs, lease: Lease) {
    && lease.track in jobs && jobs[lease.track].updated == lease.stamp && jobs[lease.track].state == Processing
  }

  function AfterFinish(jobs: Jobs, lease: Lease, report: Report, now: int): Jobs {
    if !Accepts(jobs, lease) then jobs
    else jobs[lease.track := Job(if report.done then Done else Failed, report.plain, report.synced, now)]
  }

  class Store {
    var tracks: Tracks
    var jobs: Jobs

    constructor (tracks: Tracks, jobs: Jobs)
      ensures this.tracks == tracks && this.jobs == jobs
    {
      this.tracks, this.jobs := tracks, jobs;
    }

    method Queue(owner: UserId, id: TrackId, now: int) returns (busy: bool)
      modifies this`jobs
      ensures busy == Busy(tracks, old(jobs), owner, id)
      ensures jobs == AfterQueue(tracks, old(jobs), owner, id, now)
    {
      hide ActiveOf;
      var count := CountOthers(owner, id);
      if count >= 2 {
        return true;
      }
      if id in tracks && tracks[id].owner == owner && tracks[id].ready {
        if id !in jobs || jobs[id].state == Failed {
          jobs := jobs[id := Job(Queued, "", "", now)];
        }
      }
      busy := false;
    }

    /** The owner's active jobs for other tracks. */
    method CountOthers(owner: UserId, id: TrackId) returns (count: nat)
      ensures count == |ActiveOf(tracks, jobs, owner) - {id}|
    {
      var rest := jobs.Keys;
      var seen: set<TrackId> := {};
      count := 0;
      while rest != {}
        invariant rest <= jobs.Keys && count == |seen|
        invariant seen == ActiveOf(tracks, jobs, owner) - {id} - rest
        decreases |rest|
      {
        var j :| j in rest;
        rest := rest - {j};
        if j != id && j in tracks && tracks[j].owner == owner && Active(jobs[j]) {
          seen := seen + {j};
          count := count + 1;
        }
      }
    }

    /** Leases the job that has waited longest, or whose lease ran out. */
    method Claim(now: int, cutoff: int) returns (lease: Option<Lease>)
      modifies this`jobs
      ensures lease.None? ==> jobs == old(jobs) && forall id :: id in jobs ==> !Claimable(jobs[id], cutoff)
      ensures lease.Some? ==>
        var id := lease.value.track;
        && id in old(jobs) && Claimable(old(jobs)[id], cutoff) && lease.value.stamp == now
        && (forall other :: other in old(jobs) && Claimable(old(jobs)[other], cutoff) ==>
              old(jobs)[id].updated <= old(jobs)[other].updated)
        && jobs == AfterClaim(old(jobs), id, now)
    {
      var first: Option<TrackId> := None;
      var rest := jobs.Keys;
      while rest != {}
        modifies {}
        invariant rest <= jobs.Keys
        invariant first.None? ==> forall id :: id in jobs && id !in rest ==> !Claimable(jobs[id], cutoff)
        invariant first.Some? ==> first.value in jobs && Claimable(jobs[first.value], cutoff)
        invariant first.Some? ==> forall id :: id in jobs && id !in rest && Claimable(jobs[id], cutoff) ==>
          jobs[first.value].updated <= jobs[id].updated
        decreases |rest|
      {
        var id :| id in rest;
        rest := rest - {id};
        if Claimable(jobs[id], cutoff) && (first.None? || jobs[id].updated < jobs[first.value].updated) {
          first := Some(id);
        }
      }
      if first.None? {
        return None;
      }
      jobs := jobs[first.value := jobs[first.value].(state := Processing, updated := now)];
      lease := Some(Lease(first.value, now));
    }

    method Finish(lease: Lease, report: Report, now: int)
      modifies this`jobs
      ensures jobs == AfterFinish(old(jobs), lease, report, now)
    {
      if lease.track in jobs {
        var job := jobs[lease.track];
        if job.updated == lease.stamp && job.state == Processing {
          var state := Failed;
          if report.done {
            state := Done;
          }
          jobs := jobs[lease.track := Job(state, report.plain, report.synced, now)];
        }
      }
    }
  }

  // ----- Runs with stale and crashed workers -----

  /** claims are the timestamps of all of a job's claims so far, in order,
      reported are the claims whose worker has called Finish, author is which
      claim a stored result came from, and clock is the time of the last
      timed step. All four are history. */
  datatype World = World(
    tracks: Tracks, jobs: Jobs, claims: map<TrackId, seq<int>>, reported: set<(TrackId, nat)>, author: map<TrackId, nat>,
    clock: int)

  function ClaimsOf(w: World, id: TrackId): seq<int> {
    if id in w.claims then w.claims[id] else []
  }

  /** A worker is known by its job and by which of the job's claims it holds.
      The cutoff of a claim is computed on the program's clock, the other
      times are the database's. */
  datatype Step =
    | AddTrack(id: TrackId, owner: UserId)
    | ReadyTrack(id: TrackId)
    | DeleteTrack(id: TrackId)
    | QueueJob(owner: UserId, id: TrackId, now: int)
    | ClaimJob(id: TrackId, now: int, cutoff: int)
    | FinishJob(id: TrackId, claim: nat, report: Report, now: int)

  predicate Enabled(w: World, s: Step) {
    match s
    case AddTrack(id, owner) => id !in w.tracks && id !in w.claims
    case ReadyTrack(id) => id in w.tracks
    case ClaimJob(id, now, cutoff) => id in w.jobs && Claimable(w.jobs[id], cutoff)
    case FinishJob(id, claim, report, now) => claim < |ClaimsOf(w, id)| && (id, claim) !in w.reported
    case _ => true
  }

  function Apply(w: World, s: Step): World
    requires Enabled(w, s)
  {
    match s
    case AddTrack(id, owner) => w.(tracks := w.tracks[id := Track(owner, false)])
    case ReadyTrack(id) => w.(tracks := w.tracks[id := w.tracks[id].(ready := true)])
    case DeleteTrack(id) => w.(tracks := w.tracks - {id}, jobs := w.jobs - {id})
    case QueueJob(owner, id, now) => w.(jobs := AfterQueue(w.tracks, w.jobs, owner, id, now), clock := now)
    case ClaimJob(id, now, cutoff) =>
      w.(jobs := AfterClaim(w.jobs, id, now), claims := w.claims[id := ClaimsOf(w, id) + [now]], clock := now)
    case FinishJob(id, claim, report, now) =>
      var lease := Lease(id, ClaimsOf(w, id)[claim]);
      w.(jobs := AfterFinish(w.jobs, lease, report, now), reported := w.reported + {(id, claim)},
         author := if Accepts(w.jobs, lease) then w.author[id := claim] else w.author, clock := now)
  }

  const EMPTY: World := World(map[], map[], map[], {}, map[], 0)

  ghost predicate Run(worlds: seq<World>, steps: seq<Step>) {
    && |worlds| == |steps| + 1 && worlds[0] == EMPTY.(clock := worlds[0].clock)
    && forall j :: 0 <= j < |steps| ==> Enabled(worlds[j], steps[j]) && worlds[j + 1] == Apply(worlds[j], steps[j])
  }

  // ----- Any clocks at all -----

  ghost predicate WithinLimit(w: World) {
    forall owner :: |ActiveOf(w.tracks, w.jobs, owner)| <= MOST_ACTIVE
  }

  /** A job being processed carries its latest claim's timestamp, and a stored
      result came from a claim with that timestamp. */
  predicate JobSound(w: World, id: TrackId) {
    var all := ClaimsOf(w, id);
    id in w.jobs ==>
      && id in w.tracks
      && (w.jobs[id].state == Processing ==> all != [] && w.jobs[id].updated == all[|all| - 1])
      && (w.jobs[id].state == Done || w.jobs[id].state == Failed ==>
            id in w.author && w.author[id] < |all| && all[w.author[id]] == all[|all| - 1])
  }

  ghost predicate Sound(w: World) {
    forall id :: JobSound(w, id)
  }

  ghost predicate Inv(w: World) {
    Sound(w) && WithinLimit(w)
  }

  lemma SoundAt(w: World, id: TrackId)
    requires Sound(w)
    ensures JobSound(w, id)
  {
  }

  lemma QueueKeepsActive(tracks: Tracks, jobs: Jobs, owner: UserId, id: TrackId, now: int, other: UserId)
    requires |ActiveOf(tracks, jobs, other)| <= MOST_ACTIVE
    ensures |ActiveOf(tracks, AfterQueue(tracks, jobs, owner, id, now), other)| <= MOST_ACTIVE
  {
    var next := AfterQueue(tracks, jobs, owner, id, now);
    if next != jobs {
      QueueAdds(tracks, jobs, owner, id, now, other);
      if other == owner {
        var others := ActiveOf(tracks, jobs, owner) - {id};
        hide ActiveOf, AfterQueue;
        assert |others + {id}| == |others| + 1;
      }
    }
  }

  lemma QueueAdds(tracks: Tracks, jobs: Jobs, owner: UserId, id: TrackId, now: int, other: UserId)
    requires AfterQueue(tracks, jobs, owner, id, now) != jobs
    ensures !Busy(tracks, jobs, owner, id)
    ensures ActiveOf(tracks, AfterQueue(tracks, jobs, owner, id, now), other) ==
      if other == owner then (ActiveOf(tracks, jobs, owner) - {id}) + {id} else ActiveOf(tracks, jobs, other)
  {
    hide Busy;
  }

  lemma StepKeepsLimit(w: World, s: Step, owner: UserId)
    requires Inv(w) && Enabled(w, s)
    ensures |ActiveOf(Apply(w, s).tracks, Apply(w, s).jobs, owner)| <= MOST_ACTIVE
  {
    hide Busy;
    var v := Apply(w, s);
    var before, after := ActiveOf(w.tracks, w.jobs, owner), ActiveOf(v.tracks, v.jobs, owner);
    assert |before| <= MOST_ACTIVE;
    forall id | id in w.jobs
      ensures id in w.tracks
    {
      SoundAt(w, id);
    }
    match s
    case QueueJob(who, id, now) => QueueKeepsActive(w.tracks, w.jobs, who, id, now, owner);
    case _ =>
      assert after <= before;
      SubsetSize(after, before);
  }

  lemma StepKeepsInv(w: World, s: Step)
    requires Inv(w) && Enabled(w, s)
    ensures Inv(Apply(w, s))
  {
    hide Sound, Enabled, Apply;
    forall owner
      ensures |ActiveOf(Apply(w, s).tracks, Apply(w, s).jobs, owner)| <= MOST_ACTIVE
    {
      StepKeepsLimit(w, s, owner);
    }
    StepKeepsSound(w, s);
  }

  lemma StepKeepsSound(w: World, s: Step)
    requires Sound(w) && Enabled(w, s)
    ensures Sound(Apply(w, s))
  {
    hide Busy;
    forall id
      ensures JobSound(Apply(w, s), id)
    {
      SoundAt(w, id);
    }
  }

  /** In every run, whatever the clocks do, a job being processed carries its
      latest claim's timestamp, a stored result came from a claim with that
      timestamp, and no owner ever has more than two active jobs. */
  lemma RunsAreSound(worlds: seq<World>, steps: seq<Step>, i: nat)
    requires Run(worlds, steps) && i < |worlds|
    ensures Inv(worlds[i])
  {
    hide Inv, Enabled, Apply;
    assert Inv(worlds[0]) by {
      EmptyInv(worlds[0].clock);
    }
    var n := 0;
    while n < i
      invariant n <= i && Inv(worlds[n])
    {
      StepKeepsInv(worlds[n], steps[n]);
      n := n + 1;
    }
  }

  lemma EmptyInv(clock: int)
    ensures Inv(EMPTY.(clock := clock))
  {
    forall owner
      ensures ActiveOf(map[], map[], owner) == {}
    {
    }
  }

  /** When a result is taken: the job is being processed and the worker's claim
      carries the latest claim's timestamp. */
  lemma FinishTakesEffectIff(worlds: seq<World>, steps: seq<Step>, i: nat, id: TrackId, claim: nat)
    requires Run(worlds, steps) && i < |worlds| && claim < |ClaimsOf(worlds[i], id)|
    ensures var w, all := worlds[i], ClaimsOf(worlds[i], id);
      Accepts(w.jobs, Lease(id, all[claim])) <==>
        id in w.jobs && w.jobs[id].state == Processing && all[claim] == all[|all| - 1]
  {
    hide Run;
    RunsAreSound(worlds, steps, i);
    SoundAt(worlds[i], id);
  }

  /** When a stale claim would be taken: the latest claim's timestamp was given
      to an earlier claim of the job as well. */
  lemma StaleIsTakenIff(worlds: seq<World>, steps: seq<Step>, i: nat, id: TrackId)
    requires Run(worlds, steps) && i < |worlds|
    ensures var w, all := worlds[i], ClaimsOf(worlds[i], id);
      (exists claim :: 0 <= claim && claim + 1 < |all| && Accepts(w.jobs, Lease(id, all[claim]))) <==>
        id in w.jobs && w.jobs[id].state == Processing && all != [] && all[|all| - 1] in all[..|all| - 1]
  {
    hide Run;
    RunsAreSound(worlds, steps, i);
    SoundAt(worlds[i], id);
    var w, all := worlds[i], ClaimsOf(worlds[i], id);
    if id in w.jobs && w.jobs[id].state == Processing && all[|all| - 1] in all[..|all| - 1] {
      var k :| 0 <= k < |all| - 1 && all[..|all| - 1][k] == all[|all| - 1];
      assert Accepts(w.jobs, Lease(id, all[k]));
    }
    if claim :| 0 <= claim && claim + 1 < |all| && Accepts(w.jobs, Lease(id, all[claim])) {
      assert all[..|all| - 1][claim] == all[|all| - 1];
    }
  }

  /** Equal timestamps come about, step by step from nothing, when the program's
      clock runs ahead of the database's by more than the lease: the job is
      claimed twice at one instant, and the first worker's result is stored as
      if it were the second's. */
  lemma EqualStampsConfuse(late: Report) returns (worlds: seq<World>, steps: seq<Step>)
    ensures Run(worlds, steps)
    ensures steps == [AddTrack(0, 0), ReadyTrack(0), QueueJob(0, 0, 5), ClaimJob(0, 5, 5), ClaimJob(0, 5, 6),
                      FinishJob(0, 0, late, 5)]
    ensures var before, after := worlds[5], worlds[6];
      && ClaimsOf(before, 0) == [5, 5]
      && 0 in after.author && after.author[0] == 0 && 0 in after.jobs && after.jobs[0].plain == late.plain
  {
    hide Enabled, Apply, Accepts;
    steps := [AddTrack(0, 0), ReadyTrack(0), QueueJob(0, 0, 5), ClaimJob(0, 5, 5), ClaimJob(0, 5, 6),
              FinishJob(0, 0, late, 5)];
    QueuedOnce();
    ClaimedTwice();
    StoredByFirst(late);
    worlds := [EMPTY, ADDED, READY, QUEUED, CLAIMED, TWICE, Apply(TWICE, FinishJob(0, 0, late, 5))];
  }

  const ADDED: World := World(map[0 := Track(0, false)], map[], map[], {}, map[], 0)
  const READY: World := World(map[0 := Track(0, true)], map[], map[], {}, map[], 0)
  const QUEUED: World := READY.(jobs := map[0 := Job(Queued, "", "", 5)], clock := 5)
  const CLAIMED: World := QUEUED.(jobs := map[0 := Job(Processing, "", "", 5)], claims := map[0 := [5]])
  const TWICE: World := CLAIMED.(claims := map[0 := [5, 5]])

  lemma QueuedOnce()
    ensures Enabled(EMPTY, AddTrack(0, 0)) && Apply(EMPTY, AddTrack(0, 0)) == ADDED
    ensures Enabled(ADDED, ReadyTrack(0)) && Apply(ADDED, ReadyTrack(0)) == READY
    ensures Enabled(READY, QueueJob(0, 0, 5)) && Apply(READY, QueueJob(0, 0, 5)) == QUEUED
  {
    hide Busy;
    NobodyIsBusy(READY.tracks);
  }

  lemma ClaimedTwice()
    ensures Enabled(QUEUED, ClaimJob(0, 5, 5)) && Apply(QUEUED, ClaimJob(0, 5, 5)) == CLAIMED
    ensures Enabled(CLAIMED, ClaimJob(0, 5, 6)) && Apply(CLAIMED, ClaimJob(0, 5, 6)) == TWICE
  {
    assert ClaimsOf(QUEUED, 0) + [5] == [5] && ClaimsOf(CLAIMED, 0) + [5] == [5, 5];
    assert Apply(QUEUED, ClaimJob(0, 5, 5)).claims == CLAIMED.claims;
    assert Apply(CLAIMED, ClaimJob(0, 5, 6)).claims == TWICE.claims;
  }

  lemma StoredByFirst(late: Report)
    ensures Enabled(TWICE, FinishJob(0, 0, late, 5))
    ensures var after := Apply(TWICE, FinishJob(0, 0, late, 5));
      0 in after.author && after.author[0] == 0 && 0 in after.jobs && after.jobs[0].plain == late.plain
  {
  }

  lemma NobodyIsBusy(tracks: Tracks)
    ensures !Busy(tracks, map[], 0, 0)
  {
    assert ActiveOf(tracks, map[], 0) - {0} == {};
  }

  /** A result whose claim carries another timestamp than the latest changes no
      job, and a finished transcription is kept as it is until its track is
      deleted. */
  lemma LateAndDone(worlds: seq<World>, steps: seq<Step>, i: nat, id: TrackId)
    requires Run(worlds, steps) && i < |steps|
    ensures var w, s, all := worlds[i], steps[i], ClaimsOf(worlds[i], id);
      s.FinishJob? && s.id == id && all[s.claim] != all[|all| - 1] ==> worlds[i + 1].jobs == w.jobs
    ensures id in worlds[i].jobs && worlds[i].jobs[id].state == Done && steps[i] != DeleteTrack(id) ==>
      id in worlds[i + 1].jobs && worlds[i + 1].jobs[id] == worlds[i].jobs[id]
  {
    var s := steps[i];
    if s.FinishJob? {
      FinishTakesEffectIff(worlds, steps, i, s.id, s.claim);
    }
  }

  // ----- One clock -----

  /** The database's times do not go back, and no lease counts as expired
      before its own timestamp. */
  predicate OnClock(w: World, s: Step) {
    match s
    case QueueJob(_, _, now) => w.clock <= now
    case ClaimJob(_, now, cutoff) => w.clock <= now && cutoff <= now
    case FinishJob(_, _, _, now) => w.clock <= now
    case _ => true
  }

  /** A claim that has not been reported lies strictly before every later one,
      and once the latest claim has been reported no other counts. */
  predicate JobFenced(w: World, id: TrackId) {
    var all := ClaimsOf(w, id);
    && (forall i :: 0 <= i < |all| ==> all[i] <= w.clock)
    && (forall i, j :: 0 <= i < j < |all| ==> all[i] <= all[j] && ((id, i) !in w.reported ==> all[i] < all[j]))
    && (id in w.jobs && w.jobs[id].state != Processing && all != [] ==>
          (id, |all| - 1) in w.reported)
    && (id in w.tracks && id !in w.jobs ==> all == [])
    && (id in w.jobs && (w.jobs[id].state == Done || w.jobs[id].state == Failed) ==>
          id in w.author && w.author[id] + 1 == |all|)
  }

  lemma ClaimKeepsFence(w: World, id: TrackId, now: int, cutoff: int)
    requires JobSound(w, id) && JobFenced(w, id) && Enabled(w, ClaimJob(id, now, cutoff))
    requires OnClock(w, ClaimJob(id, now, cutoff))
    ensures JobFenced(Apply(w, ClaimJob(id, now, cutoff)), id)
  {
    var all := ClaimsOf(w, id);
    var n := |all|;
    assert ClaimsOf(Apply(w, ClaimJob(id, now, cutoff)), id) == all + [now];
    forall i | 0 <= i < n && (id, i) !in w.reported
      ensures all[i] < now
    {
      assert all[i] <= all[n - 1];
      if w.jobs[id].state != Processing {
        assert i != n - 1;
      }
    }
  }

  lemma FinishKeepsFence(w: World, id: TrackId, claim: nat, report: Report, now: int)
    requires JobSound(w, id) && JobFenced(w, id) && Enabled(w, FinishJob(id, claim, report, now))
    requires OnClock(w, FinishJob(id, claim, report, now))
    ensures JobFenced(Apply(w, FinishJob(id, claim, report, now)), id)
    ensures Accepts(w.jobs, Lease(id, ClaimsOf(w, id)[claim])) ==> claim + 1 == |ClaimsOf(w, id)|
  {
    var all := ClaimsOf(w, id);
    assert ClaimsOf(Apply(w, FinishJob(id, claim, report, now)), id) == all;
    if Accepts(w.jobs, Lease(id, all[claim])) {
      assert all[claim] == all[|all| - 1];
    }
  }

  lemma StepKeepsFence(w: World, s: Step, id: TrackId)
    requires JobSound(w, id) && JobFenced(w, id) && Enabled(w, s) && OnClock(w, s)
    ensures JobFenced(Apply(w, s), id)
  {
    if s.ClaimJob? && s.id == id {
      ClaimKeepsFence(w, id, s.now, s.cutoff);
    } else if s.FinishJob? && s.id == id {
      FinishKeepsFence(w, id, s.claim, s.report, s.now);
    } else {
      OtherKeepsFence(w, s, id);
    }
  }

  lemma OtherKeepsFence(w: World, s: Step, id: TrackId)
    requires JobSound(w, id) && JobFenced(w, id) && Enabled(w, s) && OnClock(w, s)
    requires !((s.ClaimJob? || s.FinishJob?) && s.id == id)
    ensures JobFenced(Apply(w, s), id)
  {
    hide Busy, Accepts;
    var v := Apply(w, s);
    assert ClaimsOf(v, id) == ClaimsOf(w, id);
    assert forall i: nat :: (id, i) in v.reported <==> (id, i) in w.reported;
  }

  ghost predicate OneClock(worlds: seq<World>, steps: seq<Step>)
    requires |worlds| == |steps| + 1
  {
    forall j :: 0 <= j < |steps| ==> OnClock(worlds[j], steps[j])
  }

  /** In every run on one clock, with stale and crashed workers and each claim
      reported at most once, the fence holds: results are only ever stored by
      the latest claim of their job. */
  lemma {:induction false} ResultsAreLatest(worlds: seq<World>, steps: seq<Step>, i: nat, id: TrackId)
    requires Run(worlds, steps) && OneClock(worlds, steps) && i < |worlds|
    ensures JobFenced(worlds[i], id)
    ensures i < |steps| && steps[i].FinishJob? && worlds[i + 1].jobs != worlds[i].jobs ==>
      steps[i].claim + 1 == |ClaimsOf(worlds[i], steps[i].id)|
  {
    FencedUpTo(worlds, steps, i, id);
    if i < |steps| && steps[i].FinishJob? {
      FencedUpTo(worlds, steps, i, steps[i].id);
      RunsAreSound(worlds, steps, i);
      SoundAt(worlds[i], steps[i].id);
      FinishKeepsFence(worlds[i], steps[i].id, steps[i].claim, steps[i].report, steps[i].now);
    }
  }

  lemma FencedUpTo(worlds: seq<World>, steps: seq<Step>, i: nat, id: TrackId)
    requires Run(worlds, steps) && OneClock(worlds, steps) && i < |worlds|
    ensures JobFenced(worlds[i], id)
  {
    hide Enabled, Apply, OnClock, JobFenced, JobSound;
    assert JobFenced(worlds[0], id) by {
      EmptyFenced(worlds[0].clock, id);
    }
    var n := 0;
    while n < i
      invariant n <= i && JobFenced(worlds[n], id)
    {
      RunsAreSound(worlds, steps, n);
      SoundAt(worlds[n], id);
      StepKeepsFence(worlds[n], steps[n], id);
      n := n + 1;
    }
  }

  lemma EmptyFenced(clock: int, id: TrackId)
    ensures JobFenced(EMPTY.(clock := clock), id)
  {
  }

  // ----- What jobs go through -----

  /** An owner's other tracks that are waiting or being worked on. */
  function OthersUnderWay(tracks: Tracks, jobs: Jobs, owner: UserId, id: TrackId): set<TrackId> {
    set o | o in jobs && o in tracks && o != id && tracks[o].owner == owner &&
      (jobs[o].state == Queued || jobs[o].state == Processing)
  }

  lemma OthersAre(tracks: Tracks, jobs: Jobs, owner: UserId, id: TrackId)
    ensures Busy(tracks, jobs, owner, id) <==> |OthersUnderWay(tracks, jobs, owner, id)| >= 2
  {
    assert OthersUnderWay(tracks, jobs, owner, id) == ActiveOf(tracks, jobs, owner) - {id};
  }

  /** A track's owner gets a transcription queued exactly when the track is
      ready, fewer than two of the owner's other tracks are under way, and
      there is no job yet or the last one failed. */
  lemma QueuedIff(tracks: Tracks, jobs: Jobs, owner: UserId, id: TrackId, now: int)
    ensures AfterQueue(tracks, jobs, owner, id, now) ==
      if id in tracks && tracks[id].ready && tracks[id].owner == owner && |OthersUnderWay(tracks, jobs, owner, id)| < 2 &&
        (id in jobs ==> jobs[id].state == Failed)
      then jobs[id := Job(Queued, "", "", now)] else jobs
  {
    hide Busy, OthersUnderWay;
    OthersAre(tracks, jobs, owner, id);
  }

  /** A worker that crashed loses its job to the next claim once its lease is
      over, and one that reports in time does not: what it reports is stored as
      it is, and then nobody claims the job. */
  lemma CrashedJobsAreTakenOver(jobs: Jobs, id: TrackId, now: int, report: Report, later: int)
    requires id in jobs
    ensures var claimed := AfterClaim(jobs, id, now);
      && claimed == jobs[id := jobs[id].(state := Processing, updated := now)]
      && (forall cutoff: int :: Claimable(claimed[id], cutoff) <==> cutoff > now)
      && var done := AfterFinish(claimed, Lease(id, now), report, later);
      && done == jobs[id := Job(if report.done then Done else Failed, report.plain, report.synced, later)]
      && forall cutoff: int :: !Claimable(done[id], cutoff)
    ensures jobs[id].state == Queued ==> forall cutoff: int :: Claimable(jobs[id], cutoff)
  {
  }
}

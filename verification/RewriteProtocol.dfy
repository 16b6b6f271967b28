/** The tag-rewrite protocol as a state machine: edits, workers that lease a
    track, rewrite its file and swap the new object in, and a collector that
    deletes replaced objects, all interleaving. Each database transaction and
    each call to object storage is one step; a step may also be the last thing
    a worker does before it crashes, or report failure after it took effect. */
module RewriteProtocol {
  import opened ByteOrder
  import opened Options
  import opened TrackTable
  import opened TagStore
  import T = TagText
  import Tags

  datatype Config = Config(
    u: T.Unicode, lease: nat, maxAttempts: nat, retryDelay: nat, maxOwnerBytes: int, grace: nat, garbageBatch: nat)

  type WorkerId = nat

  /** Where a worker is in its job. `swapped` says that its swap transaction
      committed, which the worker itself may not know. */
  datatype Phase =
    | Leased
    | Verified(file: Bytes)
    | Noted(file: Bytes)
    | Stored(file: Bytes)
    | Failing(failure: Failure, swapped: bool)
    | Superseded(swapped: bool)

  datatype Worker = Worker(claim: Claim, deadline: int, phase: Phase)

  /** The collector holds row locks on its whole batch; `doomed` are the keys
      its query found unused and it has not removed yet. */
  datatype Collector = Idle | Collecting(batch: set<Key>, doomed: set<Key>)

  datatype World = World(
    now: int, db: Db, objects: map<Key, Bytes>, workers: map<WorkerId, Worker>, collector: Collector,
    uploads: map<TrackId, Bytes>, issued: set<Key>)
  // `uploads` and `issued` are history: what was uploaded for each track, and
  // every key a claim has made available to a worker.

  /** What a caller learns of a transaction. */
  datatype Answer = Heard | LostBeforeCommit | LostAfterCommit

  datatype Step =
    | Tick(to: int)
    | Publish(id: TrackId, row: Row, data: Bytes)
    | EditTrack(id: TrackId, owner: Owner, expected: nat, edit: Edit)
    | ClaimTrack(worker: WorkerId, id: TrackId)
    | Rewrite(worker: WorkerId, file: Bytes)
    | GiveUp(worker: WorkerId, failure: Failure)
    | Note(worker: WorkerId, answer: Answer)
    | Put(worker: WorkerId, landed: bool, confirmed: bool)
    | Swap(worker: WorkerId, answer: Answer)
    | RecordFailure(worker: WorkerId)
    | Release(worker: WorkerId)
    | Crash(worker: WorkerId)
    | CollectCheck(batch: set<Key>)
    | CollectRemove(key: Key)
    | CollectCommit
    | CollectAbort

  // ----- Workers -----

  function RevisionKey(claim: Claim): Key {
    Revision(claim.track, claim.row.version, claim.row.attempts)
  }

  /** A failure worth another attempt, unless this was the last one. */
  function Retry(c: Config, claim: Claim, code: string, uploaded: Option<Key>): Failure {
    Failure(code, if claim.row.attempts >= c.maxAttempts then 0 else c.retryDelay * claim.row.attempts, false, uploaded)
  }

  /** Failures before anything was recorded or uploaded. */
  predicate EarlyFailure(c: Config, claim: Claim, failure: Failure) {
    || failure == Retry(c, claim, failure.code, None)
    || failure == Failure(failure.code, 0, failure.unsupported, None)
  }

  function FileFormat(row: Row): Tags.Format {
    Tags.FormatOf(row.fileName)
  }

  predicate HasFile(phase: Phase) {
    phase.Verified? || phase.Noted? || phase.Stored?
  }

  /** A rewrite that the worker's checks accept. */
  predicate GoodFile(c: Config, w: World, claim: Claim, file: Bytes) {
    && claim.row.storageKey in w.objects
    && var source := w.objects[claim.row.storageKey];
    && |source| == claim.row.size
    && Tags.Rewrite(c.u, FileFormat(claim.row), source, claim.row.meta) == T.Ok(file)
    && Tags.Verified(c.u, FileFormat(claim.row), source, file, claim.row.meta)
  }

  // ----- Row locks -----

  predicate Unlocked(w: World, key: Key) {
    w.collector.Collecting? ==> key !in w.collector.batch
  }

  /** The key a swap queues. */
  ghost function SwapQueues(c: Config, w: World, x: Worker): Key
    requires x.phase.Stored?
  {
    if SwapOutcome(w.db, x.claim, |x.phase.file|, c.maxOwnerBytes) == Swapped
    then w.db.tracks[x.claim.track].storageKey else RevisionKey(x.claim)
  }

  // ----- Steps -----

  predicate NewUpload(row: Row, id: TrackId, data: Bytes) {
    && row.ready && row.storageKey == TrackTable.Upload(id) && row.size == |data| && row.status == Untouched
    && row.version == 1
    && row.attempts == 0 && row.claimedUntil == None && row.pendingKey == None && row.tagVersion == None
  }

  ghost predicate Enabled(c: Config, w: World, s: Step) {
    match s
    case Tick(to) => to >= w.now
    case Publish(id, row, data) => id !in w.db.tracks && NewUpload(row, id, data)
    case EditTrack(id, owner, expected, edit) =>
      // Edits are validated first: the extension stays, and the texts and
      // numbers are such as can be embedded.
      id in w.db.tracks ==>
        && Tags.FormatOf(edit.fileName) == FileFormat(w.db.tracks[id])
        && Tags.Embeddable(Tags.FormatOf(edit.fileName), edit.meta)
    case ClaimTrack(worker, id) =>
      && worker !in w.workers && id in w.db.tracks && Claimable(w.db.tracks[id], w.now)
      && (w.db.tracks[id].pendingKey.Some? ==> Unlocked(w, w.db.tracks[id].pendingKey.value))
    case Rewrite(worker, file) =>
      worker in w.workers && w.workers[worker].phase == Leased && GoodFile(c, w, w.workers[worker].claim, file)
    case GiveUp(worker, failure) =>
      && worker in w.workers && w.workers[worker].phase == Leased
      && EarlyFailure(c, w.workers[worker].claim, failure)
    case Note(worker, answer) => worker in w.workers && w.workers[worker].phase.Verified?
    case Put(worker, landed, confirmed) =>
      worker in w.workers && w.workers[worker].phase.Noted? && (confirmed ==> landed)
    case Swap(worker, answer) =>
      && worker in w.workers && w.workers[worker].phase.Stored?
      && (answer != LostBeforeCommit ==> Unlocked(w, SwapQueues(c, w, w.workers[worker])))
    case RecordFailure(worker) =>
      && worker in w.workers && w.workers[worker].phase.Failing?
      && var uploaded := w.workers[worker].phase.failure.uploaded;
      && (uploaded.Some? ==> Unlocked(w, uploaded.value))
    case Release(worker) => worker in w.workers && w.workers[worker].phase.Superseded?
    case Crash(worker) => worker in w.workers
    case CollectCheck(batch) =>
      w.collector.Idle? && |batch| <= c.garbageBatch && forall k :: k in batch ==> k in w.db.garbage && w.db.garbage[k] <= w.now
    case CollectRemove(key) => w.collector.Collecting? && key in w.collector.doomed
    case CollectCommit => w.collector.Collecting? && w.collector.doomed == {}
    case CollectAbort => w.collector.Collecting?
  }

  function WithPhase(w: World, worker: WorkerId, phase: Phase): World
    requires worker in w.workers
  {
    w.(workers := w.workers[worker := w.workers[worker].(phase := phase)])
  }

  function Without(w: World, worker: WorkerId): World {
    w.(workers := w.workers - {worker})
  }

  function DoClaim(c: Config, w: World, worker: WorkerId, id: TrackId): World
    requires id in w.db.tracks
  {
    var after := w.(db := AfterClaim(w.db, id, w.now, c.lease, c.maxAttempts));
    if w.db.tracks[id].attempts >= c.maxAttempts then after
    else
      var claim := Claim(id, after.db.tracks[id]);
      after.(workers := w.workers[worker := Worker(claim, w.now + c.lease, Leased)],
             issued := w.issued + {RevisionKey(claim)})
  }

  function DoNote(c: Config, w: World, worker: WorkerId, answer: Answer): World
    requires worker in w.workers && w.workers[worker].phase.Verified?
  {
    var x := w.workers[worker];
    var after := if answer == LostBeforeCommit then w else w.(db := AfterRecord(w.db, x.claim, RevisionKey(x.claim)));
    if answer != Heard then WithPhase(after, worker, Failing(Retry(c, x.claim, "record_failed", None), false))
    else if StillWanted(w.db, x.claim) then WithPhase(after, worker, Noted(x.phase.file))
    else WithPhase(after, worker, Superseded(false))
  }

  function DoPut(c: Config, w: World, worker: WorkerId, landed: bool, confirmed: bool): World
    requires worker in w.workers && w.workers[worker].phase.Noted?
  {
    var x := w.workers[worker];
    var key := RevisionKey(x.claim);
    var after := if landed then w.(objects := w.objects[key := x.phase.file]) else w;
    if confirmed then WithPhase(after, worker, Stored(x.phase.file))
    else WithPhase(after, worker, Failing(Retry(c, x.claim, "upload_failed", Some(key)), false))
  }

  ghost function DoSwap(c: Config, w: World, worker: WorkerId, answer: Answer): World
    requires worker in w.workers && w.workers[worker].phase.Stored?
  {
    var x := w.workers[worker];
    var key, size := RevisionKey(x.claim), |x.phase.file|;
    var failing := Failing(Retry(c, x.claim, "swap_failed", Some(key)), answer == LostAfterCommit);
    if answer == LostBeforeCommit then WithPhase(w, worker, failing)
    else
      var outcome := SwapOutcome(w.db, x.claim, size, c.maxOwnerBytes);
      var after := w.(db := AfterSwap(w.db, x.claim, key, size, c.grace, w.now, outcome));
      if answer == LostAfterCommit then WithPhase(after, worker, failing)
      else if outcome == Swapped || outcome == OverQuota then Without(after, worker)
      else WithPhase(after, worker, Superseded(true))
  }

  ghost function Apply(c: Config, w: World, s: Step): World
    requires Enabled(c, w, s)
  {
    match s
    case Tick(to) => w.(now := to)
    case Publish(id, row, data) =>
      w.(db := w.db.(tracks := w.db.tracks[id := row]), objects := w.objects[TrackTable.Upload(id) := data],
         uploads := w.uploads[id := data])
    case EditTrack(id, owner, expected, edit) =>
      w.(db := AfterEdit(w.db, id, EditOutcome(w.db, owner, id, expected, edit)))
    case ClaimTrack(worker, id) => DoClaim(c, w, worker, id)
    case Rewrite(worker, file) => WithPhase(w, worker, Verified(file))
    case GiveUp(worker, failure) => WithPhase(w, worker, Failing(failure, false))
    case Note(worker, answer) => DoNote(c, w, worker, answer)
    case Put(worker, landed, confirmed) => DoPut(c, w, worker, landed, confirmed)
    case Swap(worker, answer) => DoSwap(c, w, worker, answer)
    case RecordFailure(worker) =>
      var x := w.workers[worker];
      Without(w.(db := AfterFail(w.db, x.claim, x.phase.failure, w.now)), worker)
    case Release(worker) => Without(w.(db := AfterRelease(w.db, w.workers[worker].claim.track)), worker)
    case Crash(worker) => Without(w, worker)
    case CollectCheck(batch) => w.(collector := Collecting(batch, set k | k in batch && !InUse(w.db.tracks, k)))
    case CollectRemove(key) =>
      w.(objects := w.objects - {key}, collector := Collecting(w.collector.batch, w.collector.doomed - {key}))
    case CollectCommit => w.(db := w.db.(garbage := w.db.garbage - w.collector.batch), collector := Idle)
    case CollectAbort => w.(collector := Idle)
  }

  /** The collector's steps and the store's loop agree on what is removed: the
      keys of the batch that no track used when it was read. */
  lemma DoomedAreUnused(tracks: Rows, batch: seq<Key>)
    ensures (set k | k in Among(batch, |batch|) && !InUse(tracks, k)) == Unused(tracks, batch, |batch|)
  {
    hide InUse;
    forall k | k in Among(batch, |batch|) && !InUse(tracks, k)
      ensures k in Unused(tracks, batch, |batch|)
    {
      var i :| 0 <= i < |batch| && batch[i] == k;
    }
  }

  // ----- What is asked of the environment -----

  /** The worker took its step before its lease ran out. Downloading and
      rewriting may take longer: they touch neither store. */
  predicate Timely(w: World, s: Step) {
    (s.Note? || s.Put? || s.Swap? || s.RecordFailure? || s.Release?) && s.worker in w.workers ==>
      w.now <= w.workers[s.worker].deadline
  }

  /** Between its claim and its last step, except after its swap committed, a
      worker counts on the lease it was given. */
  predicate Holds(w: World, x: Worker) {
    && w.now <= x.deadline
    && match x.phase
       case Failing(_, swapped) => !swapped
       case Superseded(swapped) => !swapped
       case _ => true
  }

  /** A release that would take the lease of another worker: it clears the
      column whoever set it. */
  ghost predicate Foreign(w: World, s: Step) {
    && s.Release? && s.worker in w.workers
    && exists y :: y in w.workers && y != s.worker && Holds(w, w.workers[y])
         && w.workers[y].claim.track == w.workers[s.worker].claim.track
  }

  ghost predicate Allowed(c: Config, w: World, s: Step) {
    Enabled(c, w, s) && Timely(w, s) && !Foreign(w, s)
  }
}

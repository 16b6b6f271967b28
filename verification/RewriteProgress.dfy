/** What each step of the tag-rewrite protocol does to a track's chances of
    being rewritten: when it can be claimed next, and what ends it. Stated on
    the rows, and on the times at which a claim would find them. */
module RewriteProgress {
  import opened Finite
  import opened Options
  import opened TrackTable
  import opened TagStore
  import opened RewriteProtocol
  import T = TagText
  import Tags

  ghost predicate NeverClaimable(row: Row) {
    forall t: int :: !Claimable(row, t)
  }

  ghost predicate ClaimableSince(row: Row, from: int) {
    forall t: int :: t >= from ==> Claimable(row, t)
  }

  /** A ready track with a pending edit is never stuck: from some time on every
      claim finds it. No other track is ever claimed. */
  lemma PendingIsNeverStuck(row: Row)
    ensures if row.status == Pending && row.ready then exists from :: ClaimableSince(row, from)
      else NeverClaimable(row)
  {
    if row.status == Pending && row.ready {
      var until := if row.claimedUntil.Some? then row.claimedUntil.value + 1 else 0;
      var from := if row.notBefore.Some? then Max(until, row.notBefore.value) else until;
      assert ClaimableSince(row, from);
    }
  }

  // ----- Claims -----

  /** A claim leaves the track alone until its lease is over; one claim too
      many ends it. The object an attempt left behind is queued either way. */
  lemma ClaimTakesTurn(c: Config, w: World, worker: WorkerId, id: TrackId)
    requires Enabled(c, w, ClaimTrack(worker, id))
    ensures var v := Apply(c, w, ClaimTrack(worker, id)); var row, next := w.db.tracks[id], v.db.tracks[id];
      && next == row.(attempts := next.attempts, status := next.status, error := next.error,
                      claimedUntil := next.claimedUntil, pendingKey := None)
      && (row.pendingKey.Some? ==> row.pendingKey.value in v.db.garbage && v.db.garbage[row.pendingKey.value] <= w.now)
      && if row.attempts < c.maxAttempts then
           && next.attempts == row.attempts + 1 && next.status == Pending && next.error == row.error
           && (forall t: int :: t >= w.now ==> (Claimable(next, t) <==> t > w.now + c.lease))
           && worker in v.workers && v.workers[worker].claim == Claim(id, next) && v.workers[worker].deadline == w.now + c.lease
         else
           && NeverClaimable(next) && next.status == Failed && worker !in v.workers && next.attempts == row.attempts
           && next.error == if row.error.Some? then row.error else Some("too_many_attempts")
  {
    hide GoodFile, NewUpload, SwapQueues, InUse, Tags.FormatOf, Tags.Embeddable, DoNote, DoPut, DoSwap, AfterFail, AfterRelease, EditOutcome;
  }

  // ----- Failures -----

  /** Whether an attempt at this edit may still say something about the row. */
  predicate Wanted(w: World, claim: Claim) {
    && claim.track in w.db.tracks && w.db.tracks[claim.track].status == Pending
    && w.db.tracks[claim.track].version == claim.row.version
  }

  /** A failure that is to be retried frees the track for the next claim at
      exactly that delay; any other failure ends it. The object it uploaded is
      queued in every case, and a newer edit is left alone. */
  lemma FailureIsRetriedIff(c: Config, w: World, worker: WorkerId)
    requires Enabled(c, w, RecordFailure(worker))
    ensures var x := w.workers[worker]; var failure, id := x.phase.failure, x.claim.track;
      var v := Apply(c, w, RecordFailure(worker));
      && (!Wanted(w, x.claim) ==> v.db.tracks == w.db.tracks)
      && (failure.uploaded.Some? ==> failure.uploaded.value in v.db.garbage && v.db.garbage[failure.uploaded.value] <= w.now)
      && (Wanted(w, x.claim) ==>
            var row, next := w.db.tracks[id], v.db.tracks[id];
            && (row.ready ==> forall t: int :: Claimable(next, t) <==>
                  failure.retryAfter > 0 && !failure.unsupported && t >= w.now + failure.retryAfter)
            && (failure.unsupported ==> next.status == NoWriter)
            && (!failure.unsupported && failure.retryAfter == 0 ==> next.status == Failed)
            && (!failure.unsupported && failure.retryAfter > 0 ==> next.status == Pending)
            && next == row.(status := next.status, notBefore := next.notBefore, error := Some(failure.code),
                            claimedUntil := None, pendingKey := None))
  {
    hide GoodFile, NewUpload, SwapQueues, InUse, Tags.FormatOf, Tags.Embeddable, DoNote, DoPut, DoSwap, DoClaim, AfterRelease, EditOutcome;
  }

  /** How long a failed attempt waits: attempt by attempt longer, and not at
      all for the last one, which is final. */
  function Delay(c: Config, claim: Claim): nat {
    if claim.row.attempts < c.maxAttempts then c.retryDelay * claim.row.attempts else 0
  }

  /** Whatever goes wrong in the stores is worth another attempt, until the
      attempts are used up; what may have been uploaded is named. */
  lemma StoreTroubleIsRetried(c: Config, w: World, worker: WorkerId)
    requires worker in w.workers
    ensures var x := w.workers[worker]; var key := Revision(x.claim.track, x.claim.row.version, x.claim.row.attempts);
      && (forall answer :: x.phase.Verified? && answer != Heard ==>
            Apply(c, w, Note(worker, answer)).workers[worker].phase ==
              Failing(Failure("record_failed", Delay(c, x.claim), false, None), false))
      && (forall landed :: x.phase.Noted? ==>
            Apply(c, w, Put(worker, landed, false)).workers[worker].phase ==
              Failing(Failure("upload_failed", Delay(c, x.claim), false, Some(key)), false))
      && (forall answer :: Enabled(c, w, Swap(worker, answer)) && answer != Heard ==>
            Apply(c, w, Swap(worker, answer)).workers[worker].phase ==
              Failing(Failure("swap_failed", Delay(c, x.claim), false, Some(key)), answer == LostAfterCommit))
  {
    hide GoodFile, NewUpload, SwapQueues, InUse, Tags.FormatOf, Tags.Embeddable, SwapOutcome, AfterSwap, AfterRecord, DoClaim, AfterFail, AfterRelease, EditOutcome;
  }

  // ----- Swaps -----

  /** Whether the row is still as the worker's copy has it. */
  predicate Unmoved(w: World, claim: Claim) {
    Wanted(w, claim) && w.db.tracks[claim.track].storageKey == claim.row.storageKey
  }

  ghost predicate OverLimit(c: Config, w: World, x: Worker)
    requires x.phase.Stored? && x.claim.track in w.db.tracks
  {
    GrowthRefused(Used(w.db.tracks, x.claim.row.owner), w.db.tracks[x.claim.track].size, |x.phase.file|, c.maxOwnerBytes)
  }

  /** The four ends of a swap. A track that was edited or swapped meanwhile
      keeps what it has; one that would put its owner over the quota is failed
      for good; otherwise the new object is current, and what it replaces may
      go after the grace period, or earlier if that was decided before. */
  lemma SwapEnds(c: Config, w: World, worker: WorkerId)
    requires Enabled(c, w, Swap(worker, Heard))
    ensures var x, v := w.workers[worker], Apply(c, w, Swap(worker, Heard)); var id, claim := x.claim.track, x.claim;
      var key := Revision(id, claim.row.version, claim.row.attempts);
      if id !in w.db.tracks || w.db.tracks[id].owner != claim.row.owner then
        v.db.tracks == w.db.tracks && QueuedBy(w, v, key, w.now)
      else
        var row, next := w.db.tracks[id], v.db.tracks[id];
        if !Unmoved(w, claim) then
          && QueuedBy(w, v, key, w.now)
          && next == row.(pendingKey := next.pendingKey, claimedUntil := next.claimedUntil)
          && (if row.pendingKey == Some(key) then next.pendingKey == None && next.claimedUntil == None else next == row)
        else if OverLimit(c, w, x) then
          && QueuedBy(w, v, key, w.now)
          && NeverClaimable(next) && next.status == Failed && next.error == Some("quota_exceeded")
          && next == row.(status := Failed, error := Some("quota_exceeded"), pendingKey := None, claimedUntil := None)
        else
          && QueuedBy(w, v, row.storageKey, w.now + c.grace)
          && NeverClaimable(next) && next.status == Written && next.tagVersion == Some(row.version)
          && next.storageKey == key && next.size == |x.phase.file|
          && next == row.(status := Written, tagVersion := Some(row.version), error := None, storageKey := key,
                          size := |x.phase.file|, pendingKey := None, claimedUntil := None, notBefore := None)
  {
    hide GoodFile, NewUpload, InUse, Tags.FormatOf, Tags.Embeddable, DoNote, DoPut, DoClaim, AfterFail, AfterRelease,
      EditOutcome, Used, GrowthRefused, Retry;
  }

  /** Exactly this key was queued: for this time, or an earlier one that was
      set before. */
  ghost predicate QueuedBy(w: World, v: World, key: Key, at: int) {
    && v.db.garbage.Keys == w.db.garbage.Keys + {key}
    && v.db.garbage[key] == (if key in w.db.garbage && w.db.garbage[key] < at then w.db.garbage[key] else at)
    && forall k :: k in w.db.garbage && k != key ==> v.db.garbage[k] == w.db.garbage[k]
  }

  // ----- Edits -----

  /** An edit goes through exactly for the owner of a ready track who has seen
      its current version, so no edit is lost to another; then the attempts
      start over and the track waits for nothing but a lease that is out. */
  lemma EditStartsOver(db: Db, owner: Owner, id: TrackId, expected: nat, edit: Edit)
    ensures var result := EditOutcome(db, owner, id, expected, edit); var after := AfterEdit(db, id, result);
      if edit.status != Pending && edit.status != NoWriter then result == EditRefused && after == db
      else if id !in db.tracks || db.tracks[id].owner != owner || !db.tracks[id].ready then
        result == EditNotFound && after == db
      else if db.tracks[id].version != expected then result == EditConflict && after == db
      else
        var row, next := db.tracks[id], after.tracks[id];
        && result == Edited(next) && after == Db(db.tracks[id := next], db.garbage)
        && next == row.(fileName := edit.fileName, meta := edit.meta, status := edit.status, version := expected + 1,
                        attempts := 0, error := None, notBefore := None)
        && (forall t: int :: Claimable(next, t) <==>
              edit.status == Pending && (row.claimedUntil.Some? ==> row.claimedUntil.value < t))
  {
  }

  // ----- Keys -----

  /** Queueing keeps the earlier of two times. */
  lemma QueueKeepsEarlier(garbage: Queue, key: Key, at: int)
    ensures var next := Enqueue(garbage, key, at);
      && next.Keys == garbage.Keys + {key} && next[key] <= at && (key in garbage ==> next[key] <= garbage[key])
      && (next[key] == at || (key in garbage && next[key] == garbage[key]))
      && forall k :: k in garbage && k != key ==> next[k] == garbage[k]
  {
  }
}

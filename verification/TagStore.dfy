/** The queue of tag rewrites kept in the database: leasing a track to a
    worker, recording and swapping in the object it made, and the queue of
    objects to delete. Each operation is one transaction. */
module TagStore {
  import opened Finite
  import opened Int64
  import opened Options
  import opened TrackTable
  import T = TagText

  /** A queued key and when it may be deleted. */
  type Queue = map<Key, int>

  datatype Db = Db(tracks: Rows, garbage: Queue)

  /** What an edit stores; the writer's status is chosen by the caller. */
  datatype Edit = Edit(fileName: string, meta: T.Metadata, status: TagStatus)

  datatype EditResult = Edited(row: Row) | EditRefused | EditNotFound | EditConflict

  /** A rewrite attempt that did not swap an object in. */
  datatype Failure = Failure(code: string, retryAfter: nat, unsupported: bool, uploaded: Option<Key>)

  datatype Outcome = Swapped | NotFound | Conflict | OverQuota

  /** A row as a worker was given it. */
  datatype Claim = Claim(track: TrackId, row: Row)

  // ----- What each transaction does -----

  function Enqueue(garbage: Queue, key: Key, at: int): Queue {
    garbage[key := if key in garbage then Min(garbage[key], at) else at]
  }

  predicate Claimable(row: Row, now: int) {
    && row.status == Pending && row.ready
    && (row.claimedUntil.Some? ==> row.claimedUntil.value < now)
    && (row.notBefore.Some? ==> row.notBefore.value <= now)
  }

  /** The object a crashed attempt left behind is queued first. */
  function Abandon(garbage: Queue, row: Row, now: int): Queue {
    if row.pendingKey.Some? then Enqueue(garbage, row.pendingKey.value, now) else garbage
  }

  function TakeLease(row: Row, now: int, lease: nat, maxAttempts: nat): Row {
    if row.attempts >= maxAttempts then
      row.(status := Failed, pendingKey := None, claimedUntil := None,
           error := if row.error.Some? then row.error else Some("too_many_attempts"))
    else row.(attempts := row.attempts + 1, pendingKey := None, claimedUntil := Some(now + lease))
  }

  function AfterClaim(db: Db, id: TrackId, now: int, lease: nat, maxAttempts: nat): Db
    requires id in db.tracks
  {
    Db(db.tracks[id := TakeLease(db.tracks[id], now, lease, maxAttempts)], Abandon(db.garbage, db.tracks[id], now))
  }

  /** Whether an attempt at this version may still touch the row. */
  predicate StillWanted(db: Db, claim: Claim) {
    && claim.track in db.tracks
    && db.tracks[claim.track].version == claim.row.version
    && db.tracks[claim.track].status == Pending
  }

  function AfterRecord(db: Db, claim: Claim, key: Key): Db {
    if !StillWanted(db, claim) then db
    else db.(tracks := db.tracks[claim.track := db.tracks[claim.track].(pendingKey := Some(key))])
  }

  function AfterRelease(db: Db, id: TrackId): Db {
    if id !in db.tracks then db else db.(tracks := db.tracks[id := db.tracks[id].(claimedUntil := None)])
  }

  /** The quota check of a finished rewrite, in 64 bits: only a file that grew
      can be refused. */
  predicate GrowthRefused(used: nat, size: nat, newSize: nat, limit: int) {
    newSize > size && Wrap(Wrap(used - size) + newSize) > limit
  }

  ghost function SwapOutcome(db: Db, claim: Claim, newSize: nat, maxOwnerBytes: int): Outcome {
    if claim.track !in db.tracks || db.tracks[claim.track].owner != claim.row.owner then NotFound
    else
      var row := db.tracks[claim.track];
      if row.version != claim.row.version || row.storageKey != claim.row.storageKey || row.status != Pending then Conflict
      else if GrowthRefused(Used(db.tracks, claim.row.owner), row.size, newSize, maxOwnerBytes) then OverQuota
      else Swapped
  }

  function SwapIn(row: Row, newKey: Key, newSize: nat): Row {
    row.(storageKey := newKey, size := newSize, status := Written, tagVersion := Some(row.version), error := None,
         pendingKey := None, claimedUntil := None, notBefore := None)
  }

  function AfterSwap(db: Db, claim: Claim, newKey: Key, newSize: nat, grace: nat, now: int, outcome: Outcome): Db
    requires outcome != NotFound ==> claim.track in db.tracks
  {
    match outcome
    case NotFound => db.(garbage := Enqueue(db.garbage, newKey, now))
    case Conflict =>
      var row := db.tracks[claim.track];
      Db(if row.pendingKey != Some(newKey) then db.tracks
         else db.tracks[claim.track := row.(pendingKey := None, claimedUntil := None)],
         Enqueue(db.garbage, newKey, now))
    case OverQuota =>
      var row := db.tracks[claim.track];
      Db(db.tracks[claim.track := row.(status := Failed, error := Some("quota_exceeded"), pendingKey := None,
                                       claimedUntil := None)],
         Enqueue(db.garbage, newKey, now))
    case Swapped =>
      var row := db.tracks[claim.track];
      Db(db.tracks[claim.track := SwapIn(row, newKey, newSize)], Enqueue(db.garbage, row.storageKey, now + grace))
  }

  function FailedStatus(failure: Failure): TagStatus {
    if failure.unsupported then NoWriter else if failure.retryAfter == 0 then Failed else Pending
  }

  function AfterFail(db: Db, claim: Claim, failure: Failure, now: int): Db {
    var garbage := if failure.uploaded.Some? then Enqueue(db.garbage, failure.uploaded.value, now) else db.garbage;
    if !StillWanted(db, claim) then Db(db.tracks, garbage)
    else
      var status := FailedStatus(failure);
      Db(db.tracks[claim.track := db.tracks[claim.track].(
           status := status, error := Some(failure.code), pendingKey := None, claimedUntil := None,
           notBefore := if status == Pending then Some(now + failure.retryAfter) else None)],
         garbage)
  }

  predicate EditStatus(status: TagStatus) {
    status == Pending || status == NoWriter
  }

  function ApplyEdit(row: Row, edit: Edit): Row {
    row.(fileName := edit.fileName, meta := edit.meta, version := row.version + 1, status := edit.status,
         error := None, attempts := 0, notBefore := None)
  }

  function EditOutcome(db: Db, owner: Owner, id: TrackId, expected: nat, edit: Edit): EditResult {
    if !EditStatus(edit.status) then EditRefused
    else if id !in db.tracks || db.tracks[id].owner != owner || !db.tracks[id].ready then EditNotFound
    else if db.tracks[id].version != expected then EditConflict
    else Edited(ApplyEdit(db.tracks[id], edit))
  }

  function AfterEdit(db: Db, id: TrackId, result: EditResult): Db {
    if result.Edited? then db.(tracks := db.tracks[id := result.row]) else db
  }

  // ----- Garbage collection -----

  ghost predicate InUse(tracks: Rows, key: Key) {
    exists id :: id in tracks && (tracks[id].storageKey == key || tracks[id].pendingKey == Some(key))
  }

  /** What the batch query selects: some distinct keys whose time has come. */
  predicate Due(garbage: Queue, batch: seq<Key>, now: int, limit: nat) {
    && |batch| <= limit
    && (forall i :: 0 <= i < |batch| ==> batch[i] in garbage && garbage[batch[i]] <= now)
    && (forall i, j :: 0 <= i < j < |batch| ==> batch[i] != batch[j])
  }

  /** The first n keys of a batch. */
  function Among(batch: seq<Key>, n: nat): set<Key>
    requires n <= |batch|
  {
    set i | 0 <= i < n :: batch[i]
  }

  /** The keys among the first n of a batch that no track used. */
  ghost function Unused(tracks: Rows, batch: seq<Key>, n: nat): set<Key>
    requires n <= |batch|
  {
    set i | 0 <= i < n && !InUse(tracks, batch[i]) :: batch[i]
  }

  lemma Distinct(garbage: Queue, batch: seq<Key>, now: int, limit: nat)
    requires Due(garbage, batch, now, limit)
    ensures forall j, k :: 0 <= j < k < |batch| ==> batch[j] != batch[k]
  {
  }

  lemma UnusedNone(tracks: Rows, batch: seq<Key>)
    ensures Unused(tracks, batch, 0) == Among(batch, 0) == {}
  {
  }

  lemma UnusedNext(tracks: Rows, batch: seq<Key>, i: nat)
    requires i < |batch| && forall j, k :: 0 <= j < k < |batch| ==> batch[j] != batch[k]
    ensures |Unused(tracks, batch, i + 1)| == |Unused(tracks, batch, i)| + (if InUse(tracks, batch[i]) then 0 else 1)
    ensures Unused(tracks, batch, i + 1) == Unused(tracks, batch, i) + (if InUse(tracks, batch[i]) then {} else {batch[i]})
    ensures Among(batch, i + 1) == Among(batch, i) + {batch[i]}
  {
    UnusedGrows(tracks, batch, i);
    hide InUse, Unused;
    assert batch[i] !in Unused(tracks, batch, i) by {
      UnusedIsEarlier(tracks, batch, i);
    }
  }

  lemma UnusedIsEarlier(tracks: Rows, batch: seq<Key>, i: nat)
    requires i < |batch| && forall j, k :: 0 <= j < k < |batch| ==> batch[j] != batch[k]
    ensures batch[i] !in Unused(tracks, batch, i)
  {
    hide InUse;
  }

  lemma UnusedGrows(tracks: Rows, batch: seq<Key>, i: nat)
    requires i < |batch|
    ensures Unused(tracks, batch, i + 1) == Unused(tracks, batch, i) + (if InUse(tracks, batch[i]) then {} else {batch[i]})
    ensures Among(batch, i + 1) == Among(batch, i) + {batch[i]}
  {
    hide InUse;
  }

  /** Object storage, as far as the collector needs it. */
  class Objects {
    var keys: set<Key>

    constructor (keys: set<Key>)
      ensures this.keys == keys
    {
      this.keys := keys;
    }

    /** Removing an object that is not there succeeds; a storage error leaves
        everything in place. */
    method Remove(key: Key, working: bool) returns (ok: bool)
      modifies this
      ensures ok == working && keys == old(keys) - (if ok then {key} else {})
    {
      if working {
        keys := keys - {key};
      }
      ok := working;
    }
  }

  // ----- The store -----

  class Store {
    var tracks: Rows
    var garbage: Queue

    function Contents(): Db
      reads this
    {
      Db(tracks, garbage)
    }

    constructor (db: Db)
      ensures Contents() == db
    {
      tracks, garbage := db.tracks, db.garbage;
    }

    method QueueGarbage(key: Key, delay: nat, now: int)
      modifies this
      ensures Contents() == old(Contents()).(garbage := Enqueue(old(garbage), key, now + delay))
    {
      var at := now + delay;
      if key in garbage && garbage[key] <= at {
        at := garbage[key];
      }
      garbage := garbage[key := at];
    }

    /** Leases a waiting track, or marks it failed when its attempts are used
        up. Which of several waiting tracks comes first is left open. */
    method ClaimTagRewrite(now: int, lease: nat, maxAttempts: nat) returns (picked: Option<TrackId>, claim: Option<Claim>)
      modifies this
      ensures picked.None? ==>
        (forall id :: id in old(tracks) ==> !Claimable(old(tracks)[id], now)) && Contents() == old(Contents()) && claim == None
      ensures picked.Some? ==>
        && picked.value in old(tracks) && Claimable(old(tracks)[picked.value], now)
        && Contents() == AfterClaim(old(Contents()), picked.value, now, lease, maxAttempts)
        && claim == if old(tracks)[picked.value].attempts >= maxAttempts then None
                    else Some(Claim(picked.value, tracks[picked.value]))
    {
      if !exists id :: id in tracks && Claimable(tracks[id], now) {
        return None, None;
      }
      var id :| id in tracks && Claimable(tracks[id], now);
      var row := tracks[id];
      if row.pendingKey.Some? {
        QueueGarbage(row.pendingKey.value, 0, now);
      }
      if row.attempts >= maxAttempts {
        var error := if row.error == None then Some("too_many_attempts") else row.error;
        tracks := tracks[id := row.(status := Failed, pendingKey := None, claimedUntil := None, error := error)];
        return Some(id), None;
      }
      tracks := tracks[id := row.(attempts := row.attempts + 1, pendingKey := None, claimedUntil := Some(now + lease))];
      return Some(id), Some(Claim(id, tracks[id]));
    }

    method RecordPendingObject(claim: Claim, key: Key) returns (recorded: bool)
      modifies this
      ensures Contents() == AfterRecord(old(Contents()), claim, key)
      ensures recorded == StillWanted(old(Contents()), claim)
    {
      if claim.track !in tracks {
        return false;
      }
      var row := tracks[claim.track];
      if row.version != claim.row.version || row.status != Pending {
        return false;
      }
      tracks := tracks[claim.track := row.(pendingKey := Some(key))];
      recorded := true;
    }

    method ReleaseTagRewrite(id: TrackId)
      modifies this
      ensures Contents() == AfterRelease(old(Contents()), id)
    {
      if id in tracks {
        tracks := tracks[id := tracks[id].(claimedUntil := None)];
      }
    }

    method CompleteTagRewrite(claim: Claim, newKey: Key, newSize: nat, maxOwnerBytes: int, grace: nat, now: int)
      returns (outcome: Outcome)
      modifies this
      ensures outcome == SwapOutcome(old(Contents()), claim, newSize, maxOwnerBytes)
      ensures Contents() == AfterSwap(old(Contents()), claim, newKey, newSize, grace, now, outcome)
    {
      if claim.track !in tracks || tracks[claim.track].owner != claim.row.owner {
        QueueGarbage(newKey, 0, now);
        return NotFound;
      }
      var row := tracks[claim.track];
      if row.version != claim.row.version || row.storageKey != claim.row.storageKey || row.status != Pending {
        QueueGarbage(newKey, 0, now);
        if row.pendingKey == Some(newKey) {
          tracks := tracks[claim.track := row.(pendingKey := None, claimedUntil := None)];
        }
        return Conflict;
      }
      if newSize > row.size {
        var used := SumSizes(tracks, claim.row.owner);
        if Wrap(Wrap(used - row.size) + newSize) > maxOwnerBytes {
          QueueGarbage(newKey, 0, now);
          tracks := tracks[claim.track := row.(status := Failed, error := Some("quota_exceeded"), pendingKey := None,
                                               claimedUntil := None)];
          return OverQuota;
        }
      }
      QueueGarbage(row.storageKey, grace, now);
      tracks := tracks[claim.track := row.(
        storageKey := newKey, size := newSize, status := Written, tagVersion := Some(row.version), error := None,
        pendingKey := None, claimedUntil := None, notBefore := None)];
      outcome := Swapped;
    }

    method FailTagRewrite(claim: Claim, failure: Failure, now: int)
      modifies this
      ensures Contents() == AfterFail(old(Contents()), claim, failure, now)
    {
      if failure.uploaded.Some? {
        QueueGarbage(failure.uploaded.value, 0, now);
      }
      var status := Pending;
      if failure.unsupported {
        status := NoWriter;
      } else if failure.retryAfter <= 0 {
        status := Failed;
      }
      if claim.track in tracks {
        var row := tracks[claim.track];
        if row.version == claim.row.version && row.status == Pending {
          tracks := tracks[claim.track := row.(
            status := status, error := Some(failure.code), pendingKey := None, claimedUntil := None,
            notBefore := if status == Pending then Some(now + failure.retryAfter) else None)];
        }
      }
    }

    method UpdateMetadata(owner: Owner, id: TrackId, expected: nat, edit: Edit) returns (result: EditResult)
      modifies this
      ensures result == EditOutcome(old(Contents()), owner, id, expected, edit)
      ensures Contents() == AfterEdit(old(Contents()), id, result)
    {
      if edit.status != Pending && edit.status != NoWriter {
        return EditRefused;
      }
      if id !in tracks || tracks[id].owner != owner || !tracks[id].ready {
        return EditNotFound;
      }
      var row := tracks[id];
      if row.version != expected {
        return EditConflict;
      }
      row := row.(fileName := edit.fileName, meta := edit.meta, version := expected + 1, status := edit.status,
                  error := None, attempts := 0, notBefore := None);
      tracks := tracks[id := row];
      result := Edited(row);
    }

    /** Deletes one batch. Storage fails on the object at index `broken`, if
        that is reached: then the queue keeps every key, although the objects
        before it are gone. */
    method CollectGarbage(batch: seq<Key>, objects: Objects, limit: nat, now: int, broken: nat) returns (removed: nat, ok: bool)
      requires Due(garbage, batch, now, limit)
      modifies this, objects
      ensures tracks == old(tracks)
      ensures ok <==> broken >= |batch| || InUse(tracks, batch[broken])
      ensures garbage == if ok then old(garbage) - Among(batch, |batch|) else old(garbage)
      ensures objects.keys == old(objects.keys) - Unused(tracks, batch, if ok then |batch| else broken)
      ensures removed == |Unused(tracks, batch, if ok then |batch| else broken)|
    {
      hide InUse, Unused, Due, Among;
      assert forall j, k :: 0 <= j < k < |batch| ==> batch[j] != batch[k] by {
        Distinct(garbage, batch, now, limit);
      }
      removed := 0;
      var handled: set<Key> := {};
      ghost var stored := objects.keys;
      UnusedNone(tracks, batch);
      for i := 0 to |batch|
        modifies objects
        invariant i > broken ==> InUse(tracks, batch[broken])
        invariant removed == |Unused(tracks, batch, i)|
        invariant objects.keys == stored - Unused(tracks, batch, i)
        invariant handled == Among(batch, i)
      {
        var n, gone := RemoveUnlessUsed(batch[i], objects, i != broken);
        if !gone {
          return removed, false;
        }
        UnusedNext(tracks, batch, i);
        removed := removed + n;
        handled := handled + {batch[i]};
      }
      garbage := garbage - handled;
      ok := true;
    }

    method RemoveUnlessUsed(key: Key, objects: Objects, working: bool) returns (removed: nat, ok: bool)
      modifies objects
      ensures ok == (working || InUse(tracks, key))
      ensures removed == if ok && !InUse(tracks, key) then 1 else 0
      ensures objects.keys == old(objects.keys) - (if ok && !InUse(tracks, key) then {key} else {})
    {
      var used := IsInUse(key);
      if used {
        return 0, true;
      }
      ok := objects.Remove(key, working);
      removed := if ok then 1 else 0;
    }

    method IsInUse(key: Key) returns (used: bool)
      ensures used == InUse(tracks, key)
    {
      var ids := tracks.Keys;
      used := false;
      while ids != {}
        invariant ids <= tracks.Keys
        invariant forall id :: id in tracks && id !in ids ==> tracks[id].storageKey != key && tracks[id].pendingKey != Some(key)
        decreases |ids|
      {
        var id :| id in ids;
        if tracks[id].storageKey == key || tracks[id].pendingKey == Some(key) {
          return true;
        }
        ids := ids - {id};
      }
    }
  }
}

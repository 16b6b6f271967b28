/** What would make the protocol safe without any assumption about time: a swap
    that also compares the recorded key. In every run whose successful swaps
    find their own key still recorded, no track loses its object, however late
    workers act and whoever's lease a release clears. */
module RewriteChecked {
  import opened ByteOrder
  import opened Options
  import opened TrackTable
  import opened TagStore
  import opened RewriteProtocol
  import opened RewriteSafety
  import T = TagText
  import Tags

  /** A swap that succeeds finds the worker's key in the row. */
  ghost predicate Checked(c: Config, w: World, s: Step) {
    && s.Swap? && s.worker in w.workers && w.workers[s.worker].phase.Stored? && s.answer != LostBeforeCommit
    && SwapOutcome(w.db, w.workers[s.worker].claim, |w.workers[s.worker].phase.file|, c.maxOwnerBytes) == Swapped
    ==> w.db.tracks[w.workers[s.worker].claim.track].pendingKey == Some(RevisionKey(w.workers[s.worker].claim))
  }

  // ----- The invariant, without leases -----

  /** What the row and the stores say of a worker's key, by its phase. */
  predicate PhaseSafe(w: World, x: Worker, row: Row) {
    var key := RevisionKey(x.claim);
    match x.phase
    case Leased => key !in w.db.garbage && key !in w.objects && !Uses(row, key)
    case Verified(_) => key !in w.db.garbage && key !in w.objects && !Uses(row, key)
    case Noted(_) => key !in w.objects && row.storageKey != key && (row.pendingKey == Some(key) ==> key !in w.db.garbage)
    case Stored(file) =>
      && (key in w.objects ==> w.objects[key] == file) && row.storageKey != key
      && (row.pendingKey == Some(key) ==> key !in w.db.garbage && key in w.objects)
    case _ => true
  }

  ghost predicate WorkerSafe(c: Config, w: World, x: Worker)
    requires x.claim.track in w.db.tracks
  {
    var row := w.db.tracks[x.claim.track];
    && RevisionKey(x.claim) in w.issued
    && SnapshotOk(c, x.claim, row)
    && (HasFile(x.phase) ==>
          && x.claim.track in w.uploads
          && IsRewrite(c, FileFormat(row), w.uploads[x.claim.track], x.claim.row.meta, x.phase.file))
    && (x.phase.Failing? && x.phase.failure.uploaded.Some? ==> x.phase.failure.uploaded.value == RevisionKey(x.claim))
    && PhaseSafe(w, x, row)
  }

  ghost predicate WorkersSafe(c: Config, w: World, id: TrackId)
    requires id in w.db.tracks
  {
    forall x :: x in w.workers && w.workers[x].claim.track == id ==> WorkerSafe(c, w, w.workers[x])
  }

  /** No two workers have the same key. */
  ghost predicate KeysApart(w: World) {
    forall x, y :: x in w.workers && y in w.workers && x != y ==>
      RevisionKey(w.workers[x].claim) != RevisionKey(w.workers[y].claim)
  }

  ghost predicate ObjectSafe(c: Config, w: World, key: Key)
    requires key in w.objects && key.track in w.db.tracks
  {
    && key.track in w.uploads
    && (key.Revision? ==>
          && key in w.issued
          && exists m :: IsRewrite(c, FileFormat(w.db.tracks[key.track]), w.uploads[key.track], m, w.objects[key]))
    && (key.Upload? ==> w.objects[key] == w.uploads[key.track])
  }

  ghost predicate ObjectsSafe(c: Config, w: World, id: TrackId)
    requires id in w.db.tracks
  {
    forall k :: k in w.objects && k.track == id ==> ObjectSafe(c, w, k)
  }

  predicate BatchSafe(w: World, key: Key, row: Row) {
    w.collector.Collecting? && key in w.collector.batch ==>
      key in w.db.garbage && (key in w.collector.doomed ==> !Uses(row, key))
  }

  ghost predicate BatchesSafe(w: World, id: TrackId)
    requires id in w.db.tracks
  {
    forall k: Key :: k.track == id ==> BatchSafe(w, k, w.db.tracks[id])
  }

  ghost predicate TrackSafe(c: Config, w: World, id: TrackId)
    requires id in w.db.tracks
  {
    RowOk(c, w, id) && WorkersSafe(c, w, id) && ObjectsSafe(c, w, id) && KeysOk(w, id) && BatchesSafe(w, id)
  }

  ghost predicate Safe(c: Config, w: World) {
    && c.u.Agrees() && Placed(w) && KeysApart(w)
    && forall id :: id in w.db.tracks ==> TrackSafe(c, w, id)
  }

  lemma SafeParts(c: Config, w: World, id: TrackId)
    requires Safe(c, w) && id in w.db.tracks
    ensures RowOk(c, w, id) && WorkersSafe(c, w, id) && ObjectsSafe(c, w, id) && KeysOk(w, id) && BatchesSafe(w, id)
  {
    hide RowOk, WorkersSafe, ObjectsSafe, KeysOk, BatchesSafe;
    assert TrackSafe(c, w, id);
  }

  lemma SafeWorker(c: Config, w: World, worker: WorkerId)
    requires Safe(c, w) && worker in w.workers
    ensures w.workers[worker].claim.track in w.db.tracks && WorkerSafe(c, w, w.workers[worker])
    ensures RowOk(c, w, w.workers[worker].claim.track)
  {
    hide WorkerSafe, RowOk, ObjectSafe;
    assert TrackSafe(c, w, w.workers[worker].claim.track);
  }

  // ----- Steps that leave a track alone -----

  lemma FrameSafe(c: Config, w: World, v: World, id: TrackId)
    requires id in w.db.tracks && TrackSafe(c, w, id) && SameTrack(w, v, id)
    ensures TrackSafe(c, v, id)
  {
    hide IsRewrite, SnapshotOk, Tags.Embeddable, FileFormat;
    assert RowOk(c, v, id);
    assert WorkersSafe(c, v, id) by {
      forall x | x in v.workers && v.workers[x].claim.track == id
        ensures WorkerSafe(c, v, v.workers[x])
      {
        assert WorkerSafe(c, w, w.workers[x]);
        assert RevisionKey(v.workers[x].claim).track == id;
      }
    }
    assert ObjectsSafe(c, v, id) by {
      forall k | k in v.objects && k.track == id
        ensures ObjectSafe(c, v, k)
      {
        assert ObjectSafe(c, w, k);
      }
    }
    assert BatchesSafe(v, id) by {
      forall k: Key | k.track == id
        ensures BatchSafe(v, k, v.db.tracks[id])
      {
        assert BatchSafe(w, k, w.db.tracks[id]);
      }
    }
  }

  // ----- Steps that change one track -----

  /** What one worker's step does to a track: whatever is installed, recorded or
      stored anew is its own key, and what is queued is its own key, the object
      the row named, or a recorded key the row gives up. */
  ghost predicate Moves(w: World, v: World, id: TrackId, key: Option<Key>)
    requires id in w.db.tracks && id in v.db.tracks
  {
    var row, next := w.db.tracks[id], v.db.tracks[id];
    && (next.pendingKey == None || next.pendingKey == row.pendingKey || next.pendingKey == key)
    && (next.storageKey == row.storageKey || Some(next.storageKey) == key)
    && (forall k :: k in w.issued ==> k in v.issued)
    && (forall k :: k in v.issued && k !in w.issued && k.track == id ==> NotAfter(k, next))
    && (forall k: Key :: k.track == id && Some(k) != key ==>
          (k in v.objects <==> k in w.objects) && (k in w.objects ==> v.objects[k] == w.objects[k]))
    && (forall k :: k in w.db.garbage && k.track == id ==> k in v.db.garbage && (Uses(next, k) ==> Uses(row, k)))
    && (forall k :: k in v.db.garbage && k !in w.db.garbage && k.track == id ==>
          && (k.Revision? ==> k in v.issued)
          && (Some(k) == key || k == row.storageKey || (row.pendingKey == Some(k) && next.pendingKey != Some(k))))
  }

  lemma OtherWorker(c: Config, w: World, v: World, y: Worker, key: Option<Key>)
    requires y.claim.track in w.db.tracks && WorkerSafe(c, w, y) && Some(RevisionKey(y.claim)) != key
    requires var id := y.claim.track;
      Touches(w, v, id) && Moves(w, v, id, key) && Descends(w.db.tracks[id], v.db.tracks[id])
    ensures WorkerSafe(c, v, y)
  {
    hide IsRewrite, Tags.Embeddable, FileFormat;
    assert RevisionKey(y.claim).track == y.claim.track;
  }

  /** A step that changes one row, seen part by part. */
  lemma RowStepSafe(c: Config, w: World, v: World, id: TrackId, worker: Option<WorkerId>, key: Option<Key>)
    requires Safe(c, w) && id in w.db.tracks && Touches(w, v, id) && Moves(w, v, id, key)
    requires Descends(w.db.tracks[id], v.db.tracks[id]) && RowOk(c, v, id)
    requires OthersSame(w, v, id, worker) && KeysApart(v)
    requires forall x :: x in v.workers && v.workers[x].claim.track == id && Some(x) != worker ==>
      Some(RevisionKey(v.workers[x].claim)) != key
    requires worker.Some? && worker.value in v.workers && v.workers[worker.value].claim.track == id ==>
      WorkerSafe(c, v, v.workers[worker.value])
    requires key.Some? && key.value in v.objects && key.value.track == id ==> ObjectSafe(c, v, key.value)
    ensures Safe(c, v)
  {
    SafeParts(c, w, id);
    assert WorkersSafe(c, v, id) by {
      hide WorkerSafe, RowOk, Moves, Touches, Descends, ObjectSafe;
      forall x | x in v.workers && v.workers[x].claim.track == id
        ensures WorkerSafe(c, v, v.workers[x])
      {
        if Some(x) != worker {
          OtherWorker(c, w, v, v.workers[x], key);
        }
      }
    }
    PartsMove(c, w, v, id, key);
    hide Safe, RowOk, WorkersSafe, ObjectsSafe, KeysOk, BatchesSafe, Moves, Descends, Touches, KeysApart;
    TouchesOneSafe(c, w, v, id);
  }

  lemma PartsMove(c: Config, w: World, v: World, id: TrackId, key: Option<Key>)
    requires id in w.db.tracks && Touches(w, v, id) && Moves(w, v, id, key)
    requires ObjectsSafe(c, w, id) && KeysOk(w, id) && BatchesSafe(w, id)
    requires Descends(w.db.tracks[id], v.db.tracks[id])
    requires key.Some? && key.value in v.objects && key.value.track == id ==> ObjectSafe(c, v, key.value)
    ensures ObjectsSafe(c, v, id) && KeysOk(v, id) && BatchesSafe(v, id)
  {
    hide IsRewrite, FileFormat;
    forall k | k in v.objects && k.track == id
      ensures ObjectSafe(c, v, k)
    {
      if Some(k) != key {
        assert ObjectSafe(c, w, k);
      }
    }
    KeysStep(w, v, id);
    forall k: Key | k.track == id
      ensures BatchSafe(v, k, v.db.tracks[id])
    {
      assert BatchSafe(w, k, w.db.tracks[id]);
    }
  }

  lemma TouchesOneSafe(c: Config, w: World, v: World, id: TrackId)
    requires Safe(c, w) && id in w.db.tracks && Touches(w, v, id) && TrackSafe(c, v, id) && KeysApart(v)
    ensures Safe(c, v)
  {
    hide TrackSafe, KeysApart;
    forall other | other in v.db.tracks
      ensures TrackSafe(c, v, other)
    {
      if other != id {
        FrameSafe(c, w, v, other);
      }
    }
    assert Placed(v) by {
      TouchesPlaced(w, v, id);
    }
  }

  /** A step of a worker, which goes on in another phase or is gone. */
  lemma WorkerStepSafe(c: Config, w: World, v: World, worker: WorkerId)
    requires Safe(c, w) && worker in w.workers
    requires var id := w.workers[worker].claim.track; var key := Some(RevisionKey(w.workers[worker].claim));
      && id in w.db.tracks && Touches(w, v, id) && Moves(w, v, id, key)
      && Descends(w.db.tracks[id], v.db.tracks[id]) && RowOk(c, v, id)
      && (key.value in v.objects ==> ObjectSafe(c, v, key.value))
    requires forall x :: x in v.workers && x != worker ==> x in w.workers && v.workers[x] == w.workers[x]
    requires worker in v.workers ==>
      v.workers[worker].claim == w.workers[worker].claim && WorkerSafe(c, v, v.workers[worker])
    ensures Safe(c, v)
  {
    hide WorkerSafe, ObjectSafe, Descends, RowOk, Moves, Touches, TrackSafe;
    var id, key := w.workers[worker].claim.track, Some(RevisionKey(w.workers[worker].claim));
    RowStepSafe(c, w, v, id, Some(worker), key);
  }

  lemma ObjectIsSafe(c: Config, w: World, key: Key)
    requires Safe(c, w) && key in w.objects
    ensures key.track in w.db.tracks && ObjectSafe(c, w, key)
  {
    hide RowOk, WorkersSafe, ObjectSafe, KeysOk, BatchesSafe, KeysApart;
    assert TrackSafe(c, w, key.track);
  }

  // ----- One lemma for each kind of step -----

  lemma EditSafe(c: Config, w: World, v: World, id: TrackId, edit: Edit)
    requires Safe(c, w) && id in w.db.tracks && EditStatus(edit.status)
    requires Tags.FormatOf(edit.fileName) == FileFormat(w.db.tracks[id])
    requires Tags.Embeddable(Tags.FormatOf(edit.fileName), edit.meta)
    requires v == w.(db := w.db.(tracks := w.db.tracks[id := ApplyEdit(w.db.tracks[id], edit)]))
    ensures Safe(c, v)
  {
    hide IsRewrite, Tags.Embeddable, Tags.FormatOf, WorkerSafe, ObjectSafe, TrackSafe;
    SafeParts(c, w, id);
    hide Safe;
    assert KeysApart(v) by {
      ApartSafe(c, w);
    }
    RowStepSafe(c, w, v, id, None, None);
  }

  lemma ApartSafe(c: Config, w: World)
    requires Safe(c, w)
    ensures KeysApart(w) && Placed(w) && c.u.Agrees()
  {
    hide KeysApart, Placed, TrackSafe;
  }

  /** The worker only moved on to another phase. */
  lemma PhaseStepSafe(c: Config, w: World, worker: WorkerId, phase: Phase)
    requires Safe(c, w) && worker in w.workers
    requires var y := w.workers[worker].(phase := phase);
      y.claim.track in w.db.tracks && WorkerSafe(c, w, y)
    ensures Safe(c, WithPhase(w, worker, phase))
  {
    hide WorkerSafe, ObjectSafe, RowOk, Safe, Touches, Moves, Descends;
    var v, id, key := WithPhase(w, worker, phase), w.workers[worker].claim.track, RevisionKey(w.workers[worker].claim);
    SafeWorker(c, w, worker);
    RowOkSame(c, w, v, id);
    NothingMoves(w, v, id, worker);
    WorkersMove(w, v, id, Some(key));
    WorkerSafeSame(c, w, v, v.workers[worker]);
    if key in v.objects {
      ObjectIsSafe(c, w, key);
      ObjectSafeSame(c, w, v, key);
    }
    WorkerStepSafe(c, w, v, worker);
  }

  lemma WorkersMove(w: World, v: World, id: TrackId, key: Option<Key>)
    requires id in w.db.tracks && v == w.(workers := v.workers)
    ensures Moves(w, v, id, key)
  {
  }

  lemma WorkerSafeSame(c: Config, w: World, v: World, x: Worker)
    requires v == w.(workers := v.workers) && x.claim.track in w.db.tracks && WorkerSafe(c, w, x)
    ensures WorkerSafe(c, v, x)
  {
    hide IsRewrite, SnapshotOk;
  }

  lemma ObjectSafeSame(c: Config, w: World, v: World, key: Key)
    requires v.db.tracks == w.db.tracks && v.objects == w.objects && v.uploads == w.uploads && w.issued <= v.issued
    requires key in w.objects && key.track in w.db.tracks && ObjectSafe(c, w, key)
    ensures ObjectSafe(c, v, key)
  {
    hide IsRewrite;
  }

  lemma RewriteSafe(c: Config, w: World, worker: WorkerId, file: Bytes)
    requires Safe(c, w) && worker in w.workers && w.workers[worker].phase == Leased
    requires GoodFile(c, w, w.workers[worker].claim, file)
    ensures Safe(c, WithPhase(w, worker, Verified(file)))
  {
    hide IsRewrite, Tags.Embeddable, Tags.FormatOf, Safe, RowOk, ObjectSafe, GoodFile;
    var x := w.workers[worker];
    SafeWorker(c, w, worker);
    SourceIsSafe(c, w, x.claim, file);
    PhaseStepSafe(c, w, worker, Verified(file));
  }

  lemma SourceIsSafe(c: Config, w: World, claim: Claim, file: Bytes)
    requires Safe(c, w) && claim.track in w.db.tracks && SnapshotOk(c, claim, w.db.tracks[claim.track])
    requires GoodFile(c, w, claim, file)
    ensures claim.track in w.uploads
    ensures IsRewrite(c, FileFormat(w.db.tracks[claim.track]), w.uploads[claim.track], claim.row.meta, file)
  {
    hide Tags.Embeddable, Tags.FormatOf, Tags.Rewrite, Tags.Verified, Safe;
    var key, row := claim.row.storageKey, w.db.tracks[claim.track];
    ApartSafe(c, w);
    ObjectIsSafe(c, w, key);
    if key.Revision? {
      var m :| IsRewrite(c, FileFormat(row), w.uploads[claim.track], m, w.objects[key]);
      RewriteOfRewrite(c, FileFormat(row), w.uploads[claim.track], m, w.objects[key], claim.row.meta, file);
    }
  }

  lemma GiveUpSafe(c: Config, w: World, worker: WorkerId, failure: Failure)
    requires Safe(c, w) && worker in w.workers && w.workers[worker].phase == Leased && failure.uploaded == None
    ensures Safe(c, WithPhase(w, worker, Failing(failure, false)))
  {
    hide IsRewrite, Safe, RowOk, SnapshotOk;
    SafeWorker(c, w, worker);
    PhaseStepSafe(c, w, worker, Failing(failure, false));
  }

  /** The key is recorded before anything is uploaded under it. */
  lemma NoteSafe(c: Config, w: World, v: World, worker: WorkerId, phase: Phase)
    requires Safe(c, w) && worker in w.workers && w.workers[worker].phase.Verified?
    requires var x := w.workers[worker];
      && StillWanted(w.db, x.claim)
      && v == WithPhase(w.(db := AfterRecord(w.db, x.claim, RevisionKey(x.claim))), worker, phase)
      && (phase == Noted(x.phase.file) || (phase.Failing? && phase.failure.uploaded == None))
    ensures Safe(c, v)
  {
    hide IsRewrite, Tags.Embeddable, Tags.FormatOf, Safe, ObjectSafe;
    var x := w.workers[worker];
    var key := RevisionKey(x.claim);
    SafeWorker(c, w, worker);
    assert key !in v.objects;
    assert RowOk(c, v, x.claim.track);
    assert WorkerSafe(c, v, v.workers[worker]);
    hide RowOk, WorkerSafe;
    WorkerStepSafe(c, w, v, worker);
  }

  lemma PutSafe(c: Config, w: World, v: World, worker: WorkerId, phase: Phase)
    requires Safe(c, w) && worker in w.workers && w.workers[worker].phase.Noted?
    requires var x := w.workers[worker];
      && v == WithPhase(w.(objects := w.objects[RevisionKey(x.claim) := x.phase.file]), worker, phase)
      && (phase == Stored(x.phase.file) ||
          (phase.Failing? && phase.failure.uploaded == Some(RevisionKey(x.claim))))
    ensures Safe(c, v)
  {
    hide IsRewrite, Tags.Embeddable, Tags.FormatOf, Safe;
    var x := w.workers[worker];
    var key := RevisionKey(x.claim);
    SafeWorker(c, w, worker);
    assert IsRewrite(c, FileFormat(v.db.tracks[key.track]), v.uploads[key.track], x.claim.row.meta, x.phase.file);
    assert ObjectSafe(c, v, key);
    assert RowOk(c, v, x.claim.track);
    assert WorkerSafe(c, v, v.workers[worker]);
    hide RowOk, WorkerSafe, ObjectSafe;
    WorkerStepSafe(c, w, v, worker);
  }

  predicate Over(phase: Option<Phase>, key: Key) {
    phase.Some? ==>
      || phase.value.Superseded?
      || (phase.value.Failing? && (phase.value.failure.uploaded.Some? ==> phase.value.failure.uploaded.value == key))
  }

  /** A worker that has done with its file asks nothing of the row any more. */
  lemma OverSafe(c: Config, w: World, v: World, worker: WorkerId, phase: Option<Phase>)
    requires Safe(c, w) && worker in w.workers && Over(phase, RevisionKey(w.workers[worker].claim))
    requires var id := w.workers[worker].claim.track;
      && id in w.db.tracks && Touches(w, v, id) && Moves(w, v, id, Some(RevisionKey(w.workers[worker].claim)))
      && Descends(w.db.tracks[id], v.db.tracks[id]) && RowOk(c, v, id)
      && v.objects == w.objects && v.workers == Ended(w, worker, phase).workers
    ensures Safe(c, v)
  {
    hide IsRewrite, Tags.Embeddable, FileFormat, Safe, RowOk, ObjectSafe;
    var x, key := w.workers[worker], RevisionKey(w.workers[worker].claim);
    SafeWorker(c, w, worker);
    if key in v.objects {
      ObjectIsSafe(c, w, key);
      ObjectSafeMoves(c, w, v, key);
    }
    assert worker in v.workers ==> WorkerSafe(c, v, v.workers[worker]);
    hide WorkerSafe, Touches, Moves, Descends;
    WorkerStepSafe(c, w, v, worker);
  }

  lemma ObjectSafeMoves(c: Config, w: World, v: World, key: Key)
    requires key in w.objects && key.track in w.db.tracks && ObjectSafe(c, w, key)
    requires Touches(w, v, key.track) && Descends(w.db.tracks[key.track], v.db.tracks[key.track])
    requires v.objects == w.objects && (key in w.issued ==> key in v.issued)
    ensures ObjectSafe(c, v, key)
  {
    hide IsRewrite, FileFormat;
  }

  /** The row takes no new key in, and one is queued. */
  lemma RowMoves(w: World, v: World, id: TrackId, q: Key, key: Key)
    requires id in w.db.tracks && id in v.db.tracks && v.issued == w.issued && v.objects == w.objects
    requires v.db.garbage.Keys == w.db.garbage.Keys + {q} && (q.Revision? ==> q in w.issued)
    requires q == key || q == w.db.tracks[id].storageKey
    requires forall k :: k in w.db.garbage && Uses(v.db.tracks[id], k) ==> Uses(w.db.tracks[id], k)
    requires var row, next := w.db.tracks[id], v.db.tracks[id];
      && (next.pendingKey == None || next.pendingKey == row.pendingKey)
      && (next.storageKey == row.storageKey || next.storageKey == key)
    ensures Moves(w, v, id, Some(key))
  {
    hide Uses;
    forall k
      ensures k in v.db.garbage <==> k in w.db.garbage || k == q
    {
      assert k in v.db.garbage.Keys <==> k in w.db.garbage.Keys || k == q;
    }
  }

  lemma ConflictSafe(c: Config, w: World, worker: WorkerId, phase: Option<Phase>)
    requires Safe(c, w) && worker in w.workers && w.workers[worker].phase.Stored?
    requires var x := w.workers[worker];
      Over(phase, RevisionKey(x.claim)) && x.claim.track in w.db.tracks
    ensures var x := w.workers[worker];
      Safe(c, Ended(w.(db := AfterSwap(w.db, x.claim, RevisionKey(x.claim), 0, 0, w.now, Conflict)), worker, phase))
  {
    hide IsRewrite, Tags.Embeddable, Tags.FormatOf, Safe;
    var x := w.workers[worker];
    var v := Ended(w.(db := AfterSwap(w.db, x.claim, RevisionKey(x.claim), 0, 0, w.now, Conflict)), worker, phase);
    SafeWorker(c, w, worker);
    assert RowOk(c, v, x.claim.track);
    SwapTouches(w, worker, phase, 0, 0, Conflict);
    RowMoves(w, v, x.claim.track, SwapQueued(w, x, Conflict), RevisionKey(x.claim));
    hide RowOk, Touches, Moves, Descends, WorkerSafe;
    OverSafe(c, w, v, worker, phase);
  }

  lemma OverQuotaSafe(c: Config, w: World, worker: WorkerId, phase: Option<Phase>)
    requires Safe(c, w) && worker in w.workers && w.workers[worker].phase.Stored?
    requires var x := w.workers[worker];
      Over(phase, RevisionKey(x.claim)) && x.claim.track in w.db.tracks
    ensures var x := w.workers[worker];
      Safe(c, Ended(w.(db := AfterSwap(w.db, x.claim, RevisionKey(x.claim), 0, 0, w.now, OverQuota)), worker, phase))
  {
    hide IsRewrite, Tags.Embeddable, Tags.FormatOf, Safe;
    var x := w.workers[worker];
    var v := Ended(w.(db := AfterSwap(w.db, x.claim, RevisionKey(x.claim), 0, 0, w.now, OverQuota)), worker, phase);
    SafeWorker(c, w, worker);
    assert RowOk(c, v, x.claim.track);
    SwapTouches(w, worker, phase, 0, 0, OverQuota);
    RowMoves(w, v, x.claim.track, SwapQueued(w, x, OverQuota), RevisionKey(x.claim));
    hide RowOk, Touches, Moves, Descends, WorkerSafe;
    OverSafe(c, w, v, worker, phase);
  }

  /** The row still records the key: so it is not queued, and the object is
      there. This is where the check is needed. */
  lemma SwappedSafe(c: Config, w: World, worker: WorkerId, phase: Option<Phase>)
    requires Safe(c, w) && worker in w.workers && w.workers[worker].phase.Stored?
    requires var x := w.workers[worker]; x.claim.track in w.db.tracks && Over(phase, RevisionKey(x.claim))
    requires var x := w.workers[worker]; var row := w.db.tracks[x.claim.track];
      && row.version == x.claim.row.version && row.storageKey == x.claim.row.storageKey && row.status == Pending
      && row.pendingKey == Some(RevisionKey(x.claim))
    ensures var x := w.workers[worker]; var size := |x.phase.file|;
      Safe(c, Ended(w.(db := AfterSwap(w.db, x.claim, RevisionKey(x.claim), size, c.grace, w.now, Swapped)), worker, phase))
  {
    hide IsRewrite, Tags.Embeddable, Tags.FormatOf, Safe;
    var x := w.workers[worker];
    var size := |x.phase.file|;
    var v := Ended(w.(db := AfterSwap(w.db, x.claim, RevisionKey(x.claim), size, c.grace, w.now, Swapped)), worker, phase);
    SafeWorker(c, w, worker);
    assert RowOk(c, v, x.claim.track);
    SwapTouches(w, worker, phase, size, c.grace, Swapped);
    RowMoves(w, v, x.claim.track, SwapQueued(w, x, Swapped), RevisionKey(x.claim));
    hide RowOk, Touches, Moves, Descends, WorkerSafe;
    OverSafe(c, w, v, worker, phase);
  }

  lemma FailureSafe(c: Config, w: World, worker: WorkerId)
    requires Safe(c, w) && worker in w.workers && w.workers[worker].phase.Failing?
    ensures var x := w.workers[worker];
      Safe(c, Without(w.(db := AfterFail(w.db, x.claim, x.phase.failure, w.now)), worker))
  {
    hide IsRewrite, Tags.Embeddable, Tags.FormatOf, Safe;
    var x := w.workers[worker];
    var v := Without(w.(db := AfterFail(w.db, x.claim, x.phase.failure, w.now)), worker);
    SafeWorker(c, w, worker);
    assert RowOk(c, v, x.claim.track);
    hide RowOk;
    OverSafe(c, w, v, worker, None);
  }

  /** Whosever lease it clears. */
  lemma ReleaseSafe(c: Config, w: World, worker: WorkerId)
    requires Safe(c, w) && worker in w.workers && w.workers[worker].phase.Superseded?
    ensures Safe(c, Without(w.(db := AfterRelease(w.db, w.workers[worker].claim.track)), worker))
  {
    hide IsRewrite, Tags.Embeddable, Tags.FormatOf, Safe;
    var v := Without(w.(db := AfterRelease(w.db, w.workers[worker].claim.track)), worker);
    SafeWorker(c, w, worker);
    assert RowOk(c, v, w.workers[worker].claim.track);
    hide RowOk;
    OverSafe(c, w, v, worker, None);
  }

  lemma ExhaustedSafe(c: Config, w: World, id: TrackId)
    requires Safe(c, w) && id in w.db.tracks && w.db.tracks[id].attempts >= c.maxAttempts
    ensures Safe(c, w.(db := AfterClaim(w.db, id, w.now, c.lease, c.maxAttempts)))
  {
    hide IsRewrite, Tags.Embeddable, Tags.FormatOf, Safe, ObjectSafe, WorkerSafe;
    var v := w.(db := AfterClaim(w.db, id, w.now, c.lease, c.maxAttempts));
    SafeParts(c, w, id);
    assert KeysApart(v) by {
      ApartSafe(c, w);
    }
    RowStepSafe(c, w, v, id, None, None);
  }

  /** The key a claim makes available was never issued before. */
  lemma ClaimKeyIsNew(c: Config, w: World, id: TrackId)
    requires Safe(c, w) && id in w.db.tracks
    ensures var row := w.db.tracks[id]; var key := Revision(id, row.version, row.attempts + 1);
      && key !in w.issued && key !in w.objects && key !in w.db.garbage && !Uses(row, key)
      && forall x :: x in w.workers ==> RevisionKey(w.workers[x].claim) != key
  {
    hide IsRewrite, Safe, BatchesSafe, FileFormat, PhaseSafe, SnapshotOk;
    SafeParts(c, w, id);
    var row := w.db.tracks[id];
    var key := Revision(id, row.version, row.attempts + 1);
    assert key in w.issued ==> NotAfter(key, row);
    if key in w.objects {
      ObjectIsSafe(c, w, key);
    }
    forall x | x in w.workers
      ensures RevisionKey(w.workers[x].claim) != key
    {
      SafeWorker(c, w, x);
    }
  }

  lemma ClaimSafe(c: Config, w: World, worker: WorkerId, id: TrackId)
    requires Safe(c, w) && id in w.db.tracks && Claimable(w.db.tracks[id], w.now) && worker !in w.workers
    requires w.db.tracks[id].attempts < c.maxAttempts
    ensures Safe(c, DoClaim(c, w, worker, id))
  {
    hide Safe, ObjectSafe, RowOk, WorkerSafe, KeysApart, Touches, Moves, Descends;
    var v := DoClaim(c, w, worker, id);
    SafeParts(c, w, id);
    ClaimKeyIsNew(c, w, id);
    assert KeysApart(v) by {
      ApartSafe(c, w);
      ClaimApart(c, w, worker, id);
    }
    ClaimedRowOk(c, w, worker, id);
    ClaimTouches(c, w, worker, id);
    ClaimMoves(c, w, worker, id);
    ClaimerIsSafe(c, w, worker, id);
    RowStepSafe(c, w, v, id, Some(worker), Some(RevisionKey(v.workers[worker].claim)));
  }

  lemma ClaimApart(c: Config, w: World, worker: WorkerId, id: TrackId)
    requires id in w.db.tracks && w.db.tracks[id].attempts < c.maxAttempts && worker !in w.workers && KeysApart(w)
    requires var row := w.db.tracks[id];
      forall x :: x in w.workers ==> RevisionKey(w.workers[x].claim) != Revision(id, row.version, row.attempts + 1)
    ensures KeysApart(DoClaim(c, w, worker, id))
  {
  }

  lemma ClaimMoves(c: Config, w: World, worker: WorkerId, id: TrackId)
    requires id in w.db.tracks && w.db.tracks[id].attempts < c.maxAttempts && worker !in w.workers
    requires RowOk(c, w, id)
    ensures var v := DoClaim(c, w, worker, id); Moves(w, v, id, Some(RevisionKey(v.workers[worker].claim)))
  {
    hide IsRewrite, Tags.Embeddable, FileFormat;
  }

  lemma ClaimerIsSafe(c: Config, w: World, worker: WorkerId, id: TrackId)
    requires id in w.db.tracks && w.db.tracks[id].attempts < c.maxAttempts && RowOk(c, w, id)
    requires w.db.tracks[id].status == Pending && w.db.tracks[id].ready
    requires var row := w.db.tracks[id]; var key := Revision(id, row.version, row.attempts + 1);
      key !in w.objects && key !in w.db.garbage && !Uses(row, key)
    ensures var v := DoClaim(c, w, worker, id); WorkerSafe(c, v, v.workers[worker])
  {
    hide IsRewrite, Tags.Embeddable, Tags.FormatOf;
  }

  lemma PublishSafe(c: Config, w: World, id: TrackId, row: Row, data: Bytes)
    requires Safe(c, w) && id !in w.db.tracks && NewUpload(row, id, data)
    ensures Safe(c, w.(db := w.db.(tracks := w.db.tracks[id := row]), objects := w.objects[TrackTable.Upload(id) := data],
                       uploads := w.uploads[id := data]))
  {
    hide IsRewrite, Tags.Embeddable, Tags.FormatOf, TrackSafe;
    var v := w.(db := w.db.(tracks := w.db.tracks[id := row]), objects := w.objects[TrackTable.Upload(id) := data],
                uploads := w.uploads[id := data]);
    NewTrackSafe(c, v, id);
    forall other | other in w.db.tracks
      ensures TrackSafe(c, v, other)
    {
      FrameSafe(c, w, v, other);
    }
  }

  lemma NewTrackSafe(c: Config, v: World, id: TrackId)
    requires id in v.db.tracks && id in v.uploads && NewUpload(v.db.tracks[id], id, v.uploads[id])
    requires forall x :: x in v.workers ==> v.workers[x].claim.track != id
    requires forall k :: k in v.objects && k.track == id ==> k == TrackTable.Upload(id)
    requires TrackTable.Upload(id) in v.objects && v.objects[TrackTable.Upload(id)] == v.uploads[id]
    requires forall k :: k in v.issued || k in v.db.garbage ==> k.track != id
    requires v.collector.Collecting? ==> forall k :: k in v.collector.batch ==> k.track != id
    ensures TrackSafe(c, v, id)
  {
    hide IsRewrite, Tags.Embeddable, Tags.FormatOf;
    assert RowOk(c, v, id);
    assert ObjectsSafe(c, v, id) by {
      assert ObjectSafe(c, v, TrackTable.Upload(id));
    }
  }

  lemma QuietSafe(c: Config, w: World, v: World)
    requires Safe(c, w) && v.now >= w.now
    requires v == w.(now := v.now, workers := v.workers)
    requires forall x :: x in v.workers ==> x in w.workers && v.workers[x] == w.workers[x]
    ensures Safe(c, v)
  {
    hide TrackSafe;
    forall id | id in v.db.tracks
      ensures TrackSafe(c, v, id)
    {
      FrameSafe(c, w, v, id);
    }
  }

  // ----- The collector -----

  lemma InUseIsOwn(c: Config, w: World, key: Key)
    requires Safe(c, w) && key.track in w.db.tracks
    ensures InUse(w.db.tracks, key) <==> Uses(w.db.tracks[key.track], key)
  {
    hide IsRewrite, Tags.Embeddable, Safe, RowOk;
    if InUse(w.db.tracks, key) {
      var id :| id in w.db.tracks && (w.db.tracks[id].storageKey == key || w.db.tracks[id].pendingKey == Some(key));
      SafeParts(c, w, id);
      RowKeysAreOwn(c, w, id);
    }
  }

  lemma RowKeysAreOwn(c: Config, w: World, id: TrackId)
    requires id in w.db.tracks && RowOk(c, w, id)
    ensures var row := w.db.tracks[id];
      row.storageKey.track == id && (row.pendingKey.Some? ==> row.pendingKey.value.track == id)
  {
    hide IsRewrite;
  }

  /** The collector's steps: no key leaves the queue while the batch is held,
      and no object goes that a row uses. */
  lemma CollectorSafe(c: Config, w: World, v: World)
    requires Safe(c, w) && v == w.(db := w.db.(garbage := v.db.garbage), objects := v.objects, collector := v.collector)
    requires v.db.garbage.Keys <= w.db.garbage.Keys
    requires forall k :: k in v.objects ==> k in w.objects && v.objects[k] == w.objects[k]
    requires forall k :: k in w.objects && k.track in w.db.tracks && k !in v.objects ==>
      k in w.db.garbage && !Uses(w.db.tracks[k.track], k)
    requires Placed(v) && forall id :: id in v.db.tracks ==> BatchesSafe(v, id)
    ensures Safe(c, v)
  {
    hide RowOk, WorkersSafe, ObjectsSafe, KeysOk, BatchesSafe, KeysApart, Placed;
    forall id | id in v.db.tracks
      ensures TrackSafe(c, v, id)
    {
      assert TrackSafe(c, w, id);
      CollectedTrack(c, w, v, id);
    }
    assert KeysApart(v) by {
      ApartSame(w, v);
    }
  }

  lemma ApartSame(w: World, v: World)
    requires KeysApart(w) && v.workers == w.workers
    ensures KeysApart(v)
  {
  }

  lemma CollectedTrack(c: Config, w: World, v: World, id: TrackId)
    requires id in w.db.tracks && RowOk(c, w, id) && WorkersSafe(c, w, id) && ObjectsSafe(c, w, id) && KeysOk(w, id)
    requires v == w.(db := w.db.(garbage := v.db.garbage), objects := v.objects, collector := v.collector)
    requires v.db.garbage.Keys <= w.db.garbage.Keys
    requires forall k :: k in v.objects ==> k in w.objects && v.objects[k] == w.objects[k]
    requires forall k :: k in w.objects && k.track in w.db.tracks && k !in v.objects ==>
      k in w.db.garbage && !Uses(w.db.tracks[k.track], k)
    ensures RowOk(c, v, id) && WorkersSafe(c, v, id) && ObjectsSafe(c, v, id) && KeysOk(v, id)
  {
    hide IsRewrite, SnapshotOk, FileFormat, Tags.Embeddable;
    forall k | k in v.db.garbage
      ensures k in w.db.garbage
    {
      assert k in v.db.garbage.Keys;
    }
    assert RowOk(c, v, id);
    forall x | x in v.workers && v.workers[x].claim.track == id
      ensures WorkerSafe(c, v, v.workers[x])
    {
      assert WorkerSafe(c, w, w.workers[x]);
    }
    forall k | k in v.objects && k.track == id
      ensures ObjectSafe(c, v, k)
    {
      assert ObjectSafe(c, w, k);
    }
  }

  lemma CheckSafe(c: Config, w: World, batch: set<Key>)
    requires Safe(c, w) && forall k :: k in batch ==> k in w.db.garbage
    ensures Safe(c, w.(collector := Collecting(batch, set k | k in batch && !InUse(w.db.tracks, k))))
  {
    hide Safe, InUse;
    var doomed := set k | k in batch && !InUse(w.db.tracks, k);
    var v := w.(collector := Collecting(batch, doomed));
    ApartSafe(c, w);
    forall id | id in v.db.tracks
      ensures BatchesSafe(v, id)
    {
      forall k: Key | k.track == id
        ensures BatchSafe(v, k, v.db.tracks[id])
      {
        InUseIsOwn(c, w, k);
      }
    }
    CollectorSafe(c, w, v);
  }

  /** Removing an object that no track used when the batch was read, however
      much happened since. */
  lemma RemoveSafe(c: Config, w: World, key: Key)
    requires Safe(c, w) && w.collector.Collecting? && key in w.collector.doomed
    ensures Safe(c, w.(objects := w.objects - {key},
                       collector := Collecting(w.collector.batch, w.collector.doomed - {key})))
  {
    hide Safe, RowOk, WorkersSafe, ObjectsSafe, KeysOk;
    var v := w.(objects := w.objects - {key}, collector := Collecting(w.collector.batch, w.collector.doomed - {key}));
    ApartSafe(c, w);
    SafeParts(c, w, key.track);
    assert BatchSafe(w, key, w.db.tracks[key.track]);
    forall id | id in v.db.tracks
      ensures BatchesSafe(v, id)
    {
      SafeParts(c, w, id);
      forall k: Key | k.track == id
        ensures BatchSafe(v, k, v.db.tracks[id])
      {
        assert BatchSafe(w, k, w.db.tracks[id]);
      }
    }
    CollectorSafe(c, w, v);
  }

  lemma CommitSafe(c: Config, w: World, v: World)
    requires Safe(c, w) && v == w.(db := w.db.(garbage := v.db.garbage), collector := Idle)
    requires v.db.garbage.Keys <= w.db.garbage.Keys
    ensures Safe(c, v)
  {
    hide Safe;
    ApartSafe(c, w);
    forall k | k in v.db.garbage
      ensures k in w.db.garbage
    {
      assert k in v.db.garbage.Keys;
    }
    CollectorSafe(c, w, v);
  }

  // ----- Every checked step keeps the invariant -----

  lemma NoteStepSafe(c: Config, w: World, worker: WorkerId, answer: Answer)
    requires Safe(c, w) && worker in w.workers && w.workers[worker].phase.Verified?
    ensures Safe(c, DoNote(c, w, worker, answer))
  {
    hide IsRewrite, Tags.Embeddable, Tags.FormatOf, Safe, RowOk, ObjectSafe, Retry, SnapshotOk;
    var x, v := w.workers[worker], DoNote(c, w, worker, answer);
    SafeWorker(c, w, worker);
    RetryUploads(c, x.claim);
    if answer != LostBeforeCommit && StillWanted(w.db, x.claim) {
      NoteSafe(c, w, v, worker, v.workers[worker].phase);
    } else {
      PhaseStepSafe(c, w, worker, v.workers[worker].phase);
    }
  }

  lemma PutStepSafe(c: Config, w: World, worker: WorkerId, landed: bool, confirmed: bool)
    requires Safe(c, w) && worker in w.workers && w.workers[worker].phase.Noted? && (confirmed ==> landed)
    ensures Safe(c, DoPut(c, w, worker, landed, confirmed))
  {
    hide IsRewrite, Tags.Embeddable, Tags.FormatOf, Safe, RowOk, ObjectSafe, Retry, SnapshotOk;
    var v := DoPut(c, w, worker, landed, confirmed);
    SafeWorker(c, w, worker);
    RetryUploads(c, w.workers[worker].claim);
    if landed {
      PutSafe(c, w, v, worker, v.workers[worker].phase);
    } else {
      PhaseStepSafe(c, w, worker, v.workers[worker].phase);
    }
  }

  lemma SwapStepSafe(c: Config, w: World, worker: WorkerId, answer: Answer)
    requires Safe(c, w) && worker in w.workers && w.workers[worker].phase.Stored? && Checked(c, w, Swap(worker, answer))
    ensures Safe(c, DoSwap(c, w, worker, answer))
  {
    hide IsRewrite, Tags.Embeddable, Tags.FormatOf, Safe, RowOk, ObjectSafe, Retry, Used;
    var x, v := w.workers[worker], DoSwap(c, w, worker, answer);
    SafeWorker(c, w, worker);
    RetryUploads(c, x.claim);
    if answer == LostBeforeCommit {
      PhaseStepSafe(c, w, worker, v.workers[worker].phase);
    } else {
      var phase := if worker in v.workers then Some(v.workers[worker].phase) else None;
      match SwapOutcome(w.db, x.claim, |x.phase.file|, c.maxOwnerBytes)
      case NotFound => assert false;
      case Conflict => ConflictSafe(c, w, worker, phase);
      case OverQuota => OverQuotaSafe(c, w, worker, phase);
      case Swapped => SwappedSafe(c, w, worker, phase);
    }
  }

  lemma ClaimStepSafe(c: Config, w: World, worker: WorkerId, id: TrackId)
    requires Safe(c, w) && id in w.db.tracks && Claimable(w.db.tracks[id], w.now) && worker !in w.workers
    ensures Safe(c, DoClaim(c, w, worker, id))
  {
    hide Safe, Claimable;
    if w.db.tracks[id].attempts >= c.maxAttempts {
      ExhaustedSafe(c, w, id);
    } else {
      ClaimSafe(c, w, worker, id);
    }
  }

  /** However late a worker acts, and whosever lease a release clears. */
  lemma CheckedStepIsSafe(c: Config, w: World, s: Step)
    requires Safe(c, w) && Enabled(c, w, s) && Checked(c, w, s)
    ensures Safe(c, Apply(c, w, s))
  {
    hide Safe, DoNote, DoPut, DoSwap, DoClaim, GoodFile, NewUpload, SwapQueues, Claimable, Unlocked, FileFormat,
      Tags.Embeddable, Tags.FormatOf, AfterFail, AfterRelease, InUse, Retry, SwapOutcome;
    match s
    case Tick(to) => QuietSafe(c, w, w.(now := to));
    case Publish(id, row, data) => PublishSafe(c, w, id, row, data);
    case EditTrack(id, owner, expected, edit) =>
      if EditOutcome(w.db, owner, id, expected, edit).Edited? {
        EditSafe(c, w, Apply(c, w, s), id, edit);
      }
    case ClaimTrack(worker, id) => ClaimStepSafe(c, w, worker, id);
    case Rewrite(worker, file) => RewriteSafe(c, w, worker, file);
    case GiveUp(worker, failure) => RetryUploads(c, w.workers[worker].claim); GiveUpSafe(c, w, worker, failure);
    case Note(worker, answer) => NoteStepSafe(c, w, worker, answer);
    case Put(worker, landed, confirmed) => PutStepSafe(c, w, worker, landed, confirmed);
    case Swap(worker, answer) => SwapStepSafe(c, w, worker, answer);
    case RecordFailure(worker) => FailureSafe(c, w, worker);
    case Release(worker) => ReleaseSafe(c, w, worker);
    case Crash(worker) => QuietSafe(c, w, Without(w, worker));
    case CollectCheck(batch) => CheckSafe(c, w, batch);
    case CollectRemove(key) => RemoveSafe(c, w, key);
    case CollectCommit => CommitSafe(c, w, Apply(c, w, s));
    case CollectAbort => CommitSafe(c, w, Apply(c, w, s));
  }

  // ----- Whole runs -----

  /** A run of any speed, in which every swap that succeeds finds its key. */
  ghost predicate CheckedRun(c: Config, worlds: seq<World>, steps: seq<Step>) {
    && |worlds| == |steps| + 1 && Initial(c, worlds[0])
    && forall i :: 0 <= i < |steps| ==>
      Enabled(c, worlds[i], steps[i]) && Checked(c, worlds[i], steps[i]) && worlds[i + 1] == Apply(c, worlds[i], steps[i])
  }

  lemma CheckedRunSteps(c: Config, worlds: seq<World>, steps: seq<Step>, i: nat)
    requires CheckedRun(c, worlds, steps)
    ensures |worlds| == |steps| + 1 && Initial(c, worlds[0])
    ensures i < |steps| ==>
      Enabled(c, worlds[i], steps[i]) && Checked(c, worlds[i], steps[i]) && worlds[i + 1] == Apply(c, worlds[i], steps[i])
  {
    hide Initial, Enabled, Checked, Apply;
  }

  lemma {:induction false} CheckedRunIsSafe(c: Config, worlds: seq<World>, steps: seq<Step>, i: nat)
    requires CheckedRun(c, worlds, steps) && i < |worlds|
    ensures Safe(c, worlds[i])
  {
    hide Safe, Apply, Enabled, Checked, CheckedRun, Initial;
    if i == 0 {
      CheckedRunSteps(c, worlds, steps, 0);
      InitialSafe(c, worlds[0]);
    } else {
      CheckedRunIsSafe(c, worlds, steps, i - 1);
      CheckedRunSteps(c, worlds, steps, i - 1);
      CheckedStepIsSafe(c, worlds[i - 1], steps[i - 1]);
    }
  }

  lemma InitialSafe(c: Config, w: World)
    requires Initial(c, w)
    ensures Safe(c, w)
  {
    hide TrackSafe;
  }

  /** With the check alone, and no word about time or releases: the object a
      ready track names is in storage with the size the row records. */
  lemma NothingIsLostWhenChecked(c: Config, worlds: seq<World>, steps: seq<Step>, i: nat, id: TrackId)
    requires CheckedRun(c, worlds, steps) && i < |worlds| && id in worlds[i].db.tracks && worlds[i].db.tracks[id].ready
    ensures var row := worlds[i].db.tracks[id];
      row.storageKey in worlds[i].objects && row.size == |worlds[i].objects[row.storageKey]|
  {
    hide Safe, Apply, Enabled, Checked, CheckedRun, IsRewrite;
    CheckedRunIsSafe(c, worlds, steps, i);
    SafeParts(c, worlds[i], id);
  }

  /** And "written" is still true of it. */
  lemma WrittenIsTrueWhenChecked(c: Config, worlds: seq<World>, steps: seq<Step>, i: nat, id: TrackId)
    requires CheckedRun(c, worlds, steps) && i < |worlds| && id in worlds[i].db.tracks && worlds[i].db.tracks[id].status == Written
    ensures var w := worlds[i]; var row := w.db.tracks[id];
      && row.tagVersion == Some(row.version) && id in w.uploads && row.storageKey in w.objects
      && Tags.Rewrite(c.u, FileFormat(row), w.uploads[id], row.meta) == T.Ok(w.objects[row.storageKey])
      && Tags.Inspect(c.u, FileFormat(row), w.uploads[id]).Ok?
      && Tags.Inspect(c.u, FileFormat(row), w.objects[row.storageKey]) ==
         T.Ok(T.Info(row.meta, Tags.Inspect(c.u, FileFormat(row), w.uploads[id]).value.payload))
  {
    hide Safe, Apply, Enabled, Checked, CheckedRun, Tags.Rewrite, Tags.Inspect, Tags.Embeddable, Tags.Matches, FileFormat;
    CheckedRunIsSafe(c, worlds, steps, i);
    SafeParts(c, worlds[i], id);
  }

  // ----- The check refuses nobody who is in time -----

  lemma AllowedIsChecked(c: Config, w: World, s: Step)
    requires Inv(c, w) && Allowed(c, w, s)
    ensures Checked(c, w, s)
  {
    hide Inv, Apply, Foreign, SwapOutcome, SwapQueues, RowOk, SnapshotOk, IsRewrite, GoodFile, NewUpload, Claimable;
    if s.Swap? {
      HolderHolds(c, w, s.worker);
    }
  }

  /** Every run that meets the two conditions on time and releases is one whose
      swaps find their keys. */
  lemma RunIsChecked(c: Config, worlds: seq<World>, steps: seq<Step>)
    requires Run(c, worlds, steps)
    ensures CheckedRun(c, worlds, steps)
  {
    hide Inv, Apply, Initial, Allowed, Enabled, Checked;
    RunStarts(c, worlds, steps);
    forall i | 0 <= i < |steps|
      ensures Enabled(c, worlds[i], steps[i]) && Checked(c, worlds[i], steps[i]) && worlds[i + 1] == Apply(c, worlds[i], steps[i])
    {
      RunKeepsInv(c, worlds, steps, i);
      RunSteps(c, worlds, steps, i);
      AllowedIsChecked(c, worlds[i], steps[i]);
    }
  }
}

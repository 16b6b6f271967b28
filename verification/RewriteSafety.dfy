/** What every step of the tag-rewrite protocol keeps, and what follows for
    every run: the object a track names is in storage, holds what it should,
    and no upload is orphaned or its key reused. */
module RewriteSafety {
  import opened ByteOrder
  import opened Options
  import opened TrackTable
  import opened TagStore
  import opened RewriteProtocol
  import T = TagText
  import Tags

  // ----- The invariant, track by track -----

  predicate Uses(row: Row, key: Key) {
    row.storageKey == key || row.pendingKey == Some(key)
  }

  /** The claim a key was issued to came no later than the row's last one. */
  predicate NotAfter(key: Key, row: Row) {
    key.Revision? && (key.version < row.version || (key.version == row.version && key.attempt <= row.attempts))
  }

  /** data is the upload rewritten once with m, byte for byte, and passes the
      writer's checks: same audio, exactly m as metadata. */
  ghost predicate IsRewrite(c: Config, format: Tags.Format, upload: Bytes, m: T.Metadata, data: Bytes) {
    && Tags.Embeddable(format, m)
    && Tags.Rewrite(c.u, format, upload, m) == T.Ok(data)
    && Tags.Verified(c.u, format, upload, data, m)
  }

  ghost predicate RowOk(c: Config, w: World, id: TrackId)
    requires id in w.db.tracks
  {
    var row := w.db.tracks[id];
    && id in w.uploads
    && row.storageKey.track == id && (row.storageKey.Revision? ==> row.storageKey in w.issued)
    && (row.pendingKey.Some? ==> row.pendingKey.value.track == id && row.pendingKey.value in w.issued)
    && row.attempts <= c.maxAttempts
    && (row.ready ==> row.storageKey in w.objects && row.size == |w.objects[row.storageKey]|)
    && (row.status == Pending ==> Tags.Embeddable(FileFormat(row), row.meta))
    && (row.status == Written ==>
        && row.tagVersion == Some(row.version) && row.storageKey in w.objects
        && IsRewrite(c, FileFormat(row), w.uploads[id], row.meta, w.objects[row.storageKey]))
  }

  /** What a worker holding its lease can rely on. */
  predicate HolderOk(w: World, x: Worker, row: Row) {
    var key := RevisionKey(x.claim);
    && row.claimedUntil == Some(x.deadline)
    && key !in w.db.garbage
    && match x.phase
       case Noted(_) => row.pendingKey == Some(key) && key !in w.objects
       case Stored(file) => row.pendingKey == Some(key) && key in w.objects && w.objects[key] == file
       case Failing(f, _) =>
         if f.uploaded.Some? then row.pendingKey == Some(key)
         else (row.pendingKey == None || row.pendingKey == Some(key)) && key !in w.objects
       case _ => row.pendingKey == None && key !in w.objects
  }

  /** How a worker's copy of the row relates to the row. */
  predicate SnapshotOk(c: Config, claim: Claim, row: Row) {
    var seen := claim.row;
    && row.ready && seen.owner == row.owner && FileFormat(seen) == FileFormat(row)
    && seen.storageKey.track == claim.track && 1 <= seen.attempts <= c.maxAttempts
    && Tags.Embeddable(FileFormat(seen), seen.meta)
    && seen.version <= row.version
    && (seen.version == row.version ==> seen.meta == row.meta && (row.status == Pending ==> seen.storageKey == row.storageKey))
  }

  ghost predicate WorkerOk(c: Config, w: World, x: Worker)
    requires x.claim.track in w.db.tracks
  {
    var row := w.db.tracks[x.claim.track];
    && RevisionKey(x.claim) in w.issued
    && SnapshotOk(c, x.claim, row)
    && (HasFile(x.phase) ==>
        && x.claim.track in w.uploads
        && IsRewrite(c, FileFormat(row), w.uploads[x.claim.track], x.claim.row.meta, x.phase.file))
    && (x.phase.Failing? && x.phase.swapped ==> !StillWanted(w.db, x.claim))
    && (x.phase.Failing? && x.phase.failure.uploaded.Some? ==> x.phase.failure.uploaded.value == RevisionKey(x.claim))
    && (Holds(w, x) ==> HolderOk(w, x, row))
  }

  predicate Apart(w: World, x: Worker, y: Worker) {
    RevisionKey(x.claim) != RevisionKey(y.claim) && !(Holds(w, x) && Holds(w, y))
  }

  ghost predicate ObjectOk(c: Config, w: World, key: Key)
    requires key in w.objects && key.track in w.db.tracks
  {
    var row := w.db.tracks[key.track];
    && (Uses(row, key) || key in w.db.garbage)
    && key.track in w.uploads
    && (key.Revision? ==>
          && key in w.issued
          && exists m :: IsRewrite(c, FileFormat(row), w.uploads[key.track], m, w.objects[key]))
    && (key.Upload? ==> w.objects[key] == w.uploads[key.track])
  }

  predicate BatchOk(w: World, key: Key, row: Row) {
    w.collector.Collecting? && key in w.collector.batch ==>
      && key in w.db.garbage
      && (key in w.collector.doomed ==> !Uses(row, key))
      && (key !in w.collector.doomed ==> Uses(row, key) || key !in w.objects)
  }

  ghost predicate WorkersOk(c: Config, w: World, id: TrackId)
    requires id in w.db.tracks
  {
    forall x :: x in w.workers && w.workers[x].claim.track == id ==> WorkerOk(c, w, w.workers[x])
  }

  ghost predicate PairsOk(w: World, id: TrackId) {
    forall x, y ::
      x in w.workers && y in w.workers && x != y && w.workers[x].claim.track == id && w.workers[y].claim.track == id
      ==> Apart(w, w.workers[x], w.workers[y])
  }

  ghost predicate ObjectsOk(c: Config, w: World, id: TrackId)
    requires id in w.db.tracks
  {
    forall k :: k in w.objects && k.track == id ==> ObjectOk(c, w, k)
  }

  ghost predicate KeysOk(w: World, id: TrackId)
    requires id in w.db.tracks
  {
    && (forall k :: k in w.issued && k.track == id ==> NotAfter(k, w.db.tracks[id]))
    && (forall k :: k in w.db.garbage && k.track == id && k.Revision? ==> k in w.issued)
  }

  ghost predicate BatchesOk(w: World, id: TrackId)
    requires id in w.db.tracks
  {
    forall k: Key :: k.track == id ==> BatchOk(w, k, w.db.tracks[id])
  }

  ghost predicate TrackOk(c: Config, w: World, id: TrackId)
    requires id in w.db.tracks
  {
    RowOk(c, w, id) && WorkersOk(c, w, id) && PairsOk(w, id) && ObjectsOk(c, w, id) && KeysOk(w, id) && BatchesOk(w, id)
  }

  /** Nothing mentions a track that does not exist. */
  ghost predicate Placed(w: World) {
    && (forall x :: x in w.workers ==> w.workers[x].claim.track in w.db.tracks)
    && (forall k :: k in w.objects ==> k.track in w.db.tracks)
    && (forall k :: k in w.issued ==> k.track in w.db.tracks)
    && (forall k :: k in w.db.garbage ==> k.track in w.db.tracks)
    && (w.collector.Collecting? ==>
          && w.collector.doomed <= w.collector.batch
          && forall k :: k in w.collector.batch ==> k.track in w.db.tracks)
  }

  ghost predicate Inv(c: Config, w: World) {
    && c.u.Agrees()
    && Placed(w)
    && forall id :: id in w.db.tracks ==> TrackOk(c, w, id)
  }

  // ----- Steps that leave a track alone -----

  /** Everything the invariant of a track looks at is the same in both worlds,
      except that time may have passed and workers may be gone. */
  ghost predicate SameTrack(w: World, v: World, id: TrackId)
    requires id in w.db.tracks
  {
    && id in v.db.tracks && v.db.tracks[id] == w.db.tracks[id]
    && v.now >= w.now && v.collector == w.collector
    && (id in w.uploads <==> id in v.uploads) && (id in w.uploads ==> v.uploads[id] == w.uploads[id])
    && SameKeys(w, v, id)
    && (forall x :: x in v.workers && v.workers[x].claim.track == id ==> x in w.workers && w.workers[x] == v.workers[x])
  }

  ghost predicate SameKeys(w: World, v: World, id: TrackId) {
    forall k: Key :: k.track == id ==>
      && (k in v.objects <==> k in w.objects) && (k in w.objects ==> v.objects[k] == w.objects[k])
      && (k in v.issued <==> k in w.issued)
      && (k in v.db.garbage <==> k in w.db.garbage)
  }

  lemma Frame(c: Config, w: World, v: World, id: TrackId)
    requires id in w.db.tracks && TrackOk(c, w, id) && SameTrack(w, v, id)
    ensures TrackOk(c, v, id)
  {
    hide IsRewrite, SnapshotOk, Tags.Embeddable, FileFormat;
    assert RowOk(c, v, id);
    assert WorkersOk(c, v, id) by {
      forall x | x in v.workers && v.workers[x].claim.track == id
        ensures WorkerOk(c, v, v.workers[x])
      {
        assert WorkerOk(c, w, w.workers[x]);
        assert RevisionKey(v.workers[x].claim).track == id;
      }
    }
    assert ObjectsOk(c, v, id) by {
      forall k | k in v.objects && k.track == id
        ensures ObjectOk(c, v, k)
      {
        assert ObjectOk(c, w, k);
      }
    }
    assert BatchesOk(v, id) by {
      forall k: Key | k.track == id
        ensures BatchOk(v, k, v.db.tracks[id])
      {
        assert BatchOk(w, k, w.db.tracks[id]);
      }
    }
  }

  // ----- Steps that change one track -----

  /** v differs from w at track id only. */
  ghost predicate Touches(w: World, v: World, id: TrackId)
    requires id in w.db.tracks
  {
    && id in v.db.tracks && v.db.tracks == w.db.tracks[id := v.db.tracks[id]]
    && v.now == w.now && v.uploads == w.uploads && v.collector == w.collector
    && (forall other :: other != id ==> SameKeys(w, v, other))
    && (forall x :: x in v.workers && v.workers[x].claim.track != id ==> x in w.workers && w.workers[x] == v.workers[x])
  }

  lemma TouchesOne(c: Config, w: World, v: World, id: TrackId)
    requires Inv(c, w) && id in w.db.tracks && Touches(w, v, id) && TrackOk(c, v, id)
    ensures Inv(c, v)
  {
    hide TrackOk;
    forall other | other in v.db.tracks
      ensures TrackOk(c, v, other)
    {
      if other != id {
        Frame(c, w, v, other);
      }
    }
    assert Placed(v) by {
      TouchesPlaced(w, v, id);
    }
  }

  lemma TouchesPlaced(w: World, v: World, id: TrackId)
    requires id in w.db.tracks && Placed(w) && Touches(w, v, id)
    ensures Placed(v)
  {
    forall k: Key
      ensures k in v.objects || k in v.issued || k in v.db.garbage ==> k.track in v.db.tracks
    {
      if k.track != id {
        assert SameKeys(w, v, k.track);
      }
    }
  }

  /** Rows only ever change like this. */
  predicate Descends(row: Row, next: Row) {
    && next.ready == row.ready && next.owner == row.owner && FileFormat(next) == FileFormat(row)
    && row.version <= next.version
    && (row.version == next.version ==>
        && row.attempts <= next.attempts && next.meta == row.meta
        && (next.status == Pending ==> row.status == Pending && next.storageKey == row.storageKey))
  }

  /** Workers whose own state did not change. */
  lemma WorkerKeeps(c: Config, w: World, v: World, x: Worker)
    requires x.claim.track in w.db.tracks && Touches(w, v, x.claim.track) && WorkerOk(c, w, x)
    requires var id := x.claim.track; Descends(w.db.tracks[id], v.db.tracks[id])
    requires RevisionKey(x.claim) in v.issued
    requires Holds(v, x) ==> HolderOk(v, x, v.db.tracks[x.claim.track])
    ensures WorkerOk(c, v, x)
  {
    hide IsRewrite, Tags.Embeddable, FileFormat, HolderOk;
  }

  /** The other objects of a track stay reachable. */
  lemma ObjectKeeps(c: Config, w: World, v: World, key: Key)
    requires key.track in w.db.tracks && Touches(w, v, key.track)
    requires Descends(w.db.tracks[key.track], v.db.tracks[key.track])
    requires key in w.objects && key in v.objects && w.objects[key] == v.objects[key] && ObjectOk(c, w, key)
    requires key in w.issued ==> key in v.issued
    requires key in w.db.garbage || Uses(w.db.tracks[key.track], key) ==>
      key in v.db.garbage || Uses(v.db.tracks[key.track], key)
    ensures ObjectOk(c, v, key)
  {
    hide IsRewrite, FileFormat;
  }

  /** All workers on the track but one are as they were. */
  ghost predicate OthersSame(w: World, v: World, id: TrackId, worker: Option<WorkerId>) {
    forall x :: x in v.workers && v.workers[x].claim.track == id && Some(x) != worker ==>
      x in w.workers && w.workers[x] == v.workers[x]
  }

  lemma WorkersStep(c: Config, w: World, v: World, id: TrackId, worker: Option<WorkerId>)
    requires id in w.db.tracks && Touches(w, v, id) && WorkersOk(c, w, id)
    requires Descends(w.db.tracks[id], v.db.tracks[id]) && OthersSame(w, v, id, worker)
    requires forall k :: k in w.issued ==> k in v.issued
    requires forall x :: x in v.workers && v.workers[x].claim.track == id && Some(x) != worker && Holds(v, v.workers[x]) ==>
      HolderOk(v, v.workers[x], v.db.tracks[id])
    requires worker.Some? && worker.value in v.workers && v.workers[worker.value].claim.track == id ==>
      WorkerOk(c, v, v.workers[worker.value])
    ensures WorkersOk(c, v, id)
  {
    hide WorkerOk, HolderOk, Descends, Holds;
    forall x | x in v.workers && v.workers[x].claim.track == id
      ensures WorkerOk(c, v, v.workers[x])
    {
      if Some(x) != worker {
        WorkerOkNamed(c, w, v.workers[x]);
        WorkerKeeps(c, w, v, v.workers[x]);
      }
    }
  }

  lemma WorkerOkNamed(c: Config, w: World, x: Worker)
    requires x.claim.track in w.db.tracks && WorkerOk(c, w, x)
    ensures RevisionKey(x.claim) in w.issued
  {
  }

  lemma PairsStep(w: World, v: World, id: TrackId, worker: Option<WorkerId>)
    requires PairsOk(w, id) && v.now == w.now && OthersSame(w, v, id, worker)
    requires worker.Some? && worker.value in v.workers && v.workers[worker.value].claim.track == id ==>
      && worker.value in w.workers && w.workers[worker.value].claim == v.workers[worker.value].claim
      && (Holds(v, v.workers[worker.value]) ==> Holds(w, w.workers[worker.value]))
    ensures PairsOk(v, id)
  {
    forall x, y | x in v.workers && y in v.workers && x != y && v.workers[x].claim.track == id &&
        v.workers[y].claim.track == id
      ensures Apart(v, v.workers[x], v.workers[y])
    {
      assert Apart(w, w.workers[x], w.workers[y]);
    }
  }

  lemma ObjectsStep(c: Config, w: World, v: World, id: TrackId)
    requires id in w.db.tracks && Touches(w, v, id) && ObjectsOk(c, w, id)
    requires Descends(w.db.tracks[id], v.db.tracks[id])
    requires forall k :: k in w.issued ==> k in v.issued
    requires forall k :: k in v.objects && k.track == id ==>
      ObjectOk(c, v, k) || (k in w.objects && w.objects[k] == v.objects[k])
    requires forall k :: k in w.objects && k.track == id && (k in w.db.garbage || Uses(w.db.tracks[id], k)) ==>
      k in v.db.garbage || Uses(v.db.tracks[id], k)
    ensures ObjectsOk(c, v, id)
  {
    hide ObjectOk, Descends;
    forall k | k in v.objects && k.track == id
      ensures ObjectOk(c, v, k)
    {
      if !ObjectOk(c, v, k) {
        assert ObjectOk(c, w, k);
        ObjectKeeps(c, w, v, k);
      }
    }
  }

  lemma KeysStep(w: World, v: World, id: TrackId)
    requires id in w.db.tracks && Touches(w, v, id) && KeysOk(w, id)
    requires Descends(w.db.tracks[id], v.db.tracks[id])
    requires forall k :: k in v.issued && k.track == id && k !in w.issued ==> NotAfter(k, v.db.tracks[id])
    requires forall k :: k in w.issued ==> k in v.issued
    requires forall k :: k in v.db.garbage && k.track == id && k.Revision? && k !in w.db.garbage ==> k in v.issued
    ensures KeysOk(v, id)
  {
    hide FileFormat;
    forall k | k in v.issued && k.track == id
      ensures NotAfter(k, v.db.tracks[id])
    {
      if k in w.issued {
        assert NotAfter(k, w.db.tracks[id]);
      }
    }
  }

  lemma BatchesStep(w: World, v: World, id: TrackId)
    requires id in w.db.tracks && Touches(w, v, id) && BatchesOk(w, id)
    requires forall k :: k in w.db.garbage && k.track == id ==> k in v.db.garbage
    requires forall k :: k in w.db.garbage && k.track == id && Uses(v.db.tracks[id], k) ==> Uses(w.db.tracks[id], k)
    requires forall k :: k in w.db.garbage && k.track == id && k in v.objects ==> k in w.objects
    requires forall k :: k in w.objects && k.track == id && Uses(w.db.tracks[id], k) && !Uses(v.db.tracks[id], k) ==>
      Unlocked(w, k)
    ensures BatchesOk(v, id)
  {
    forall k: Key | k.track == id
      ensures BatchOk(v, k, v.db.tracks[id])
    {
      assert BatchOk(w, k, w.db.tracks[id]);
    }
  }

  lemma Alone(c: Config, w: World, x: WorkerId, y: WorkerId)
    requires Inv(c, w) && x in w.workers && y in w.workers && x != y && Holds(w, w.workers[x])
    requires w.workers[x].claim.track == w.workers[y].claim.track
    ensures !Holds(w, w.workers[y])
  {
    hide RowOk, WorkersOk, ObjectsOk, KeysOk, BatchesOk, SnapshotOk, Holds;
    assert TrackOk(c, w, w.workers[x].claim.track);
    assert Apart(w, w.workers[x], w.workers[y]);
  }

  /** What a step does to the keys of a track: nothing leaves the queue, and
      what the row stops using was queued and not locked. */
  ghost predicate KeysMove(w: World, v: World, id: TrackId)
    requires id in w.db.tracks && id in v.db.tracks
  {
    var row, next := w.db.tracks[id], v.db.tracks[id];
    && (forall k :: k in w.issued ==> k in v.issued)
    && (forall k :: k in v.issued && k !in w.issued && k.track == id ==> NotAfter(k, next))
    && (forall k :: k in w.db.garbage && k.track == id ==> k in v.db.garbage && (Uses(next, k) ==> Uses(row, k)))
    && (forall k :: k in v.db.garbage && k.track == id && k !in w.db.garbage && k.Revision? ==> k in v.issued)
    && (forall k :: k in w.objects && k.track == id && Uses(row, k) && !Uses(next, k) ==> Unlocked(w, k) && k in v.db.garbage)
  }

  /** A step that changes one row, seen part by part. */
  lemma RowStep(c: Config, w: World, v: World, id: TrackId, worker: Option<WorkerId>)
    requires Inv(c, w) && id in w.db.tracks && Touches(w, v, id) && KeysMove(w, v, id)
    requires Descends(w.db.tracks[id], v.db.tracks[id]) && RowOk(c, v, id)
    requires OthersSame(w, v, id, worker) && PairsOk(v, id)
    requires forall x :: x in v.workers && v.workers[x].claim.track == id && Some(x) != worker && Holds(v, v.workers[x]) ==>
      HolderOk(v, v.workers[x], v.db.tracks[id])
    requires worker.Some? && worker.value in v.workers && v.workers[worker.value].claim.track == id ==>
      WorkerOk(c, v, v.workers[worker.value])
    requires forall k :: k in v.objects && k.track == id ==>
      (k in w.objects && w.objects[k] == v.objects[k]) || (ObjectOk(c, v, k) && k !in w.db.garbage)
    ensures Inv(c, v)
  {
    hide WorkerOk, ObjectOk, HolderOk, Descends, RowOk, Holds, PairsOk, Uses, NotAfter, Unlocked;
    assert TrackOk(c, w, id);
    WorkersStep(c, w, v, id, worker);
    ObjectsStep(c, w, v, id);
    KeysStep(w, v, id);
    BatchesStep(w, v, id);
    TouchesOne(c, w, v, id);
  }

  /** A step of a worker that holds its lease: nobody else does. */
  lemma HolderStep(c: Config, w: World, v: World, worker: WorkerId)
    requires Inv(c, w) && worker in w.workers && Holds(w, w.workers[worker])
    requires var id := w.workers[worker].claim.track;
      && id in w.db.tracks && Touches(w, v, id) && KeysMove(w, v, id)
      && Descends(w.db.tracks[id], v.db.tracks[id]) && RowOk(c, v, id)
      && OthersSame(w, v, id, Some(worker))
      && forall k :: k in v.objects && k.track == id ==>
        (k in w.objects && w.objects[k] == v.objects[k]) || (ObjectOk(c, v, k) && k !in w.db.garbage)
    requires worker in v.workers ==>
      v.workers[worker].claim == w.workers[worker].claim && WorkerOk(c, v, v.workers[worker])
    ensures Inv(c, v)
  {
    hide WorkerOk, ObjectOk, HolderOk, Descends, RowOk, KeysMove;
    var id := w.workers[worker].claim.track;
    assert PairsOk(w, id) by {
      assert TrackOk(c, w, id);
    }
    PairsStep(w, v, id, Some(worker));
    forall x | x in v.workers && v.workers[x].claim.track == id && Some(x) != Some(worker)
      ensures !Holds(v, v.workers[x])
    {
      Alone(c, w, worker, x);
    }
    RowStep(c, w, v, id, Some(worker));
  }

  // ----- One lemma for each kind of step -----

  lemma EditKeeps(c: Config, w: World, v: World, id: TrackId, edit: Edit)
    requires Inv(c, w) && id in w.db.tracks && EditStatus(edit.status)
    requires Tags.FormatOf(edit.fileName) == FileFormat(w.db.tracks[id])
    requires Tags.Embeddable(Tags.FormatOf(edit.fileName), edit.meta)
    requires v == w.(db := w.db.(tracks := w.db.tracks[id := ApplyEdit(w.db.tracks[id], edit)]))
    ensures Inv(c, v)
  {
    hide IsRewrite, Tags.Embeddable, Tags.FormatOf, Inv, WorkerOk, ObjectOk, HolderOk;
    TrackParts(c, w, id);
    PairsStep(w, v, id, None);
    forall x | x in v.workers && v.workers[x].claim.track == id && Holds(v, v.workers[x])
      ensures HolderOk(v, v.workers[x], v.db.tracks[id])
    {
      HolderHolds(c, w, x);
      EditKeepsHolder(w, v, w.workers[x], edit);
    }
    RowStep(c, w, v, id, None);
  }

  /** An edit leaves the lease and the recorded key alone. */
  lemma EditKeepsHolder(w: World, v: World, x: Worker, edit: Edit)
    requires x.claim.track in w.db.tracks && HolderOk(w, x, w.db.tracks[x.claim.track])
    requires v.db.garbage == w.db.garbage && v.objects == w.objects
    ensures HolderOk(v, x, ApplyEdit(w.db.tracks[x.claim.track], edit))
  {
  }

  lemma HolderHolds(c: Config, w: World, x: WorkerId)
    requires Inv(c, w) && x in w.workers && Holds(w, w.workers[x])
    ensures w.workers[x].claim.track in w.db.tracks
    ensures HolderOk(w, w.workers[x], w.db.tracks[w.workers[x].claim.track])
  {
    hide RowOk, PairsOk, ObjectsOk, KeysOk, BatchesOk, SnapshotOk, HolderOk, IsRewrite;
    assert TrackOk(c, w, w.workers[x].claim.track);
  }

  /** The worker only moved on to another phase. */
  lemma PhaseKeeps(c: Config, w: World, worker: WorkerId, phase: Phase)
    requires Inv(c, w) && worker in w.workers
    requires var x := w.workers[worker]; var y := x.(phase := phase);
      && x.claim.track in w.db.tracks && WorkerOk(c, WithPhase(w, worker, phase), y)
      && (Holds(w, y) ==> Holds(w, x))
    ensures Inv(c, WithPhase(w, worker, phase))
  {
    hide WorkerOk, ObjectOk, HolderOk, RowOk, ObjectsOk, WorkersOk, KeysOk, BatchesOk, PairsOk, Touches, KeysMove, Descends;
    var v, id := WithPhase(w, worker, phase), w.workers[worker].claim.track;
    assert TrackOk(c, w, id);
    PairsStep(w, v, id, Some(worker));
    RowOkSame(c, w, v, id);
    NothingMoves(w, v, id, worker);
    forall x | x in v.workers && v.workers[x].claim.track == id && Some(x) != Some(worker) && Holds(v, v.workers[x])
      ensures HolderOk(v, v.workers[x], v.db.tracks[id])
    {
      HolderHolds(c, w, x);
      HolderSame(w, v, v.workers[x], v.db.tracks[id]);
    }
    RowStep(c, w, v, id, Some(worker));
  }

  lemma NothingMoves(w: World, v: World, id: TrackId, worker: WorkerId)
    requires worker in w.workers && w.workers[worker].claim.track == id && id in w.db.tracks
    requires v == w.(workers := v.workers)
    requires worker in v.workers && v.workers[worker].claim == w.workers[worker].claim
    requires forall x :: x in v.workers && x != worker ==> x in w.workers && w.workers[x] == v.workers[x]
    ensures Touches(w, v, id) && KeysMove(w, v, id) && Descends(w.db.tracks[id], v.db.tracks[id])
  {
  }

  lemma HolderSame(w: World, v: World, x: Worker, row: Row)
    requires v.db == w.db && v.objects == w.objects && HolderOk(w, x, row)
    ensures HolderOk(v, x, row)
  {
  }

  lemma RowOkSame(c: Config, w: World, v: World, id: TrackId)
    requires id in w.db.tracks && RowOk(c, w, id)
    requires v.db == w.db && v.objects == w.objects && v.uploads == w.uploads && v.issued == w.issued
    ensures RowOk(c, v, id)
  {
    hide IsRewrite;
  }

  lemma WorkerFacts(c: Config, w: World, worker: WorkerId)
    requires Inv(c, w) && worker in w.workers
    ensures w.workers[worker].claim.track in w.db.tracks && WorkerOk(c, w, w.workers[worker])
    ensures RowOk(c, w, w.workers[worker].claim.track)
  {
    hide WorkerOk, RowOk, ObjectOk;
    assert TrackOk(c, w, w.workers[worker].claim.track);
  }

  lemma RewriteKeeps(c: Config, w: World, worker: WorkerId, file: Bytes)
    requires Inv(c, w) && worker in w.workers && w.workers[worker].phase == Leased
    requires GoodFile(c, w, w.workers[worker].claim, file)
    ensures Inv(c, WithPhase(w, worker, Verified(file)))
  {
    hide IsRewrite, Tags.Embeddable, Tags.FormatOf, Inv, RowOk, ObjectOk, GoodFile;
    var x := w.workers[worker];
    WorkerFacts(c, w, worker);
    SourceIsFaithful(c, w, x.claim, file);
    PhaseKeeps(c, w, worker, Verified(file));
  }

  /** Rewriting whatever a claim names, upload or earlier rewrite, amounts to
      rewriting the upload. */
  lemma SourceIsFaithful(c: Config, w: World, claim: Claim, file: Bytes)
    requires Inv(c, w) && claim.track in w.db.tracks && SnapshotOk(c, claim, w.db.tracks[claim.track])
    requires GoodFile(c, w, claim, file)
    ensures claim.track in w.uploads
    ensures IsRewrite(c, FileFormat(w.db.tracks[claim.track]), w.uploads[claim.track], claim.row.meta, file)
  {
    hide Tags.Embeddable, Tags.FormatOf, Tags.Rewrite, Tags.Verified, RowOk, WorkersOk, PairsOk, KeysOk, BatchesOk;
    var key, row := claim.row.storageKey, w.db.tracks[claim.track];
    assert TrackOk(c, w, claim.track);
    assert ObjectOk(c, w, key);
    if key.Revision? {
      var m :| IsRewrite(c, FileFormat(row), w.uploads[claim.track], m, w.objects[key]);
      RewriteOfRewrite(c, FileFormat(row), w.uploads[claim.track], m, w.objects[key], claim.row.meta, file);
    }
  }

  lemma RewriteOfRewrite(c: Config, format: Tags.Format, upload: Bytes, m: T.Metadata, source: Bytes, next: T.Metadata, file: Bytes)
    requires c.u.Agrees() && IsRewrite(c, format, upload, m, source) && Tags.Embeddable(format, next)
    requires Tags.Rewrite(c.u, format, source, next) == T.Ok(file) && Tags.Verified(c.u, format, source, file, next)
    ensures IsRewrite(c, format, upload, next, file)
  {
    hide Tags.Embeddable, Tags.Rewrite, Tags.Inspect, Tags.Matches;
    Tags.ComposeVerified(c.u, format, upload, source, m, next);
  }

  lemma GiveUpKeeps(c: Config, w: World, worker: WorkerId, failure: Failure)
    requires Inv(c, w) && worker in w.workers && w.workers[worker].phase == Leased && failure.uploaded == None
    ensures Inv(c, WithPhase(w, worker, Failing(failure, false)))
  {
    hide IsRewrite, Tags.Embeddable, Tags.FormatOf, Inv, RowOk;
    WorkerFacts(c, w, worker);
    PhaseKeeps(c, w, worker, Failing(failure, false));
  }

  /** The key is recorded before anything is uploaded under it. */
  lemma NoteKeeps(c: Config, w: World, v: World, worker: WorkerId, phase: Phase)
    requires Inv(c, w) && worker in w.workers && w.workers[worker].phase.Verified?
    requires var x := w.workers[worker];
      && w.now <= x.deadline && StillWanted(w.db, x.claim)
      && v == WithPhase(w.(db := AfterRecord(w.db, x.claim, RevisionKey(x.claim))), worker, phase)
      && (phase == Noted(x.phase.file) || (phase.Failing? && !phase.swapped && phase.failure.uploaded == None))
    ensures Inv(c, v)
  {
    hide IsRewrite, Tags.Embeddable, Tags.FormatOf, Inv, ObjectOk;
    var x := w.workers[worker];
    WorkerFacts(c, w, worker);
    HolderStep(c, w, v, worker);
  }

  lemma PutKeeps(c: Config, w: World, v: World, worker: WorkerId, phase: Phase)
    requires Inv(c, w) && worker in w.workers && w.workers[worker].phase.Noted?
    requires var x := w.workers[worker];
      && w.now <= x.deadline
      && v == WithPhase(w.(objects := w.objects[RevisionKey(x.claim) := x.phase.file]), worker, phase)
      && (phase == Stored(x.phase.file) ||
          (phase.Failing? && !phase.swapped && phase.failure.uploaded == Some(RevisionKey(x.claim))))
    ensures Inv(c, v)
  {
    hide IsRewrite, Tags.Embeddable, Tags.FormatOf, Inv;
    var x := w.workers[worker];
    var key := RevisionKey(x.claim);
    WorkerFacts(c, w, worker);
    assert IsRewrite(c, FileFormat(v.db.tracks[key.track]), v.uploads[key.track], x.claim.row.meta, x.phase.file);
    assert ObjectOk(c, v, key);
    assert RowOk(c, v, x.claim.track);
    assert WorkerOk(c, v, v.workers[worker]);
    hide RowOk, WorkerOk, ObjectOk;
    HolderStep(c, w, v, worker);
  }

  lemma ReleaseKeeps(c: Config, w: World, worker: WorkerId)
    requires Inv(c, w) && worker in w.workers && w.workers[worker].phase.Superseded?
    requires !Foreign(w, Release(worker))
    ensures Inv(c, Without(w.(db := AfterRelease(w.db, w.workers[worker].claim.track)), worker))
  {
    hide IsRewrite, Tags.Embeddable, Tags.FormatOf, Inv, ObjectOk, WorkerOk;
    var id := w.workers[worker].claim.track;
    var v := Without(w.(db := AfterRelease(w.db, id)), worker);
    WorkerFacts(c, w, worker);
    TrackParts(c, w, id);
    PairsStep(w, v, id, Some(worker));
    RowStep(c, w, v, id, Some(worker));
  }

  lemma TrackParts(c: Config, w: World, id: TrackId)
    requires Inv(c, w) && id in w.db.tracks
    ensures RowOk(c, w, id) && WorkersOk(c, w, id) && PairsOk(w, id)
    ensures ObjectsOk(c, w, id) && KeysOk(w, id) && BatchesOk(w, id)
  {
    hide RowOk, WorkersOk, PairsOk, ObjectsOk, KeysOk, BatchesOk;
    assert TrackOk(c, w, id);
  }

  /** What becomes of a worker once its swap transaction has committed. */
  function Ended(w: World, worker: WorkerId, phase: Option<Phase>): World
    requires worker in w.workers
  {
    if phase.None? then Without(w, worker) else WithPhase(w, worker, phase.value)
  }

  predicate EndPhase(phase: Option<Phase>, key: Key) {
    phase.Some? ==>
      || (phase.value.Superseded? && phase.value.swapped)
      || (phase.value.Failing? && phase.value.swapped && phase.value.failure.uploaded == Some(key))
  }

  /** A transaction that writes one row and queues one of its keys. */
  lemma RowTouches(w: World, v: World, id: TrackId, key: Key, worker: WorkerId, phase: Option<Phase>)
    requires worker in w.workers && w.workers[worker].claim.track == id && id in w.db.tracks && key.track == id
    requires v == w.(db := v.db, workers := Ended(w, worker, phase).workers)
    requires id in v.db.tracks && v.db.tracks == w.db.tracks[id := v.db.tracks[id]]
    requires forall k :: k != key ==> (k in v.db.garbage <==> k in w.db.garbage)
    ensures Touches(w, v, id) && OthersSame(w, v, id, Some(worker))
  {
  }

  function SwapQueued(w: World, x: Worker, outcome: Outcome): Key
    requires x.claim.track in w.db.tracks
  {
    if outcome == Swapped then w.db.tracks[x.claim.track].storageKey else RevisionKey(x.claim)
  }

  lemma SwapWrites(w: World, x: Worker, size: nat, grace: nat, outcome: Outcome)
    requires x.claim.track in w.db.tracks && outcome != NotFound
    ensures var id := x.claim.track; var row := w.db.tracks[id];
      var db := AfterSwap(w.db, x.claim, RevisionKey(x.claim), size, grace, w.now, outcome);
      && id in db.tracks && db.tracks == w.db.tracks[id := db.tracks[id]]
      && db.garbage.Keys == w.db.garbage.Keys + {SwapQueued(w, x, outcome)}
      && Descends(row, db.tracks[id])
  {
    hide Tags.FormatOf;
  }

  lemma SwapTouches(w: World, worker: WorkerId, phase: Option<Phase>, size: nat, grace: nat, outcome: Outcome)
    requires worker in w.workers && w.workers[worker].claim.track in w.db.tracks && outcome != NotFound
    requires w.db.tracks[w.workers[worker].claim.track].storageKey.track == w.workers[worker].claim.track
    ensures var x := w.workers[worker]; var id := x.claim.track;
      var v := Ended(w.(db := AfterSwap(w.db, x.claim, RevisionKey(x.claim), size, grace, w.now, outcome)), worker, phase);
      && Touches(w, v, id) && Descends(w.db.tracks[id], v.db.tracks[id]) && OthersSame(w, v, id, Some(worker))
      && v.db.garbage.Keys == w.db.garbage.Keys + {SwapQueued(w, x, outcome)}
  {
    var x, id := w.workers[worker], w.workers[worker].claim.track;
    var db := AfterSwap(w.db, x.claim, RevisionKey(x.claim), size, grace, w.now, outcome);
    SwapWrites(w, x, size, grace, outcome);
    hide Touches, OthersSame, Descends, AfterSwap;
    var q := SwapQueued(w, x, outcome);
    forall k | k != q
      ensures k in db.garbage <==> k in w.db.garbage
    {
      assert k in db.garbage.Keys <==> k in w.db.garbage.Keys;
    }
    RowTouches(w, Ended(w.(db := db), worker, phase), id, q, worker, phase);
  }

  /** What the row stops using is the queued key, which is not locked. */
  lemma RowMovesKeys(w: World, v: World, id: TrackId, q: Key)
    requires id in w.db.tracks && id in v.db.tracks && v.issued == w.issued && v.objects == w.objects
    requires v.db.garbage.Keys == w.db.garbage.Keys + {q} && (q.Revision? ==> q in w.issued)
    requires forall k :: Uses(v.db.tracks[id], k) ==> Uses(w.db.tracks[id], k)
    requires forall k :: Uses(w.db.tracks[id], k) && !Uses(v.db.tracks[id], k) ==> k == q && Unlocked(w, k)
    ensures KeysMove(w, v, id)
  {
    hide Uses, Unlocked;
    forall k
      ensures k in v.db.garbage <==> k in w.db.garbage || k == q
    {
      assert k in v.db.garbage.Keys <==> k in w.db.garbage.Keys || k == q;
    }
  }

  lemma ConflictKeeps(c: Config, w: World, worker: WorkerId, phase: Option<Phase>)
    requires Inv(c, w) && worker in w.workers && w.workers[worker].phase.Stored?
    requires var x := w.workers[worker];
      w.now <= x.deadline && Unlocked(w, RevisionKey(x.claim)) && EndPhase(phase, RevisionKey(x.claim)) &&
      x.claim.track in w.db.tracks
    requires var x := w.workers[worker]; var row := w.db.tracks[x.claim.track];
      row.version != x.claim.row.version || row.storageKey != x.claim.row.storageKey || row.status != Pending
    ensures var x := w.workers[worker];
      Inv(c, Ended(w.(db := AfterSwap(w.db, x.claim, RevisionKey(x.claim), 0, 0, w.now, Conflict)), worker, phase))
  {
    hide IsRewrite, Tags.Embeddable, Tags.FormatOf, Inv, ObjectOk;
    var x := w.workers[worker];
    var v := Ended(w.(db := AfterSwap(w.db, x.claim, RevisionKey(x.claim), 0, 0, w.now, Conflict)), worker, phase);
    WorkerFacts(c, w, worker);
    SwapTouches(w, worker, phase, 0, 0, Conflict);
    RowMovesKeys(w, v, x.claim.track, SwapQueued(w, x, Conflict));
    assert RowOk(c, v, x.claim.track);
    assert worker in v.workers ==> WorkerOk(c, v, v.workers[worker]);
    hide RowOk, WorkerOk, Touches, KeysMove, Descends;
    HolderStep(c, w, v, worker);
  }

  lemma OverQuotaKeeps(c: Config, w: World, worker: WorkerId, phase: Option<Phase>)
    requires Inv(c, w) && worker in w.workers && w.workers[worker].phase.Stored?
    requires var x := w.workers[worker];
      w.now <= x.deadline && Unlocked(w, RevisionKey(x.claim)) && EndPhase(phase, RevisionKey(x.claim)) &&
      x.claim.track in w.db.tracks
    ensures var x := w.workers[worker];
      Inv(c, Ended(w.(db := AfterSwap(w.db, x.claim, RevisionKey(x.claim), 0, 0, w.now, OverQuota)), worker, phase))
  {
    hide IsRewrite, Tags.Embeddable, Tags.FormatOf, Inv, ObjectOk;
    var x := w.workers[worker];
    var v := Ended(w.(db := AfterSwap(w.db, x.claim, RevisionKey(x.claim), 0, 0, w.now, OverQuota)), worker, phase);
    WorkerFacts(c, w, worker);
    SwapTouches(w, worker, phase, 0, 0, OverQuota);
    RowMovesKeys(w, v, x.claim.track, SwapQueued(w, x, OverQuota));
    assert RowOk(c, v, x.claim.track);
    assert worker in v.workers ==> WorkerOk(c, v, v.workers[worker]);
    hide RowOk, WorkerOk, Touches, KeysMove, Descends;
    HolderStep(c, w, v, worker);
  }

  /** The object taken away from the track is queued, the one installed is not. */
  lemma SwappedKeeps(c: Config, w: World, worker: WorkerId, phase: Option<Phase>)
    requires Inv(c, w) && worker in w.workers && w.workers[worker].phase.Stored?
    requires var x := w.workers[worker];
      w.now <= x.deadline && x.claim.track in w.db.tracks && EndPhase(phase, RevisionKey(x.claim))
    requires var x := w.workers[worker]; var row := w.db.tracks[x.claim.track];
      && Unlocked(w, row.storageKey)
      && row.version == x.claim.row.version && row.storageKey == x.claim.row.storageKey && row.status == Pending
    ensures var x := w.workers[worker]; var size := |x.phase.file|;
      Inv(c, Ended(w.(db := AfterSwap(w.db, x.claim, RevisionKey(x.claim), size, c.grace, w.now, Swapped)), worker, phase))
  {
    hide IsRewrite, Tags.Embeddable, Tags.FormatOf, Inv, ObjectOk;
    var x := w.workers[worker];
    var size := |x.phase.file|;
    var v := Ended(w.(db := AfterSwap(w.db, x.claim, RevisionKey(x.claim), size, c.grace, w.now, Swapped)), worker, phase);
    WorkerFacts(c, w, worker);
    SwapTouches(w, worker, phase, size, c.grace, Swapped);
    RowMovesKeys(w, v, x.claim.track, SwapQueued(w, x, Swapped));
    assert RowOk(c, v, x.claim.track);
    assert worker in v.workers ==> WorkerOk(c, v, v.workers[worker]);
    hide RowOk, WorkerOk, Touches, KeysMove, Descends;
    HolderStep(c, w, v, worker);
  }

  lemma FailureKeeps(c: Config, w: World, worker: WorkerId)
    requires Inv(c, w) && worker in w.workers && w.workers[worker].phase.Failing?
    requires var x := w.workers[worker];
      && w.now <= x.deadline
      && (x.phase.failure.uploaded.Some? ==> Unlocked(w, x.phase.failure.uploaded.value))
    ensures var x := w.workers[worker];
      Inv(c, Without(w.(db := AfterFail(w.db, x.claim, x.phase.failure, w.now)), worker))
  {
    hide IsRewrite, Tags.Embeddable, Tags.FormatOf, Inv, ObjectOk;
    var x := w.workers[worker];
    var v := Without(w.(db := AfterFail(w.db, x.claim, x.phase.failure, w.now)), worker);
    WorkerFacts(c, w, worker);
    if x.phase.swapped {
      StaleFailureKeeps(c, w, v, worker);
    } else {
      HolderStep(c, w, v, worker);
    }
  }

  /** After a swap that was not heard of, the failure only queues the key. */
  lemma StaleFailureKeeps(c: Config, w: World, v: World, worker: WorkerId)
    requires Inv(c, w) && worker in w.workers && w.workers[worker].phase.Failing? && w.workers[worker].phase.swapped
    requires var x := w.workers[worker];
      && (x.phase.failure.uploaded.Some? ==> Unlocked(w, x.phase.failure.uploaded.value))
      && v == Without(w.(db := AfterFail(w.db, x.claim, x.phase.failure, w.now)), worker)
    ensures Inv(c, v)
  {
    hide IsRewrite, Tags.Embeddable, Tags.FormatOf, Inv, ObjectOk;
    var x := w.workers[worker];
    var id := x.claim.track;
    WorkerFacts(c, w, worker);
    TrackParts(c, w, id);
    PairsStep(w, v, id, Some(worker));
    forall y | y in v.workers && v.workers[y].claim.track == id && Some(y) != Some(worker) && Holds(v, v.workers[y])
      ensures HolderOk(v, v.workers[y], v.db.tracks[id])
    {
      HolderHolds(c, w, y);
      assert Apart(w, w.workers[worker], w.workers[y]);
    }
    RowStep(c, w, v, id, Some(worker));
  }

  /** A claimable track has no worker that holds its lease. */
  lemma ClaimableIsFree(c: Config, w: World, id: TrackId, x: WorkerId)
    requires Inv(c, w) && id in w.db.tracks && Claimable(w.db.tracks[id], w.now)
    requires x in w.workers && w.workers[x].claim.track == id
    ensures !Holds(w, w.workers[x])
  {
    hide Inv;
    if Holds(w, w.workers[x]) {
      HolderHolds(c, w, x);
    }
  }

  lemma ExhaustedKeeps(c: Config, w: World, id: TrackId)
    requires Inv(c, w) && id in w.db.tracks && Claimable(w.db.tracks[id], w.now)
    requires w.db.tracks[id].pendingKey.Some? ==> Unlocked(w, w.db.tracks[id].pendingKey.value)
    requires w.db.tracks[id].attempts >= c.maxAttempts
    ensures Inv(c, w.(db := AfterClaim(w.db, id, w.now, c.lease, c.maxAttempts)))
  {
    hide IsRewrite, Tags.Embeddable, Tags.FormatOf, Inv, ObjectOk, WorkerOk, HolderOk;
    var v := w.(db := AfterClaim(w.db, id, w.now, c.lease, c.maxAttempts));
    TrackParts(c, w, id);
    PairsStep(w, v, id, None);
    forall x | x in v.workers && v.workers[x].claim.track == id
      ensures !Holds(v, v.workers[x])
    {
      ClaimableIsFree(c, w, id, x);
    }
    RowStep(c, w, v, id, None);
  }

  /** The key a claim makes available was never issued before, so nothing can
      be stored, queued or recorded under it. */
  lemma ClaimKeyIsFresh(c: Config, w: World, id: TrackId)
    requires Inv(c, w) && id in w.db.tracks
    ensures var row := w.db.tracks[id]; var key := Revision(id, row.version, row.attempts + 1);
      key !in w.issued && key !in w.objects && key !in w.db.garbage && !Uses(row, key)
  {
    hide IsRewrite, Inv, WorkersOk, PairsOk, BatchesOk, FileFormat;
    TrackParts(c, w, id);
    var row := w.db.tracks[id];
    var key := Revision(id, row.version, row.attempts + 1);
    assert key in w.issued ==> NotAfter(key, row);
    assert key in w.objects ==> ObjectOk(c, w, key);
  }

  lemma ClaimKeeps(c: Config, w: World, worker: WorkerId, id: TrackId)
    requires Inv(c, w) && id in w.db.tracks && Claimable(w.db.tracks[id], w.now) && worker !in w.workers
    requires w.db.tracks[id].pendingKey.Some? ==> Unlocked(w, w.db.tracks[id].pendingKey.value)
    requires w.db.tracks[id].attempts < c.maxAttempts
    ensures Inv(c, DoClaim(c, w, worker, id))
  {
    hide Inv, ObjectOk, RowOk, WorkerOk, PairsOk, HolderOk, SnapshotOk, Touches, KeysMove, Descends;
    var v := DoClaim(c, w, worker, id);
    TrackParts(c, w, id);
    ClaimKeyIsFresh(c, w, id);
    ClaimedRowOk(c, w, worker, id);
    ClaimTouches(c, w, worker, id);
    ClaimMovesKeys(c, w, worker, id);
    ClaimerOk(c, w, worker, id);
    ClaimPairs(c, w, worker, id);
    forall x | x in w.workers && w.workers[x].claim.track == id
      ensures !Holds(v, w.workers[x])
    {
      ClaimableIsFree(c, w, id, x);
    }
    RowStep(c, w, v, id, Some(worker));
  }

  lemma ClaimTouches(c: Config, w: World, worker: WorkerId, id: TrackId)
    requires id in w.db.tracks && w.db.tracks[id].attempts < c.maxAttempts && worker !in w.workers
    requires w.db.tracks[id].pendingKey.Some? ==> w.db.tracks[id].pendingKey.value.track == id
    ensures var v := DoClaim(c, w, worker, id); Touches(w, v, id) && Descends(w.db.tracks[id], v.db.tracks[id])
  {
    hide Tags.FormatOf;
  }

  lemma ClaimMovesKeys(c: Config, w: World, worker: WorkerId, id: TrackId)
    requires id in w.db.tracks && w.db.tracks[id].attempts < c.maxAttempts && RowOk(c, w, id)
    requires w.db.tracks[id].pendingKey.Some? ==> Unlocked(w, w.db.tracks[id].pendingKey.value)
    ensures KeysMove(w, DoClaim(c, w, worker, id), id)
  {
    hide IsRewrite, Tags.Embeddable, FileFormat;
  }

  lemma ClaimedRowOk(c: Config, w: World, worker: WorkerId, id: TrackId)
    requires id in w.db.tracks && w.db.tracks[id].attempts < c.maxAttempts && RowOk(c, w, id)
    ensures RowOk(c, DoClaim(c, w, worker, id), id)
    ensures w.db.tracks[id].pendingKey.Some? ==> w.db.tracks[id].pendingKey.value.track == id
  {
    hide IsRewrite, Tags.Embeddable, Tags.FormatOf;
  }

  lemma ClaimerOk(c: Config, w: World, worker: WorkerId, id: TrackId)
    requires id in w.db.tracks && w.db.tracks[id].attempts < c.maxAttempts && RowOk(c, w, id)
    requires w.db.tracks[id].status == Pending && w.db.tracks[id].ready
    requires var row := w.db.tracks[id]; var key := Revision(id, row.version, row.attempts + 1);
      key !in w.objects && key !in w.db.garbage && !Uses(row, key)
    ensures var v := DoClaim(c, w, worker, id); WorkerOk(c, v, v.workers[worker])
  {
    hide IsRewrite, Tags.Embeddable, Tags.FormatOf;
  }

  lemma ClaimPairs(c: Config, w: World, worker: WorkerId, id: TrackId)
    requires Inv(c, w) && id in w.db.tracks && Claimable(w.db.tracks[id], w.now) && worker !in w.workers
    requires w.db.tracks[id].attempts < c.maxAttempts
    ensures PairsOk(DoClaim(c, w, worker, id), id)
  {
    hide IsRewrite, Inv, HolderOk, SnapshotOk, RowOk, ObjectsOk, BatchesOk;
    var v := DoClaim(c, w, worker, id);
    TrackParts(c, w, id);
    ClaimKeyIsFresh(c, w, id);
    forall x | x in w.workers && w.workers[x].claim.track == id
      ensures !Holds(v, w.workers[x]) && RevisionKey(w.workers[x].claim) != RevisionKey(v.workers[worker].claim)
    {
      ClaimableIsFree(c, w, id, x);
      WorkerOkNamed(c, w, w.workers[x]);
    }
    forall x, y | x in v.workers && y in v.workers && x != y && v.workers[x].claim.track == id &&
        v.workers[y].claim.track == id
      ensures Apart(v, v.workers[x], v.workers[y])
    {
      if x != worker && y != worker {
        assert Apart(w, w.workers[x], w.workers[y]);
      }
    }
  }

  lemma PublishKeeps(c: Config, w: World, id: TrackId, row: Row, data: Bytes)
    requires Inv(c, w) && id !in w.db.tracks && NewUpload(row, id, data)
    ensures Inv(c, w.(db := w.db.(tracks := w.db.tracks[id := row]), objects := w.objects[TrackTable.Upload(id) := data],
                      uploads := w.uploads[id := data]))
  {
    hide IsRewrite, Tags.Embeddable, Tags.FormatOf, TrackOk;
    var v := w.(db := w.db.(tracks := w.db.tracks[id := row]), objects := w.objects[TrackTable.Upload(id) := data],
                uploads := w.uploads[id := data]);
    NewTrackOk(c, v, id);
    forall other | other in w.db.tracks
      ensures TrackOk(c, v, other)
    {
      Frame(c, w, v, other);
    }
  }

  lemma NewTrackOk(c: Config, v: World, id: TrackId)
    requires id in v.db.tracks && id in v.uploads && NewUpload(v.db.tracks[id], id, v.uploads[id])
    requires forall x :: x in v.workers ==> v.workers[x].claim.track != id
    requires forall k :: k in v.objects && k.track == id ==> k == TrackTable.Upload(id)
    requires TrackTable.Upload(id) in v.objects && v.objects[TrackTable.Upload(id)] == v.uploads[id]
    requires forall k :: k in v.issued || k in v.db.garbage ==> k.track != id
    requires v.collector.Collecting? ==> forall k :: k in v.collector.batch ==> k.track != id
    ensures TrackOk(c, v, id)
  {
    hide IsRewrite, Tags.Embeddable, Tags.FormatOf;
    assert RowOk(c, v, id);
    assert ObjectsOk(c, v, id) by {
      assert ObjectOk(c, v, TrackTable.Upload(id));
    }
  }

  // ----- The collector -----

  /** The batch query looks at all tracks; only a key's own track can use it. */
  lemma InUseIsLocal(c: Config, w: World, key: Key)
    requires Inv(c, w)
    ensures InUse(w.db.tracks, key) <==> key.track in w.db.tracks && Uses(w.db.tracks[key.track], key)
  {
    hide IsRewrite, Tags.Embeddable, WorkersOk, PairsOk, ObjectsOk, KeysOk, BatchesOk;
    if InUse(w.db.tracks, key) {
      var id :| id in w.db.tracks && (w.db.tracks[id].storageKey == key || w.db.tracks[id].pendingKey == Some(key));
      assert RowOk(c, w, id) by {
        assert TrackOk(c, w, id);
      }
    }
  }

  /** Steps that only change what the collector holds. */
  lemma CollectorKeeps(c: Config, w: World, collector: Collector)
    requires Inv(c, w)
    requires collector.Collecting? ==>
      && collector.doomed <= collector.batch
      && forall k :: k in collector.batch ==> k.track in w.db.tracks
    requires forall id :: id in w.db.tracks ==> BatchesOk(w.(collector := collector), id)
    ensures Inv(c, w.(collector := collector))
  {
    hide IsRewrite, RowOk, WorkerOk, ObjectOk, BatchesOk;
    var v := w.(collector := collector);
    forall id | id in v.db.tracks
      ensures TrackOk(c, v, id)
    {
      TrackParts(c, w, id);
      RowOkSame(c, w, v, id);
      WorkersSame(c, w, v, id);
    }
  }

  lemma WorkersSame(c: Config, w: World, v: World, id: TrackId)
    requires id in w.db.tracks && WorkersOk(c, w, id) && PairsOk(w, id) && ObjectsOk(c, w, id) && KeysOk(w, id)
    requires v == w.(collector := v.collector)
    ensures WorkersOk(c, v, id) && PairsOk(v, id) && ObjectsOk(c, v, id) && KeysOk(v, id)
  {
    hide IsRewrite, SnapshotOk, FileFormat;
    forall x | x in v.workers && v.workers[x].claim.track == id
      ensures WorkerOk(c, v, v.workers[x])
    {
      assert WorkerOk(c, w, w.workers[x]);
    }
    forall x, y | x in v.workers && y in v.workers && x != y && v.workers[x].claim.track == id &&
        v.workers[y].claim.track == id
      ensures Apart(v, v.workers[x], v.workers[y])
    {
      assert Apart(w, w.workers[x], w.workers[y]);
    }
    forall k | k in v.objects && k.track == id
      ensures ObjectOk(c, v, k)
    {
      assert ObjectOk(c, w, k);
    }
  }

  lemma CheckKeeps(c: Config, w: World, batch: set<Key>)
    requires Inv(c, w) && forall k :: k in batch ==> k in w.db.garbage
    ensures Inv(c, w.(collector := Collecting(batch, set k | k in batch && !InUse(w.db.tracks, k))))
  {
    hide Inv, InUse;
    var doomed := set k | k in batch && !InUse(w.db.tracks, k);
    var v := w.(collector := Collecting(batch, doomed));
    forall id | id in v.db.tracks
      ensures BatchesOk(v, id)
    {
      forall k: Key | k.track == id
        ensures BatchOk(v, k, v.db.tracks[id])
      {
        InUseIsLocal(c, w, k);
      }
    }
    assert Placed(w) by {
      PlacedInv(c, w);
    }
    CollectorKeeps(c, w, Collecting(batch, doomed));
  }

  lemma PlacedInv(c: Config, w: World)
    requires Inv(c, w)
    ensures Placed(w)
  {
  }

  lemma AbortKeeps(c: Config, w: World)
    requires Inv(c, w)
    ensures Inv(c, w.(collector := Idle))
  {
    hide Inv;
    CollectorKeeps(c, w, Idle);
  }

  /** Removing an object that no track used when the batch was read, however
      much happened since. */
  lemma RemoveKeeps(c: Config, w: World, key: Key)
    requires Inv(c, w) && w.collector.Collecting? && key in w.collector.doomed
    ensures Inv(c, w.(objects := w.objects - {key},
                      collector := Collecting(w.collector.batch, w.collector.doomed - {key})))
  {
    hide IsRewrite, Inv, TrackOk;
    var v := w.(objects := w.objects - {key}, collector := Collecting(w.collector.batch, w.collector.doomed - {key}));
    PlacedInv(c, w);
    assert c.u.Agrees() && key.track in w.db.tracks by {
      AgreesInv(c, w);
    }
    forall id | id in v.db.tracks
      ensures TrackOk(c, v, id)
    {
      TrackParts(c, w, id);
      RemoveKeepsTrack(c, w, v, id, key);
    }
    assert Inv(c, v) by {
      InvFrom(c, v);
    }
  }

  lemma AgreesInv(c: Config, w: World)
    requires Inv(c, w)
    ensures c.u.Agrees()
  {
  }

  lemma InvFrom(c: Config, w: World)
    requires c.u.Agrees() && Placed(w) && forall id :: id in w.db.tracks ==> TrackOk(c, w, id)
    ensures Inv(c, w)
  {
    hide TrackOk;
  }

  lemma RemoveKeepsTrack(c: Config, w: World, v: World, id: TrackId, key: Key)
    requires id in w.db.tracks && w.collector.Collecting? && key in w.collector.doomed && w.collector.doomed <= w.collector.batch
    requires RowOk(c, w, id) && WorkersOk(c, w, id) && PairsOk(w, id)
    requires ObjectsOk(c, w, id) && KeysOk(w, id) && BatchesOk(w, id)
    requires v == w.(objects := w.objects - {key}, collector := Collecting(w.collector.batch, w.collector.doomed - {key}))
    ensures TrackOk(c, v, id)
  {
    hide IsRewrite, SnapshotOk, FileFormat;
    assert key.track == id ==> key in w.db.garbage && !Uses(w.db.tracks[id], key) by {
      assert key.track == id ==> BatchOk(w, key, w.db.tracks[id]);
    }
    assert RowOk(c, v, id);
    assert WorkersOk(c, v, id) by {
      forall x | x in v.workers && v.workers[x].claim.track == id
        ensures WorkerOk(c, v, v.workers[x])
      {
        assert WorkerOk(c, w, w.workers[x]);
      }
    }
    assert PairsOk(v, id) by {
      forall x, y | x in v.workers && y in v.workers && x != y && v.workers[x].claim.track == id &&
          v.workers[y].claim.track == id
        ensures Apart(v, v.workers[x], v.workers[y])
      {
        assert Apart(w, w.workers[x], w.workers[y]);
      }
    }
    assert ObjectsOk(c, v, id) by {
      forall k | k in v.objects && k.track == id
        ensures ObjectOk(c, v, k)
      {
        assert ObjectOk(c, w, k);
      }
    }
    assert BatchesOk(v, id) by {
      forall k: Key | k.track == id
        ensures BatchOk(v, k, v.db.tracks[id])
      {
        assert BatchOk(w, k, w.db.tracks[id]);
      }
    }
  }

  /** Forgetting a whole batch once nothing unused is left of it. */
  lemma CommitKeeps(c: Config, w: World)
    requires Inv(c, w) && w.collector.Collecting? && w.collector.doomed == {}
    ensures Inv(c, w.(db := w.db.(garbage := w.db.garbage - w.collector.batch), collector := Idle))
  {
    hide IsRewrite, Inv, TrackOk;
    var v := w.(db := w.db.(garbage := w.db.garbage - w.collector.batch), collector := Idle);
    PlacedInv(c, w);
    AgreesInv(c, w);
    forall id | id in v.db.tracks
      ensures TrackOk(c, v, id)
    {
      TrackParts(c, w, id);
      CommitKeepsTrack(c, w, v, id);
    }
    assert Inv(c, v) by {
      InvFrom(c, v);
    }
  }

  lemma CommitKeepsTrack(c: Config, w: World, v: World, id: TrackId)
    requires id in w.db.tracks && w.collector.Collecting? && w.collector.doomed == {}
    requires RowOk(c, w, id) && WorkersOk(c, w, id) && PairsOk(w, id)
    requires ObjectsOk(c, w, id) && KeysOk(w, id) && BatchesOk(w, id)
    requires v == w.(db := w.db.(garbage := w.db.garbage - w.collector.batch), collector := Idle)
    ensures TrackOk(c, v, id)
  {
    hide IsRewrite, SnapshotOk, FileFormat;
    assert RowOk(c, v, id);
    assert WorkersOk(c, v, id) by {
      forall x | x in v.workers && v.workers[x].claim.track == id
        ensures WorkerOk(c, v, v.workers[x])
      {
        assert WorkerOk(c, w, w.workers[x]);
      }
    }
    assert PairsOk(v, id) by {
      forall x, y | x in v.workers && y in v.workers && x != y && v.workers[x].claim.track == id &&
          v.workers[y].claim.track == id
        ensures Apart(v, v.workers[x], v.workers[y])
      {
        assert Apart(w, w.workers[x], w.workers[y]);
      }
    }
    assert ObjectsOk(c, v, id) by {
      forall k | k in v.objects && k.track == id
        ensures ObjectOk(c, v, k)
      {
        assert ObjectOk(c, w, k);
        assert BatchOk(w, k, w.db.tracks[id]);
      }
    }
  }

  // ----- Every allowed step keeps the invariant -----

  lemma QuietKeeps(c: Config, w: World, v: World)
    requires Inv(c, w) && v.now >= w.now
    requires v == w.(now := v.now, workers := v.workers)
    requires forall x :: x in v.workers ==> x in w.workers && v.workers[x] == w.workers[x]
    ensures Inv(c, v)
  {
    hide TrackOk;
    forall id | id in v.db.tracks
      ensures TrackOk(c, v, id)
    {
      Frame(c, w, v, id);
    }
  }

  lemma NoteStep(c: Config, w: World, worker: WorkerId, answer: Answer)
    requires Inv(c, w) && worker in w.workers && w.workers[worker].phase.Verified? && w.now <= w.workers[worker].deadline
    ensures Inv(c, DoNote(c, w, worker, answer))
  {
    hide IsRewrite, Tags.Embeddable, Tags.FormatOf, Inv, RowOk, ObjectOk, Retry;
    var x, v := w.workers[worker], DoNote(c, w, worker, answer);
    WorkerFacts(c, w, worker);
    RetryUploads(c, x.claim);
    if answer != LostBeforeCommit && StillWanted(w.db, x.claim) {
      NoteKeeps(c, w, v, worker, v.workers[worker].phase);
    } else {
      PhaseKeeps(c, w, worker, v.workers[worker].phase);
    }
  }

  lemma PutStep(c: Config, w: World, worker: WorkerId, landed: bool, confirmed: bool)
    requires Inv(c, w) && worker in w.workers && w.workers[worker].phase.Noted? && w.now <= w.workers[worker].deadline
    requires confirmed ==> landed
    ensures Inv(c, DoPut(c, w, worker, landed, confirmed))
  {
    hide IsRewrite, Tags.Embeddable, Tags.FormatOf, Inv, RowOk, ObjectOk, Retry;
    var v := DoPut(c, w, worker, landed, confirmed);
    WorkerFacts(c, w, worker);
    RetryUploads(c, w.workers[worker].claim);
    if landed {
      PutKeeps(c, w, v, worker, v.workers[worker].phase);
    } else {
      PhaseKeeps(c, w, worker, v.workers[worker].phase);
    }
  }

  lemma RetryUploads(c: Config, claim: Claim)
    ensures forall code, uploaded :: Retry(c, claim, code, uploaded).uploaded == uploaded
  {
  }

  lemma SwapStep(c: Config, w: World, worker: WorkerId, answer: Answer)
    requires Inv(c, w) && worker in w.workers && w.workers[worker].phase.Stored? && w.now <= w.workers[worker].deadline
    requires answer != LostBeforeCommit ==> Unlocked(w, SwapQueues(c, w, w.workers[worker]))
    ensures Inv(c, DoSwap(c, w, worker, answer))
  {
    hide IsRewrite, Tags.Embeddable, Tags.FormatOf, Inv, RowOk, ObjectOk, Retry, Used;
    var x, v := w.workers[worker], DoSwap(c, w, worker, answer);
    WorkerFacts(c, w, worker);
    RetryUploads(c, x.claim);
    if answer == LostBeforeCommit {
      PhaseKeeps(c, w, worker, v.workers[worker].phase);
    } else {
      var phase := if worker in v.workers then Some(v.workers[worker].phase) else None;
      match SwapOutcome(w.db, x.claim, |x.phase.file|, c.maxOwnerBytes)
      case NotFound => assert false;
      case Conflict => ConflictKeeps(c, w, worker, phase);
      case OverQuota => OverQuotaKeeps(c, w, worker, phase);
      case Swapped => SwappedKeeps(c, w, worker, phase);
    }
  }

  lemma ClaimStep(c: Config, w: World, worker: WorkerId, id: TrackId)
    requires Inv(c, w) && id in w.db.tracks && Claimable(w.db.tracks[id], w.now) && worker !in w.workers
    requires w.db.tracks[id].pendingKey.Some? ==> Unlocked(w, w.db.tracks[id].pendingKey.value)
    ensures Inv(c, DoClaim(c, w, worker, id))
  {
    hide Inv, Claimable, Unlocked;
    if w.db.tracks[id].attempts >= c.maxAttempts {
      ExhaustedKeeps(c, w, id);
    } else {
      ClaimKeeps(c, w, worker, id);
    }
  }

  /** Under the stated hypothesis, every step keeps the invariant. */
  lemma StepKeeps(c: Config, w: World, s: Step)
    requires Inv(c, w) && Allowed(c, w, s)
    ensures Inv(c, Apply(c, w, s))
  {
    hide Inv, Foreign, DoNote, DoPut, DoSwap, DoClaim, GoodFile, NewUpload, SwapQueues, Claimable, Unlocked, FileFormat,
      Tags.Embeddable, Tags.FormatOf, AfterFail, AfterRelease, InUse, Retry;
    match s
    case Tick(to) => QuietKeeps(c, w, w.(now := to));
    case Publish(id, row, data) => PublishKeeps(c, w, id, row, data);
    case EditTrack(id, owner, expected, edit) =>
      if EditOutcome(w.db, owner, id, expected, edit).Edited? {
        EditKeeps(c, w, Apply(c, w, s), id, edit);
      }
    case ClaimTrack(worker, id) => ClaimStep(c, w, worker, id);
    case Rewrite(worker, file) => RewriteKeeps(c, w, worker, file);
    case GiveUp(worker, failure) => RetryUploads(c, w.workers[worker].claim); GiveUpKeeps(c, w, worker, failure);
    case Note(worker, answer) => NoteStep(c, w, worker, answer);
    case Put(worker, landed, confirmed) => PutStep(c, w, worker, landed, confirmed);
    case Swap(worker, answer) => SwapStep(c, w, worker, answer);
    case RecordFailure(worker) => FailureKeeps(c, w, worker);
    case Release(worker) => ReleaseKeeps(c, w, worker);
    case Crash(worker) => QuietKeeps(c, w, Without(w, worker));
    case CollectCheck(batch) => CheckKeeps(c, w, batch);
    case CollectRemove(key) => RemoveKeeps(c, w, key);
    case CollectCommit => CommitKeeps(c, w);
    case CollectAbort => AbortKeeps(c, w);
  }

  // ----- Whole runs -----

  /** A system that has only ever taken uploads in. */
  ghost predicate Initial(c: Config, w: World) {
    && c.u.Agrees()
    && w.db == Db(map[], map[]) && w.objects == map[] && w.workers == map[] && w.collector == Idle
    && w.uploads == map[] && w.issued == {}
  }

  ghost predicate Run(c: Config, worlds: seq<World>, steps: seq<Step>) {
    && |worlds| == |steps| + 1 && Initial(c, worlds[0])
    && forall i :: 0 <= i < |steps| ==> Allowed(c, worlds[i], steps[i]) && worlds[i + 1] == Apply(c, worlds[i], steps[i])
  }

  lemma RunStarts(c: Config, worlds: seq<World>, steps: seq<Step>)
    requires Run(c, worlds, steps)
    ensures |worlds| == |steps| + 1 && Initial(c, worlds[0])
  {
    hide Initial, Allowed, Apply;
  }

  lemma RunSteps(c: Config, worlds: seq<World>, steps: seq<Step>, i: nat)
    requires Run(c, worlds, steps) && i < |steps|
    ensures |worlds| == |steps| + 1
    ensures Allowed(c, worlds[i], steps[i]) && Enabled(c, worlds[i], steps[i])
    ensures worlds[i + 1] == Apply(c, worlds[i], steps[i])
  {
    hide Initial, Enabled, Timely, Foreign, Apply;
  }

  lemma {:induction false} RunKeepsInv(c: Config, worlds: seq<World>, steps: seq<Step>, i: nat)
    requires Run(c, worlds, steps) && i < |worlds|
    ensures Inv(c, worlds[i])
  {
    hide Inv, Apply, Allowed, Run, Initial;
    RunStarts(c, worlds, steps);
    if i == 0 {
      InitialInv(c, worlds[0]);
    } else {
      RunKeepsInv(c, worlds, steps, i - 1);
      RunSteps(c, worlds, steps, i - 1);
      StepKeeps(c, worlds[i - 1], steps[i - 1]);
    }
  }

  lemma InitialInv(c: Config, w: World)
    requires Initial(c, w)
    ensures Inv(c, w)
  {
  }

  /** The object a ready track's storage key names is always in storage, with
      the size the row records. */
  lemma NothingIsLost(c: Config, worlds: seq<World>, steps: seq<Step>, i: nat, id: TrackId)
    requires Run(c, worlds, steps) && i < |worlds| && id in worlds[i].db.tracks && worlds[i].db.tracks[id].ready
    ensures var row := worlds[i].db.tracks[id];
      row.storageKey in worlds[i].objects && row.size == |worlds[i].objects[row.storageKey]|
  {
    hide Inv, Apply, Allowed, IsRewrite;
    RunKeepsInv(c, worlds, steps, i);
    TrackParts(c, worlds[i], id);
  }

  /** Every object in storage is some track's current or recorded object, or
      is queued for deletion. */
  lemma NothingIsOrphaned(c: Config, worlds: seq<World>, steps: seq<Step>, i: nat, key: Key)
    requires Run(c, worlds, steps) && i < |worlds| && key in worlds[i].objects
    ensures InUse(worlds[i].db.tracks, key) || key in worlds[i].db.garbage
  {
    hide Inv, Apply, Allowed, IsRewrite, RowOk;
    RunKeepsInv(c, worlds, steps, i);
    PlacedInv(c, worlds[i]);
    TrackParts(c, worlds[i], key.track);
    assert ObjectOk(c, worlds[i], key);
  }

  /** "Written" means it: the current object is the upload rewritten once with
      exactly the current metadata, and reads back as that metadata and the
      audio of the upload, whatever happened in between. */
  lemma WrittenIsTrue(c: Config, worlds: seq<World>, steps: seq<Step>, i: nat, id: TrackId)
    requires Run(c, worlds, steps) && i < |worlds| && id in worlds[i].db.tracks && worlds[i].db.tracks[id].status == Written
    ensures var w := worlds[i]; var row := w.db.tracks[id];
      && row.tagVersion == Some(row.version)
      && id in w.uploads && row.storageKey in w.objects
      && Tags.Rewrite(c.u, FileFormat(row), w.uploads[id], row.meta) == T.Ok(w.objects[row.storageKey])
      && Tags.Inspect(c.u, FileFormat(row), w.uploads[id]).Ok?
      && Tags.Inspect(c.u, FileFormat(row), w.objects[row.storageKey]) ==
         T.Ok(T.Info(row.meta, Tags.Inspect(c.u, FileFormat(row), w.uploads[id]).value.payload))
  {
    hide Inv, Apply, Allowed, Tags.Rewrite, Tags.Inspect, Tags.Embeddable, Tags.Matches, FileFormat;
    RunKeepsInv(c, worlds, steps, i);
    TrackParts(c, worlds[i], id);
  }

  /** Any number of edits, retries, crashes and swaps later, the current object
      is still the upload itself or has its audio. */
  lemma AudioIsTheUploads(c: Config, worlds: seq<World>, steps: seq<Step>, i: nat, id: TrackId)
    requires Run(c, worlds, steps) && i < |worlds| && id in worlds[i].db.tracks && worlds[i].db.tracks[id].ready
    ensures var w := worlds[i]; var row := w.db.tracks[id];
      && id in w.uploads && row.storageKey in w.objects
      && var before, after := Tags.Inspect(c.u, FileFormat(row), w.uploads[id]),
           Tags.Inspect(c.u, FileFormat(row), w.objects[row.storageKey]);
        || w.objects[row.storageKey] == w.uploads[id]
        || (before.Ok? && after.Ok? && after.value.payload == before.value.payload)
  {
    hide Inv, Apply, Allowed, Tags.Rewrite, Tags.Inspect, Tags.Embeddable, Tags.Matches, FileFormat, RowOk;
    RunKeepsInv(c, worlds, steps, i);
    NothingIsLost(c, worlds, steps, i, id);
    TrackParts(c, worlds[i], id);
    var w := worlds[i];
    var row := w.db.tracks[id];
    assert row.storageKey.track == id by {
      KeyIsOwn(c, w, id);
    }
    assert ObjectOk(c, w, row.storageKey);
  }

  lemma KeyIsOwn(c: Config, w: World, id: TrackId)
    requires id in w.db.tracks && RowOk(c, w, id)
    ensures w.db.tracks[id].storageKey.track == id
  {
    hide IsRewrite;
  }

  // ----- Attempts and keys -----

  /** The claim a step makes, if it makes one. */
  function Claims(w: World, s: Step, v: World): Option<Claim> {
    if s.ClaimTrack? && s.worker !in w.workers && s.worker in v.workers then Some(v.workers[s.worker].claim) else None
  }

  lemma {:induction false} IssuedStays(c: Config, worlds: seq<World>, steps: seq<Step>, i: nat, j: nat, key: Key)
    requires Run(c, worlds, steps) && i <= j < |worlds| && key in worlds[i].issued
    ensures key in worlds[j].issued
    decreases j
  {
    hide Initial, Allowed, Apply, Run, Enabled;
    RunStarts(c, worlds, steps);
    if i < j {
      IssuedStays(c, worlds, steps, i, j - 1, key);
      RunSteps(c, worlds, steps, j - 1);
      IssuedGrows(c, worlds[j - 1], steps[j - 1]);
    }
  }

  lemma IssuedGrows(c: Config, w: World, s: Step)
    requires Enabled(c, w, s)
    ensures w.issued <= Apply(c, w, s).issued
  {
    hide GoodFile, NewUpload, SwapQueues, Claimable, Unlocked, AfterFail, AfterRelease, InUse, Retry, AfterSwap, SwapOutcome,
      AfterRecord, AfterClaim, FileFormat, Tags.Embeddable, Tags.FormatOf;
  }

  /** From claim to claim of a track, (version, attempts) rises in
      lexicographic order, and the attempts stay within the limit; so no two
      claims are ever given the same key. */
  lemma ClaimsRise(c: Config, worlds: seq<World>, steps: seq<Step>, i: nat, j: nat)
    requires Run(c, worlds, steps) && i < j < |steps|
    requires Claims(worlds[i], steps[i], worlds[i + 1]).Some? && Claims(worlds[j], steps[j], worlds[j + 1]).Some?
    requires steps[i].id == steps[j].id
    ensures var a, b := Claims(worlds[i], steps[i], worlds[i + 1]).value.row, Claims(worlds[j], steps[j], worlds[j + 1]).value.row;
      && 1 <= a.attempts && b.attempts <= c.maxAttempts
      && (a.version < b.version || (a.version == b.version && a.attempts < b.attempts))
  {
    hide Initial, Allowed, Apply, Run, Inv, Enabled, RowOk, WorkersOk, PairsOk, ObjectsOk, BatchesOk;
    RunSteps(c, worlds, steps, i);
    RunSteps(c, worlds, steps, j);
    ClaimIs(c, worlds[i], steps[i]);
    ClaimIs(c, worlds[j], steps[j]);
    var key := RevisionKey(worlds[i + 1].workers[steps[i].worker].claim);
    IssuedStays(c, worlds, steps, i + 1, j, key);
    RunKeepsInv(c, worlds, steps, j);
    TrackParts(c, worlds[j], steps[j].id);
    assert NotAfter(key, worlds[j].db.tracks[steps[j].id]);
  }

  lemma ClaimIs(c: Config, w: World, s: Step)
    requires Enabled(c, w, s) && Claims(w, s, Apply(c, w, s)).Some?
    ensures s.id in w.db.tracks
    ensures var claim := Claims(w, s, Apply(c, w, s)).value;
      && claim.track == s.id
      && claim.row.version == w.db.tracks[s.id].version
      && claim.row.attempts == w.db.tracks[s.id].attempts + 1 <= c.maxAttempts
      && RevisionKey(claim) in Apply(c, w, s).issued
  {
  }
}

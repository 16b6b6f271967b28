/** Two runs that lose a track's object, and why the guarantees of
    RewriteSafety ask what they ask. */
module RewriteFindings {
  import opened ByteOrder
  import opened Int64
  import opened Options
  import opened TrackTable
  import opened TagStore
  import opened RewriteChecked
  import opened RewriteProtocol
  import opened RewriteSafety
  import I = Id3
  import Mp3
  import T = TagText
  import Tags

  // ----- A small file -----

  const UPLOADED: Bytes := [0xFF, 0xFB, 0, 0, 0, 0, 0, 0, 0, 0, 0, 0, 0, 0, 0, 0]
  const NO_TAGS: T.Metadata := I.NO_FIELDS.m
  const NAME := "a.mp3"

  lemma NameIsMp3()
    ensures Tags.FormatOf(NAME) == Tags.Mp3File
  {
    assert NAME[..4] == "a.mp" && NAME[..4][..3] == "a.m" && NAME[..3][..2] == "a." && NAME[..2][..1] == "a";
    assert Tags.Extension("a.") == ".";
    assert Tags.Extension("a.m") == ".m";
    assert Tags.Extension("a.mp") == ".mp";
    assert Tags.Extension(NAME) == ".mp3";
    assert Tags.Lower(".mp3") == ".mp3";
  }

  /** The upload rewritten with empty tags: an empty ID3 tag and the audio. */
  function Retagged(): Bytes {
    [73, 68, 51, 4, 0, 0] + PutSyncsafe(0, 4) + UPLOADED
  }

  lemma RetaggedIsGood(u: T.Unicode)
    requires u.Agrees()
    ensures |Retagged()| == 26 && Tags.Embeddable(Tags.Mp3File, NO_TAGS)
    ensures Tags.Rewrite(u, Tags.Mp3File, UPLOADED, NO_TAGS) == T.Ok(Retagged())
    ensures Tags.Verified(u, Tags.Mp3File, UPLOADED, Retagged(), NO_TAGS)
  {
    hide Tags.Verified, Tags.LooksRight, Mp3.Rewrite, I.CleanTexts, PutSyncsafe, Mp3.SmallEnough, Mp3.HasSecondId3v1, I.ReadTag, Retagged,
      UPLOADED, NO_TAGS, Tags.LongEnough;
    RetaggedIsRewritten(u);
    EmptyIsClean();
    RetaggedLength();
    Tags.VerificationPasses(u, Tags.Mp3File, UPLOADED, NO_TAGS);
  }

  lemma UploadedLooksRight()
    ensures Tags.LooksRight(Tags.Mp3File, UPLOADED)
  {
    assert UPLOADED[..Tags.LOOKED_AT] == UPLOADED;
  }

  lemma RetaggedLength()
    ensures |Retagged()| == 26
  {
  }

  lemma RetaggedIsRewritten(u: T.Unicode)
    ensures Mp3.Rewrite(u, UPLOADED, NO_TAGS) == T.Ok(Retagged())
    ensures I.ReadTag(UPLOADED).Ok? && Mp3.SmallEnough(u, UPLOADED, NO_TAGS) && !Mp3.HasSecondId3v1(UPLOADED)
    ensures Tags.LongEnough(u, UPLOADED, NO_TAGS)
  {
    hide I.Texts, I.TextFrames, I.ReadTag, I.With, I.Print, PutSyncsafe;
    Mp3.NoTag(UPLOADED);
    Mp3.EmptyTexts(NO_TAGS);
    Mp3.NoTextNoFrames(4, I.Texts(4, NO_TAGS));
    Mp3.EmptyTag(u, NO_TAGS);
    EmptyPrints();
  }

  lemma EmptyPrints()
    ensures I.Print(I.Tag(4, [])) == T.Ok([73, 68, 51, 4, 0, 0] + PutSyncsafe(0, 4)) && I.Concat([]) == []
  {
    var head: Bytes := [73, 68, 51, 4, 0, 0] + PutSyncsafe(0, 4);
    assert head + [] == head;
  }

  lemma EmptyIsClean()
    ensures I.CleanTexts(NO_TAGS) && NO_TAGS.NumbersFit()
  {
  }

  // ----- Building runs -----

  /** A run of the protocol, with or without each of the two conditions. */
  ghost predicate Happens(c: Config, worlds: seq<World>, steps: seq<Step>, timely: bool, guarded: bool) {
    && |worlds| == |steps| + 1 && Initial(c, worlds[0])
    && forall i :: 0 <= i < |steps| ==>
      && Enabled(c, worlds[i], steps[i]) && worlds[i + 1] == Apply(c, worlds[i], steps[i])
      && (timely ==> Timely(worlds[i], steps[i]))
      && (guarded ==> !Foreign(worlds[i], steps[i]))
  }

  /** Some run ends in w. */
  ghost predicate Reachable(c: Config, w: World, timely: bool, guarded: bool) {
    exists worlds, steps :: Happens(c, worlds, steps, timely, guarded) && worlds[|steps|] == w
  }

  lemma Next(c: Config, w: World, s: Step, timely: bool, guarded: bool)
    requires Reachable(c, w, timely, guarded) && Enabled(c, w, s)
    requires (timely ==> Timely(w, s)) && (guarded ==> !Foreign(w, s))
    ensures Reachable(c, Apply(c, w, s), timely, guarded)
  {
    hide Initial, Enabled, Apply, Timely, Foreign;
    var worlds, steps :| Happens(c, worlds, steps, timely, guarded) && worlds[|steps|] == w;
    var v := Apply(c, w, s);
    assert Happens(c, worlds + [v], steps + [s], timely, guarded);
    assert (worlds + [v])[|steps + [s]|] == v;
  }

  /** A file that can be uploaded and a rewrite of it that passes every check. */
  datatype Sample = Sample(name: string, meta: T.Metadata, data: Bytes, file: Bytes)

  ghost predicate Fine(c: Config, sample: Sample) {
    && Tags.LooksRight(Tags.FormatOf(sample.name), sample.data)
    && Tags.Embeddable(Tags.FormatOf(sample.name), sample.meta)
    && Tags.Rewrite(c.u, Tags.FormatOf(sample.name), sample.data, sample.meta) == T.Ok(sample.file)
    && Tags.Verified(c.u, Tags.FormatOf(sample.name), sample.data, sample.file, sample.meta)
  }

  lemma SmallSample(c: Config) returns (sample: Sample)
    requires c.u.Agrees()
    ensures Fine(c, sample) && |sample.file| == 26
  {
    hide Tags.Rewrite, Tags.Verified, Tags.Embeddable, Tags.FormatOf, Tags.LooksRight, Retagged;
    NameIsMp3();
    UploadedLooksRight();
    RetaggedIsGood(c.u);
    sample := Sample(NAME, NO_TAGS, UPLOADED, Retagged());
  }

  /** What is to be seen of a world with the one track 0. */
  datatype Scene = Scene(
    now: int, row: Row, stored: set<Key>, queued: set<Key>, workers: map<WorkerId, Worker>, collector: Collector)

  ghost predicate Shows(w: World, sample: Sample, sc: Scene) {
    && w.now == sc.now && w.db.tracks == map[0 := sc.row] && w.workers == sc.workers && w.collector == sc.collector
    && w.objects.Keys == sc.stored && (FIRST in w.objects ==> w.objects[FIRST] == sample.data)
    && w.db.garbage.Keys == sc.queued && (forall k :: k in w.db.garbage ==> w.db.garbage[k] <= w.now)
    && sc.row.fileName == sample.name && sc.row.ready && sc.row.owner == 0
  }

  const FIRST: Key := TrackTable.Upload(0)

  function NewRow(sample: Sample): Row {
    Row(0, sample.name, true, sample.meta, FIRST, |sample.data|, 1, Untouched, None, None, 0, None, None, None)
  }

  function SameEdit(sample: Sample): Edit {
    Edit(sample.name, sample.meta, Pending)
  }

  predicate Roomy(c: Config) {
    c.maxAttempts >= 2 && c.maxOwnerBytes >= 26 && c.garbageBatch >= 1
  }

  lemma Begin(c: Config, sample: Sample, timely: bool, guarded: bool) returns (w: World, sc: Scene)
    requires c.u.Agrees()
    ensures Reachable(c, w, timely, guarded) && Shows(w, sample, sc)
    ensures sc == Scene(0, NewRow(sample), {FIRST}, {}, map[], Idle)
  {
    hide Reachable, Enabled, Apply, Timely, Foreign;
    var w0 := World(0, Db(map[], map[]), map[], map[], Idle, map[], {});
    Nothing(c, w0, timely, guarded);
    var s := Publish(0, NewRow(sample), sample.data);
    PublishWorks(c, w0, sample);
    Next(c, w0, s, timely, guarded);
    w := Apply(c, w0, s);
    sc := Scene(0, NewRow(sample), {FIRST}, {}, map[], Idle);
  }

  lemma PublishWorks(c: Config, w: World, sample: Sample)
    requires w == World(0, Db(map[], map[]), map[], map[], Idle, map[], {})
    ensures var s := Publish(0, NewRow(sample), sample.data);
      && Enabled(c, w, s) && Timely(w, s) && !Foreign(w, s)
      && Shows(Apply(c, w, s), sample, Scene(0, NewRow(sample), {FIRST}, {}, map[], Idle))
  {
    var s := Publish(0, NewRow(sample), sample.data);
    assert Apply(c, w, s).db.tracks == map[0 := NewRow(sample)];
    assert Apply(c, w, s).objects.Keys == {FIRST};
  }

  lemma Nothing(c: Config, w: World, timely: bool, guarded: bool)
    requires Initial(c, w)
    ensures Reachable(c, w, timely, guarded)
  {
    hide Initial, Enabled, Apply, Timely, Foreign;
    var none: seq<Step> := [];
    assert Happens(c, [w], none, timely, guarded) && [w][|none|] == w;
  }

  lemma DoEdit(c: Config, w: World, sample: Sample, sc: Scene, timely: bool, guarded: bool) returns (v: World, next: Scene)
    requires Fine(c, sample) && Reachable(c, w, timely, guarded) && Shows(w, sample, sc)
    ensures Reachable(c, v, timely, guarded) && Shows(v, sample, next)
    ensures next == sc.(row := ApplyEdit(sc.row, SameEdit(sample)))
  {
    hide Reachable, Tags.Embeddable, Tags.FormatOf, Tags.Rewrite, Tags.Verified;
    var s := EditTrack(0, 0, sc.row.version, SameEdit(sample));
    Next(c, w, s, timely, guarded);
    v := Apply(c, w, s);
    next := sc.(row := ApplyEdit(sc.row, SameEdit(sample)));
    assert v.db.tracks == map[0 := next.row];
  }

  lemma DoTick(c: Config, w: World, sample: Sample, sc: Scene, to: int, timely: bool, guarded: bool)
    returns (v: World, next: Scene)
    requires Reachable(c, w, timely, guarded) && Shows(w, sample, sc) && to >= sc.now
    ensures Reachable(c, v, timely, guarded) && Shows(v, sample, next) && next == sc.(now := to)
  {
    hide Reachable;
    Next(c, w, Tick(to), timely, guarded);
    v := Apply(c, w, Tick(to));
    next := sc.(now := to);
  }

  lemma DoClaimOnly(c: Config, w: World, sample: Sample, sc: Scene, k: WorkerId, timely: bool, guarded: bool)
    returns (v: World, next: Scene)
    requires Reachable(c, w, timely, guarded) && Shows(w, sample, sc)
    requires Claimable(sc.row, sc.now) && sc.row.attempts < c.maxAttempts && k !in sc.workers && sc.collector.Idle?
    ensures Reachable(c, v, timely, guarded) && Shows(v, sample, next)
    ensures var row := TakeLease(sc.row, sc.now, c.lease, c.maxAttempts);
      next == sc.(row := row,
                  queued := sc.queued + (if sc.row.pendingKey.Some? then {sc.row.pendingKey.value} else {}),
                  workers := sc.workers[k := Worker(Claim(0, row), sc.now + c.lease, Leased)])
  {
    hide Reachable, Claimable, SwapQueues, SwapOutcome, AfterSwap, AfterRecord, AfterRelease,
      GoodFile, NewUpload, InUse, Tags.Embeddable, Tags.FormatOf, AfterFail, EditOutcome,
      RewriteProtocol.DoNote, RewriteProtocol.DoPut, RewriteProtocol.DoSwap;
    var s := ClaimTrack(k, 0);
    Next(c, w, s, timely, guarded);
    v := Apply(c, w, s);
    var row := TakeLease(sc.row, sc.now, c.lease, c.maxAttempts);
    next := sc.(row := row,
                queued := sc.queued + (if sc.row.pendingKey.Some? then {sc.row.pendingKey.value} else {}),
                workers := sc.workers[k := Worker(Claim(0, row), sc.now + c.lease, Leased)]);
    assert v.db.tracks == map[0 := next.row];
    assert v.db.garbage.Keys == next.queued;
  }

  lemma DoRewrite(c: Config, w: World, sample: Sample, sc: Scene, k: WorkerId, timely: bool, guarded: bool)
    returns (v: World, next: Scene)
    requires Fine(c, sample) && Reachable(c, w, timely, guarded) && Shows(w, sample, sc)
    requires k in sc.workers && sc.workers[k].phase == Leased && FIRST in sc.stored
    requires var seen := sc.workers[k].claim.row;
      seen.storageKey == FIRST && seen.size == |sample.data| && seen.fileName == sample.name && seen.meta == sample.meta
    ensures Reachable(c, v, timely, guarded) && Shows(v, sample, next)
    ensures next == sc.(workers := sc.workers[k := sc.workers[k].(phase := Verified(sample.file))])
  {
    hide Reachable, Tags.Embeddable, Tags.FormatOf, Tags.Rewrite, Tags.Verified;
    var s := Rewrite(k, sample.file);
    Next(c, w, s, timely, guarded);
    v := Apply(c, w, s);
    next := sc.(workers := sc.workers[k := sc.workers[k].(phase := Verified(sample.file))]);
  }

  lemma DoNote(c: Config, w: World, sample: Sample, sc: Scene, k: WorkerId, timely: bool, guarded: bool)
    returns (v: World, next: Scene)
    requires Reachable(c, w, timely, guarded) && Shows(w, sample, sc)
    requires k in sc.workers && sc.workers[k].phase.Verified? && sc.workers[k].claim.track == 0
    requires sc.now <= sc.workers[k].deadline
    requires sc.row.version == sc.workers[k].claim.row.version && sc.row.status == Pending
    ensures Reachable(c, v, timely, guarded) && Shows(v, sample, next)
    ensures var x := sc.workers[k];
      next == sc.(row := sc.row.(pendingKey := Some(RevisionKey(x.claim))),
                  workers := sc.workers[k := x.(phase := Noted(x.phase.file))])
  {
    hide Reachable, Retry, Claimable, SwapQueues, SwapOutcome, AfterSwap, AfterRelease, AfterClaim,
      GoodFile, NewUpload, InUse, Tags.Embeddable, Tags.FormatOf, AfterFail, EditOutcome,
      RewriteProtocol.DoPut, RewriteProtocol.DoSwap, RewriteProtocol.DoClaim;
    var s := Note(k, Heard);
    Next(c, w, s, timely, guarded);
    v := Apply(c, w, s);
    var x := sc.workers[k];
    next := sc.(row := sc.row.(pendingKey := Some(RevisionKey(x.claim))),
                workers := sc.workers[k := x.(phase := Noted(x.phase.file))]);
    assert v.db.tracks == map[0 := next.row];
  }

  lemma DoPut(c: Config, w: World, sample: Sample, sc: Scene, k: WorkerId, timely: bool, guarded: bool)
    returns (v: World, next: Scene)
    requires Reachable(c, w, timely, guarded) && Shows(w, sample, sc)
    requires k in sc.workers && sc.workers[k].phase.Noted? && sc.now <= sc.workers[k].deadline
    ensures Reachable(c, v, timely, guarded) && Shows(v, sample, next)
    ensures var x := sc.workers[k];
      next == sc.(stored := sc.stored + {RevisionKey(x.claim)}, workers := sc.workers[k := x.(phase := Stored(x.phase.file))])
  {
    hide Reachable, Retry, Claimable, SwapQueues, SwapOutcome, AfterSwap, AfterRecord, AfterRelease, AfterClaim,
      GoodFile, NewUpload, InUse, Tags.Embeddable, Tags.FormatOf, AfterFail, EditOutcome,
      RewriteProtocol.DoNote, RewriteProtocol.DoSwap, RewriteProtocol.DoClaim;
    var s := Put(k, true, true);
    Next(c, w, s, timely, guarded);
    v := Apply(c, w, s);
    var x := sc.workers[k];
    next := sc.(stored := sc.stored + {RevisionKey(x.claim)}, workers := sc.workers[k := x.(phase := Stored(x.phase.file))]);
    assert v.objects.Keys == next.stored;
  }

  /** From the claim to the confirmed upload. */
  lemma DoWork(c: Config, w: World, sample: Sample, sc: Scene, k: WorkerId, timely: bool, guarded: bool)
    returns (v: World, next: Scene)
    requires Fine(c, sample) && Reachable(c, w, timely, guarded) && Shows(w, sample, sc)
    requires Claimable(sc.row, sc.now) && sc.row.attempts < c.maxAttempts && k !in sc.workers && sc.collector.Idle?
    requires sc.row.pendingKey == None && sc.row.storageKey == FIRST && FIRST in sc.stored
    requires sc.row.size == |sample.data| && sc.row.meta == sample.meta
    ensures Reachable(c, v, timely, guarded) && Shows(v, sample, next)
    ensures var row := TakeLease(sc.row, sc.now, c.lease, c.maxAttempts); var key := Revision(0, row.version, row.attempts);
      next == sc.(row := row.(pendingKey := Some(key)), stored := sc.stored + {key},
                  workers := sc.workers[k := Worker(Claim(0, row), sc.now + c.lease, Stored(sample.file))])
  {
    hide Reachable, Shows, Fine, TrackTable.Used;
    var w1, sc1 := DoClaimOnly(c, w, sample, sc, k, timely, guarded);
    ShowsName(w, sample, sc);
    var w2, sc2 := DoRewrite(c, w1, sample, sc1, k, timely, guarded);
    var w3, sc3 := DoNote(c, w2, sample, sc2, k, timely, guarded);
    v, next := DoPut(c, w3, sample, sc3, k, timely, guarded);
    var row := TakeLease(sc.row, sc.now, c.lease, c.maxAttempts);
    assert next.workers == sc.workers[k := Worker(Claim(0, row), sc.now + c.lease, Stored(sample.file))];
    assert sc1.queued == sc.queued;
  }

  lemma ShowsName(w: World, sample: Sample, sc: Scene)
    requires Shows(w, sample, sc)
    ensures sc.row.fileName == sample.name && sc.row.ready && sc.row.owner == 0
  {
  }

  /** An edit came in between: the swap finds a newer version and lets go of
      the lease. */
  lemma DoConflict(c: Config, w: World, sample: Sample, sc: Scene, k: WorkerId, timely: bool, guarded: bool)
    returns (v: World, next: Scene)
    requires Reachable(c, w, timely, guarded) && Shows(w, sample, sc) && sc.collector.Idle?
    requires k in sc.workers && sc.workers[k].phase.Stored? && sc.now <= sc.workers[k].deadline
    requires sc.workers[k].claim.track == 0 && sc.workers[k].claim.row.owner == 0
    requires sc.row.version != sc.workers[k].claim.row.version && sc.row.pendingKey == Some(RevisionKey(sc.workers[k].claim))
    ensures Reachable(c, v, timely, guarded) && Shows(v, sample, next)
    ensures var x := sc.workers[k];
      next == sc.(row := sc.row.(pendingKey := None, claimedUntil := None), queued := sc.queued + {RevisionKey(x.claim)},
                  workers := sc.workers[k := x.(phase := Superseded(true))])
  {
    hide Reachable, Retry, Claimable, AfterRecord, AfterRelease, AfterClaim, Used, GrowthRefused,
      GoodFile, NewUpload, InUse, Tags.Embeddable, Tags.FormatOf, AfterFail, EditOutcome,
      RewriteProtocol.DoNote, RewriteProtocol.DoPut, RewriteProtocol.DoClaim;
    var s := Swap(k, Heard);
    Next(c, w, s, timely, guarded);
    v := Apply(c, w, s);
    var x := sc.workers[k];
    next := sc.(row := sc.row.(pendingKey := None, claimedUntil := None), queued := sc.queued + {RevisionKey(x.claim)},
                workers := sc.workers[k := x.(phase := Superseded(true))]);
    assert v.db.tracks == map[0 := next.row];
    assert v.db.garbage.Keys == next.queued;
  }

  lemma DoRelease(c: Config, w: World, sample: Sample, sc: Scene, k: WorkerId, timely: bool) returns (v: World, next: Scene)
    requires Reachable(c, w, timely, false) && Shows(w, sample, sc)
    requires k in sc.workers && sc.workers[k].phase.Superseded? && sc.now <= sc.workers[k].deadline
    requires sc.workers[k].claim.track == 0
    ensures Reachable(c, v, timely, false) && Shows(v, sample, next)
    ensures next == sc.(row := sc.row.(claimedUntil := None), workers := sc.workers - {k})
  {
    hide Reachable, Claimable, SwapQueues, SwapOutcome, AfterSwap, AfterRecord, AfterClaim,
      GoodFile, NewUpload, InUse, Tags.Embeddable, Tags.FormatOf, AfterFail, EditOutcome,
      RewriteProtocol.DoNote, RewriteProtocol.DoPut, RewriteProtocol.DoSwap, RewriteProtocol.DoClaim;
    var s := Release(k);
    Next(c, w, s, timely, false);
    v := Apply(c, w, s);
    next := sc.(row := sc.row.(claimedUntil := None), workers := sc.workers - {k});
    assert v.db.tracks == map[0 := next.row];
  }

  /** The collector's query and its first removal. */
  lemma DoCollect(c: Config, w: World, sample: Sample, sc: Scene, key: Key, timely: bool, guarded: bool)
    returns (v: World, next: Scene)
    requires Reachable(c, w, timely, guarded) && Shows(w, sample, sc) && sc.collector.Idle? && c.garbageBatch >= 1
    requires key in sc.queued && sc.row.storageKey != key && sc.row.pendingKey != Some(key) && key != FIRST
    ensures Reachable(c, v, timely, guarded) && Shows(v, sample, next)
    ensures next == sc.(stored := sc.stored - {key}, collector := Collecting({key}, {}))
  {
    hide Reachable, Claimable, SwapQueues, SwapOutcome, AfterSwap, AfterRecord, AfterRelease, AfterClaim,
      GoodFile, NewUpload, Tags.Embeddable, Tags.FormatOf, AfterFail, EditOutcome,
      RewriteProtocol.DoNote, RewriteProtocol.DoPut, RewriteProtocol.DoSwap, RewriteProtocol.DoClaim;
    var s := CollectCheck({key});
    Next(c, w, s, timely, guarded);
    var w1 := Apply(c, w, s);
    assert !InUse(w.db.tracks, key);
    assert w1.collector == Collecting({key}, {key});
    var t := CollectRemove(key);
    Next(c, w1, t, timely, guarded);
    v := Apply(c, w1, t);
    next := sc.(stored := sc.stored - {key}, collector := Collecting({key}, {}));
    assert v.objects.Keys == next.stored;
    assert {key} - {key} == {};
  }

  lemma UsedByOne(row: Row)
    ensures Used(map[0 := row], row.owner) == row.size
  {
    var none: Rows := map[];
    UsedAfterInsert(none, row.owner, 0, row);
    assert none[0 := row] == map[0 := row];
  }

  lemma DoSwapped(c: Config, w: World, sample: Sample, sc: Scene, k: WorkerId, timely: bool, guarded: bool)
    returns (v: World)
    requires Reachable(c, w, timely, guarded) && Shows(w, sample, sc)
    requires k in sc.workers && sc.workers[k].phase.Stored? && (timely ==> sc.now <= sc.workers[k].deadline)
    requires sc.workers[k].claim.track == 0 && sc.workers[k].claim.row.owner == 0
    requires var seen := sc.workers[k].claim.row;
      sc.row.version == seen.version && sc.row.storageKey == seen.storageKey == FIRST && sc.row.status == Pending
    requires |sc.workers[k].phase.file| <= c.maxOwnerBytes && |sc.workers[k].phase.file| < INT64_LIMIT
    requires sc.collector.Collecting? ==> FIRST !in sc.collector.batch
    ensures Reachable(c, v, timely, guarded) && Enabled(c, w, Swap(k, Heard)) && v == Apply(c, w, Swap(k, Heard))
    ensures Checked(c, w, Swap(k, Heard)) <==> sc.row.pendingKey == Some(RevisionKey(sc.workers[k].claim))
    ensures 0 in v.db.tracks && v.db.tracks[0].ready && v.db.tracks[0].storageKey == RevisionKey(sc.workers[k].claim)
    ensures v.objects.Keys == sc.stored && v.db.tracks[0].status == Written
  {
    hide Reachable, Retry, Used, Claimable, AfterRecord, AfterRelease, AfterClaim,
      GoodFile, NewUpload, InUse, Tags.Embeddable, Tags.FormatOf, AfterFail, EditOutcome,
      RewriteProtocol.DoNote, RewriteProtocol.DoPut, RewriteProtocol.DoClaim;
    UsedByOne(sc.row);
    WrapFits(0);
    WrapFits(|sc.workers[k].phase.file|);
    hide Wrap;
    var s := Swap(k, Heard);
    Next(c, w, s, timely, guarded);
    v := Apply(c, w, s);
  }

  // ----- The two runs -----

  predicate Lost(w: World, id: TrackId) {
    id in w.db.tracks && w.db.tracks[id].ready && w.db.tracks[id].storageKey !in w.objects
  }

  /** The row's lease column is empty or holds the worker's own deadline: what
      a worker could ask of the row before it releases. */
  predicate OwnLease(w: World, worker: WorkerId)
    requires worker in w.workers
  {
    var x := w.workers[worker];
    x.claim.track in w.db.tracks ==>
      w.db.tracks[x.claim.track].claimedUntil == None || w.db.tracks[x.claim.track].claimedUntil == Some(x.deadline)
  }

  /** Worker 1 was refused by the row and has yet to release; worker 2 has
      claimed since and stored its file. */
  predicate BothAtWork(c: Config, sample: Sample, sc: Scene, gap: nat) {
    && sc.now == gap && sc.collector.Idle? && FIRST in sc.stored
    && sc.row.version == 3 && sc.row.attempts == 1 && sc.row.status == Pending && sc.row.ready && sc.row.owner == 0
    && sc.row.storageKey == FIRST && sc.row.notBefore == None
    && sc.row.claimedUntil == Some(gap + c.lease) && sc.row.pendingKey == Some(Revision(0, 3, 1))
    && 1 in sc.workers && 2 in sc.workers && 3 !in sc.workers
    && sc.workers[1].claim.track == 0 && sc.workers[1].phase == Superseded(true) && sc.workers[1].deadline == c.lease
    && sc.workers[2] == Worker(Claim(0, sc.row.(pendingKey := None)), gap + c.lease, Stored(sample.file))
  }

  lemma ReachBothAtWork(c: Config, sample: Sample, gap: nat) returns (a: World, sc: Scene)
    requires c.u.Agrees() && Roomy(c) && Fine(c, sample) && gap <= c.lease
    ensures Reachable(c, a, true, false) && Shows(a, sample, sc) && BothAtWork(c, sample, sc, gap)
  {
    hide Reachable, Shows, Fine;
    var w0, sc0 := Begin(c, sample, true, false);
    var w1, sc1 := DoEdit(c, w0, sample, sc0, true, false);
    var w2, sc2 := DoWork(c, w1, sample, sc1, 1, true, false);
    var w3, sc3 := DoEdit(c, w2, sample, sc2, true, false);
    var w4, sc4 := DoConflict(c, w3, sample, sc3, 1, true, false);
    var w5, sc5 := DoTick(c, w4, sample, sc4, gap, true, false);
    a, sc := DoWork(c, w5, sample, sc5, 2, true, false);
  }

  lemma ReleaseTakesAway(c: Config, w: World, sample: Sample, sc: Scene, gap: nat)
    requires Shows(w, sample, sc) && BothAtWork(c, sample, sc, gap) && gap <= c.lease
    ensures Enabled(c, w, Release(1)) && Foreign(w, Release(1)) && 1 in w.workers && (OwnLease(w, 1) <==> gap == 0)
  {
    hide NewUpload, GoodFile, Claimable, SwapQueues, InUse;
    assert Holds(w, w.workers[2]);
  }

  lemma TakeAwayAndCollect(c: Config, w: World, sample: Sample, sc: Scene, gap: nat) returns (v: World, next: Scene)
    requires Roomy(c) && gap <= c.lease && Reachable(c, w, true, false) && Shows(w, sample, sc) && BothAtWork(c, sample, sc, gap)
    ensures Reachable(c, v, true, false) && Shows(v, sample, next)
    ensures next.row.pendingKey == None && next.row.version == 3 && next.row.storageKey == FIRST && next.row.status == Pending
    ensures 2 in next.workers && next.workers[2].phase == Stored(sample.file) && next.now <= next.workers[2].deadline
    ensures var claim := next.workers[2].claim;
      && claim.track == 0 && claim.row.owner == 0 && claim.row.version == 3 && claim.row.storageKey == FIRST
      && RevisionKey(claim) == Revision(0, 3, 1)
    ensures next.collector == Collecting({Revision(0, 3, 1)}, {}) && Revision(0, 3, 1) !in next.stored
  {
    hide Reachable, Shows;
    var w1, sc1 := DoRelease(c, w, sample, sc, 1, true);
    var w2, sc2 := DoClaimOnly(c, w1, sample, sc1, 3, true, false);
    v, next := DoCollect(c, w2, sample, sc2, Revision(0, 3, 1), true, false);
  }

  /** Every worker keeps within its lease, yet a track loses its object. An
      edit makes one worker's swap conflict, which gives its lease up; `gap`
      later a second worker claims; the first then releases "its" lease once
      more (world a), which takes the second one's away; a third claims and
      queues the object the second has uploaded; the collector removes it; the
      second swaps it in (world b) although the row no longer names its key.
      Only when gap is 0 does the row look to the first worker as if the lease
      were its own. */
  lemma ForeignReleaseLosesAnObject(c: Config, gap: nat) returns (a: World, b: World, w: World)
    requires c.u.Agrees() && Roomy(c) && gap <= c.lease
    ensures Reachable(c, a, true, false) && Enabled(c, a, Release(1)) && Foreign(a, Release(1))
    ensures OwnLease(a, 1) <==> gap == 0
    ensures Reachable(c, b, true, false) && Enabled(c, b, Swap(2, Heard)) && !Checked(c, b, Swap(2, Heard))
    ensures Reachable(c, w, true, false) && w == Apply(c, b, Swap(2, Heard)) && Lost(w, 0)
  {
    hide Reachable, Shows, Fine, Enabled, Apply, Foreign, Checked, OwnLease, BothAtWork;
    var sample := SmallSample(c);
    var w1, sc1 := ReachBothAtWork(c, sample, gap);
    ReleaseTakesAway(c, w1, sample, sc1, gap);
    var w2, sc2 := TakeAwayAndCollect(c, w1, sample, sc1, gap);
    a, b := w1, w2;
    w := DoSwapped(c, w2, sample, sc2, 2, true, false);
  }

  /** Releases are harmless, but one worker swaps after its lease ran out
      (world b), when the row no longer names its key. */
  lemma LateSwapLosesAnObject(c: Config) returns (b: World, w: World)
    requires c.u.Agrees() && Roomy(c)
    ensures Reachable(c, b, false, true) && Enabled(c, b, Swap(1, Heard)) && !Checked(c, b, Swap(1, Heard))
    ensures Reachable(c, w, false, true) && w == Apply(c, b, Swap(1, Heard)) && Lost(w, 0)
  {
    hide Reachable, Shows, Fine, Enabled, Apply, Checked;
    var sample := SmallSample(c);
    var w0, sc0 := Begin(c, sample, false, true);
    var w1, sc1 := DoEdit(c, w0, sample, sc0, false, true);
    var w2, sc2 := DoWork(c, w1, sample, sc1, 1, false, true);
    var w3, sc3 := DoTick(c, w2, sample, sc2, c.lease + 1, false, true);
    var w4, sc4 := DoClaimOnly(c, w3, sample, sc3, 2, false, true);
    var w5, sc5 := DoCollect(c, w4, sample, sc4, Revision(0, 2, 1), false, true);
    b := w5;
    w := DoSwapped(c, w5, sample, sc5, 1, false, true);
  }

  /** Runs that meet both conditions exist, and can write an edit. */
  lemma SomeRunWrites(c: Config) returns (w: World)
    requires c.u.Agrees() && Roomy(c)
    ensures Reachable(c, w, true, true) && 0 in w.db.tracks && w.db.tracks[0].status == Written
  {
    hide Reachable, Shows, Fine, Enabled, Apply, Checked;
    var sample := SmallSample(c);
    var w0, sc0 := Begin(c, sample, true, true);
    var w1, sc1 := DoEdit(c, w0, sample, sc0, true, true);
    var w2, sc2 := DoWork(c, w1, sample, sc1, 1, true, true);
    w := DoSwapped(c, w2, sample, sc2, 1, true, true);
  }

  /** The upload fails and nothing has landed. */
  lemma DoUploadFails(c: Config, w: World, sample: Sample, sc: Scene, k: WorkerId, timely: bool, guarded: bool)
    returns (v: World, next: Scene)
    requires Reachable(c, w, timely, guarded) && Shows(w, sample, sc)
    requires k in sc.workers && sc.workers[k].phase.Noted? && sc.now <= sc.workers[k].deadline
    ensures Reachable(c, v, timely, guarded) && Shows(v, sample, next)
    ensures var x := sc.workers[k];
      next == sc.(workers := sc.workers[k :=
        x.(phase := Failing(Retry(c, x.claim, "upload_failed", Some(RevisionKey(x.claim))), false))])
  {
    hide Reachable, Retry, Claimable, SwapQueues, SwapOutcome, AfterSwap, AfterRecord, AfterRelease, AfterClaim,
      GoodFile, NewUpload, InUse, Tags.Embeddable, Tags.FormatOf, AfterFail, EditOutcome,
      RewriteProtocol.DoNote, RewriteProtocol.DoSwap, RewriteProtocol.DoClaim;
    var s := Put(k, false, false);
    Next(c, w, s, timely, guarded);
    v := Apply(c, w, s);
    var x := sc.workers[k];
    next := sc.(workers := sc.workers[k :=
      x.(phase := Failing(Retry(c, x.claim, "upload_failed", Some(RevisionKey(x.claim))), false))]);
  }

  /** The failure is recorded, to be retried. */
  lemma DoFail(c: Config, w: World, sample: Sample, sc: Scene, k: WorkerId, timely: bool, guarded: bool)
    returns (v: World, next: Scene)
    requires Reachable(c, w, timely, guarded) && Shows(w, sample, sc) && sc.collector.Idle?
    requires k in sc.workers && sc.workers[k].phase.Failing? && sc.now <= sc.workers[k].deadline && sc.workers[k].claim.track == 0
    requires sc.row.version == sc.workers[k].claim.row.version && sc.row.status == Pending
    requires var failure := sc.workers[k].phase.failure; failure.uploaded.Some? && failure.retryAfter > 0 && !failure.unsupported
    ensures Reachable(c, v, timely, guarded) && Shows(v, sample, next)
    ensures var failure := sc.workers[k].phase.failure;
      next == sc.(row := sc.row.(error := Some(failure.code), pendingKey := None, claimedUntil := None,
                                 notBefore := Some(sc.now + failure.retryAfter)),
                  queued := sc.queued + {failure.uploaded.value}, workers := sc.workers - {k})
  {
    hide Reachable, Retry, Claimable, SwapQueues, SwapOutcome, AfterSwap, AfterRecord, AfterRelease, AfterClaim,
      GoodFile, NewUpload, InUse, Tags.Embeddable, Tags.FormatOf, EditOutcome,
      RewriteProtocol.DoNote, RewriteProtocol.DoPut, RewriteProtocol.DoSwap, RewriteProtocol.DoClaim;
    var s := RecordFailure(k);
    Next(c, w, s, timely, guarded);
    v := Apply(c, w, s);
    var failure := sc.workers[k].phase.failure;
    next := sc.(row := sc.row.(error := Some(failure.code), pendingKey := None, claimedUntil := None,
                               notBefore := Some(sc.now + failure.retryAfter)),
                queued := sc.queued + {failure.uploaded.value}, workers := sc.workers - {k});
    assert v.db.tracks == map[0 := next.row];
    assert v.db.garbage.Keys == next.queued;
  }

  /** An attempt whose upload failed (world a) is retried after the delay, and
      not before, and the retry brings the track to "written". */
  lemma FailureIsRetriedAndWritten(c: Config) returns (a: World, w: World)
    requires c.u.Agrees() && Roomy(c) && c.retryDelay > 0
    ensures Reachable(c, a, true, true) && Reachable(c, w, true, true)
    ensures 0 in a.db.tracks && a.db.tracks[0].error == Some("upload_failed") && a.db.tracks[0].attempts == 1
    ensures forall t: int :: Claimable(a.db.tracks[0], t) <==> t >= a.now + c.retryDelay
    ensures 0 in w.db.tracks && w.db.tracks[0].status == Written && w.db.tracks[0].storageKey == Revision(0, 2, 2)
  {
    hide Reachable, Shows, Fine, Enabled, Apply, Checked;
    var sample := SmallSample(c);
    var w4, sc4 := ReachNoted(c, sample);
    var w5, sc5 := DoUploadFails(c, w4, sample, sc4, 1, true, true);
    var w6, sc6 := DoFail(c, w5, sample, sc5, 1, true, true);
    assert w6.db.tracks[0] == sc6.row && w6.now == sc6.now by {
      ShowsRow(w6, sample, sc6);
    }
    var w7, sc7 := DoTick(c, w6, sample, sc6, c.retryDelay, true, true);
    var w8, sc8 := DoWork(c, w7, sample, sc7, 2, true, true);
    a := w6;
    w := DoSwapped(c, w8, sample, sc8, 2, true, true);
  }

  lemma ReachNoted(c: Config, sample: Sample) returns (w: World, sc: Scene)
    requires c.u.Agrees() && Roomy(c) && Fine(c, sample)
    ensures Reachable(c, w, true, true) && Shows(w, sample, sc)
    ensures var row := NewRow(sample).(version := 2, status := Pending, attempts := 1, claimedUntil := Some(0 + c.lease));
      sc == Scene(0, row.(pendingKey := Some(Revision(0, 2, 1))), {FIRST}, {},
                  map[1 := Worker(Claim(0, row), 0 + c.lease, Noted(sample.file))], Idle)
  {
    hide Reachable, Shows, Fine;
    var w0, sc0 := Begin(c, sample, true, true);
    var w1, sc1 := DoEdit(c, w0, sample, sc0, true, true);
    var w2, sc2 := DoClaimOnly(c, w1, sample, sc1, 1, true, true);
    var w3, sc3 := DoRewrite(c, w2, sample, sc2, 1, true, true);
    w, sc := DoNote(c, w3, sample, sc3, 1, true, true);
    var row := TakeLease(sc1.row, 0, c.lease, c.maxAttempts);
    assert sc.workers == map[1 := Worker(Claim(0, row), 0 + c.lease, Noted(sample.file))];
    assert sc.queued == {};
  }

  lemma ShowsRow(w: World, sample: Sample, sc: Scene)
    requires Shows(w, sample, sc)
    ensures 0 in w.db.tracks && w.db.tracks[0] == sc.row && w.now == sc.now
  {
  }

  /** With both conditions, no run does this. */
  lemma BothConditionsSuffice(c: Config, w: World, id: TrackId)
    requires Reachable(c, w, true, true)
    ensures !Lost(w, id)
  {
    hide Initial, Enabled, Apply, Timely, Foreign;
    var worlds, steps :| Happens(c, worlds, steps, true, true) && worlds[|steps|] == w;
    assert Run(c, worlds, steps);
    if Lost(w, id) {
      NothingIsLost(c, worlds, steps, |steps|, id);
    }
  }

  // ----- What a worker could check instead -----

  predicate HasLease(db: Db, x: Worker) {
    x.claim.track in db.tracks && db.tracks[x.claim.track].claimedUntil == Some(x.deadline)
  }

  /** Another live worker's lease ends at the same instant as this one's. */
  ghost predicate SharedDeadline(w: World, worker: WorkerId)
    requires worker in w.workers
  {
    exists y :: y in w.workers && y != worker && Holds(w, w.workers[y])
      && w.workers[y].claim.track == w.workers[worker].claim.track && w.workers[y].deadline == w.workers[worker].deadline
  }

  /** The lease in the row is that of another live worker. */
  ghost predicate LeaseOfAnother(w: World, worker: WorkerId)
    requires worker in w.workers
  {
    exists y :: y in w.workers && y != worker && Holds(w, w.workers[y])
      && w.workers[y].claim.track == w.workers[worker].claim.track && HasLease(w.db, w.workers[y])
  }

  /** A release leaves every other live worker the lease it counts on exactly
      when the row's lease is no other live worker's; when the row shows no
      lease or the releaser's own deadline, that is so unless both share it. */
  lemma ReleaseIsHarmlessIff(c: Config, w: World, worker: WorkerId)
    requires Inv(c, w) && worker in w.workers && w.workers[worker].phase.Superseded?
    ensures (forall x :: x in w.workers && x != worker && Holds(w, w.workers[x]) ==>
        HasLease(AfterRelease(w.db, w.workers[worker].claim.track), w.workers[x])) <==>
      !Foreign(w, Release(worker))
    ensures Foreign(w, Release(worker)) <==> LeaseOfAnother(w, worker)
    ensures OwnLease(w, worker) ==> (Foreign(w, Release(worker)) <==> SharedDeadline(w, worker))
  {
    hide Inv;
    forall x | x in w.workers && Holds(w, w.workers[x])
      ensures HasLease(w.db, w.workers[x])
    {
      HolderHolds(c, w, x);
    }
    if Foreign(w, Release(worker)) {
      var y :| y in w.workers && y != worker && Holds(w, w.workers[y]) &&
        w.workers[y].claim.track == w.workers[worker].claim.track;
      assert !HasLease(AfterRelease(w.db, w.workers[worker].claim.track), w.workers[y]);
    }
  }

  /** A run in which workers keep within their leases and look at the row before
      they release. */
  ghost predicate Guarded(c: Config, w: World, s: Step) {
    && Enabled(c, w, s) && Timely(w, s)
    && (s.Release? ==> OwnLease(w, s.worker) && !SharedDeadline(w, s.worker))
  }

  ghost predicate GuardedRun(c: Config, worlds: seq<World>, steps: seq<Step>) {
    && |worlds| == |steps| + 1 && Initial(c, worlds[0])
    && forall i :: 0 <= i < |steps| ==> Guarded(c, worlds[i], steps[i]) && worlds[i + 1] == Apply(c, worlds[i], steps[i])
  }

  lemma {:induction false} GuardedRunKeepsInv(c: Config, worlds: seq<World>, steps: seq<Step>, i: nat)
    requires GuardedRun(c, worlds, steps) && i < |worlds|
    ensures Inv(c, worlds[i]) && (i < |steps| ==> Allowed(c, worlds[i], steps[i]))
  {
    hide Inv, Apply, Initial, Enabled, Timely, Foreign, OwnLease, SharedDeadline;
    if i == 0 {
      InitialInv(c, worlds[0]);
    } else {
      GuardedRunKeepsInv(c, worlds, steps, i - 1);
      StepKeeps(c, worlds[i - 1], steps[i - 1]);
    }
    if i < |steps| {
      assert Guarded(c, worlds[i], steps[i]);
      GuardedIsAllowed(c, worlds[i], steps[i]);
    }
  }

  lemma GuardedIsAllowed(c: Config, w: World, s: Step)
    requires Inv(c, w) && Guarded(c, w, s)
    ensures Allowed(c, w, s)
  {
    hide Inv, OwnLease, SharedDeadline, Apply, Timely;
    if s.Release? {
      ReleaseIsHarmlessIff(c, w, s.worker);
    }
  }

  /** Such a run meets both conditions, so everything proved of runs holds. */
  lemma GuardedRunIsRun(c: Config, worlds: seq<World>, steps: seq<Step>)
    requires GuardedRun(c, worlds, steps)
    ensures Run(c, worlds, steps)
  {
    hide Inv, Apply, Initial, Allowed;
    forall i | 0 <= i < |steps|
      ensures Allowed(c, worlds[i], steps[i])
    {
      GuardedRunKeepsInv(c, worlds, steps, i);
    }
  }

  /** A worker that learned before its upload that it was superseded still has
      the lease to itself: only the release after a conflicting swap can be
      foreign. */
  lemma EarlyReleaseIsOwn(c: Config, w: World, worker: WorkerId)
    requires Inv(c, w) && worker in w.workers && w.workers[worker].phase == Superseded(false)
    requires w.now <= w.workers[worker].deadline
    ensures !Foreign(w, Release(worker))
  {
    hide Inv;
    forall y | y in w.workers && y != worker && w.workers[y].claim.track == w.workers[worker].claim.track
      ensures !Holds(w, w.workers[y])
    {
      Alone(c, w, worker, y);
    }
  }
}

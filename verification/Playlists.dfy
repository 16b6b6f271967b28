/** Collaborative playlists: who may add, reorder and take out which tracks. */
module Playlists {
  import opened Filtering
  import opened Options

  type UserId = nat
  type TrackId = nat
  type PlaylistId = nat
  type Token = string

  datatype Track = Track(owner: UserId, ready: bool)

  /** tracks are in the order of their positions. */
  datatype Playlist = Playlist(owner: UserId, collabToken: Option<Token>, members: set<UserId>, tracks: seq<TrackId>)

  datatype Tables = Tables(playlists: map<PlaylistId, Playlist>, tracks: map<TrackId, Track>)

  datatype Outcome = Done | NotFound | Forbidden | Taken

  predicate CanEdit(p: Playlist, user: UserId) {
    p.owner == user || user in p.members
  }

  predicate OwnedBy(tracks: map<TrackId, Track>, t: TrackId, user: UserId) {
    t in tracks && tracks[t].owner == user
  }

  // ----- Replacing a playlist's tracks -----

  /** What a caller may put into the playlist: their own ready tracks, and
      what is in it already. */
  predicate MayInsert(tracks: map<TrackId, Track>, p: Playlist, user: UserId, t: TrackId) {
    t in tracks && tracks[t].ready && (tracks[t].owner == user || t in p.tracks)
  }

  /** Someone else's track that the new list leaves out. */
  predicate Drops(tracks: map<TrackId, Track>, p: Playlist, user: UserId, ids: seq<TrackId>) {
    user != p.owner && exists t :: t in p.tracks && t !in ids && !OwnedBy(tracks, t, user)
  }

  predicate Distinct(ids: seq<TrackId>) {
    forall i, j :: 0 <= i < j < |ids| ==> ids[i] != ids[j]
  }

  /** The first row of ids that cannot be inserted decides the error. */
  function InsertOutcome(tracks: map<TrackId, Track>, p: Playlist, user: UserId, ids: seq<TrackId>, i: nat): Outcome
    requires i <= |ids|
    decreases |ids| - i
  {
    if i == |ids| then Done
    else if !MayInsert(tracks, p, user, ids[i]) then NotFound
    else if ids[i] in ids[..i] then Taken
    else InsertOutcome(tracks, p, user, ids, i + 1)
  }

  function ReplaceOutcome(db: Tables, user: UserId, id: PlaylistId, ids: seq<TrackId>): Outcome {
    if id !in db.playlists || !CanEdit(db.playlists[id], user) then NotFound
    else if Drops(db.tracks, db.playlists[id], user, ids) then Forbidden
    else InsertOutcome(db.tracks, db.playlists[id], user, ids, 0)
  }

  function AfterReplace(db: Tables, user: UserId, id: PlaylistId, ids: seq<TrackId>): Tables {
    if ReplaceOutcome(db, user, id, ids) == Done
    then db.(playlists := db.playlists[id := db.playlists[id].(tracks := ids)])
    else db
  }

  // ----- Membership -----

  function Without(tracks: map<TrackId, Track>, list: seq<TrackId>, user: UserId): seq<TrackId> {
    if list == [] then []
    else (if OwnedBy(tracks, list[0], user) then [] else [list[0]]) + Without(tracks, list[1..], user)
  }

  predicate TokenFree(playlists: map<PlaylistId, Playlist>, id: PlaylistId, token: Option<Token>) {
    token.Some? ==> forall other :: other in playlists && other != id ==> playlists[other].collabToken != token
  }

  function TokenOutcome(db: Tables, owner: UserId, id: PlaylistId, token: Option<Token>): Outcome {
    if id !in db.playlists || db.playlists[id].owner != owner then NotFound
    else if !TokenFree(db.playlists, id, token) then Taken
    else Done
  }

  function AfterToken(db: Tables, owner: UserId, id: PlaylistId, token: Option<Token>): Tables {
    if TokenOutcome(db, owner, id, token) == Done
    then db.(playlists := db.playlists[id := db.playlists[id].(collabToken := token)])
    else db
  }

  function AfterJoin(db: Tables, user: UserId, id: PlaylistId): Tables
    requires id in db.playlists
  {
    var p := db.playlists[id];
    if p.owner == user then db else db.(playlists := db.playlists[id := p.(members := p.members + {user})])
  }

  function RemoveOutcome(db: Tables, actor: UserId, id: PlaylistId, member: UserId): Outcome {
    if id !in db.playlists || !CanEdit(db.playlists[id], actor) then NotFound
    else if actor != db.playlists[id].owner && actor != member then Forbidden
    else if member !in db.playlists[id].members then NotFound
    else Done
  }

  function AfterRemove(db: Tables, actor: UserId, id: PlaylistId, member: UserId): Tables {
    if RemoveOutcome(db, actor, id, member) == Done then
      var p := db.playlists[id];
      db.(playlists := db.playlists[id := p.(members := p.members - {member}, tracks := Without(db.tracks, p.tracks, member))])
    else db
  }

  // ----- The store -----

  class Store {
    var playlists: map<PlaylistId, Playlist>
    var tracks: map<TrackId, Track>

    function Contents(): Tables
      reads this
    {
      Tables(playlists, tracks)
    }

    constructor (db: Tables)
      ensures Contents() == db
    {
      playlists, tracks := db.playlists, db.tracks;
    }

    /** Deletes the rows and inserts the new ones; an error on the way rolls
        everything back. */
    method ReplaceTracks(user: UserId, id: PlaylistId, ids: seq<TrackId>) returns (outcome: Outcome)
      modifies this`playlists
      ensures outcome == ReplaceOutcome(old(Contents()), user, id, ids)
      ensures Contents() == AfterReplace(old(Contents()), user, id, ids)
    {
      if id !in playlists || !CanEdit(playlists[id], user) {
        return NotFound;
      }
      var before, p := playlists, playlists[id];
      var dropped := FindDropped(p, user, ids);
      if dropped {
        return Forbidden;
      }
      var rows: seq<TrackId> := [];
      playlists := playlists[id := p.(tracks := rows)];
      for i := 0 to |ids|
        invariant rows == ids[..i] && playlists == before[id := p.(tracks := rows)]
        invariant InsertOutcome(tracks, p, user, ids, 0) == InsertOutcome(tracks, p, user, ids, i)
      {
        if ids[i] !in tracks || !tracks[ids[i]].ready || !(tracks[ids[i]].owner == user || ids[i] in p.tracks) {
          playlists := before;
          return NotFound;
        }
        if ids[i] in rows {
          playlists := before;
          return Taken;
        }
        rows := rows + [ids[i]];
        playlists := playlists[id := p.(tracks := rows)];
      }
      assert ids[..|ids|] == ids;
      outcome := Done;
    }

    method FindDropped(p: Playlist, user: UserId, ids: seq<TrackId>) returns (dropped: bool)
      ensures dropped == Drops(tracks, p, user, ids)
    {
      for i := 0 to |p.tracks|
        invariant forall k :: 0 <= k < i ==> p.tracks[k] in ids || user == p.owner || OwnedBy(tracks, p.tracks[k], user)
      {
        if p.tracks[i] !in ids && user != p.owner && !OwnedBy(tracks, p.tracks[i], user) {
          return true;
        }
      }
      dropped := false;
    }

    method SetCollabToken(owner: UserId, id: PlaylistId, token: Option<Token>) returns (outcome: Outcome)
      modifies this`playlists
      ensures outcome == TokenOutcome(old(Contents()), owner, id, token)
      ensures Contents() == AfterToken(old(Contents()), owner, id, token)
    {
      if id !in playlists || playlists[id].owner != owner {
        return NotFound;
      }
      if token.Some? && exists other :: other in playlists && other != id && playlists[other].collabToken == token {
        return Taken;
      }
      playlists := playlists[id := playlists[id].(collabToken := token)];
      outcome := Done;
    }

    /** Joins the playlist that has the link, if any. */
    method Join(user: UserId, token: Token) returns (joined: Option<PlaylistId>)
      modifies this`playlists
      ensures joined.None? ==> Contents() == old(Contents())
      ensures joined.None? ==> forall id :: id in playlists ==> playlists[id].collabToken != Some(token)
      ensures joined.Some? ==>
        && joined.value in old(playlists) && old(playlists)[joined.value].collabToken == Some(token)
        && Contents() == AfterJoin(old(Contents()), user, joined.value)
    {
      if !exists id :: id in playlists && playlists[id].collabToken == Some(token) {
        return None;
      }
      var id :| id in playlists && playlists[id].collabToken == Some(token);
      var p := playlists[id];
      if p.owner != user {
        playlists := playlists[id := p.(members := p.members + {user})];
      }
      joined := Some(id);
    }

    method RemoveMember(actor: UserId, id: PlaylistId, member: UserId) returns (outcome: Outcome)
      modifies this`playlists
      ensures outcome == RemoveOutcome(old(Contents()), actor, id, member)
      ensures Contents() == AfterRemove(old(Contents()), actor, id, member)
    {
      if id !in playlists || !CanEdit(playlists[id], actor) {
        return NotFound;
      }
      var p := playlists[id];
      if actor != p.owner && actor != member {
        return Forbidden;
      }
      if member !in p.members {
        return NotFound;
      }
      var kept := DeleteOwned(p.tracks, member);
      playlists := playlists[id := p.(members := p.members - {member}, tracks := kept)];
      outcome := Done;
    }

    /** The playlist's rows without those of one user's tracks. */
    method DeleteOwned(list: seq<TrackId>, user: UserId) returns (kept: seq<TrackId>)
      ensures kept == Without(tracks, list, user)
    {
      kept := [];
      for i := 0 to |list|
        invariant kept == Without(tracks, list[..i], user)
      {
        assert list[..i + 1] == list[..i] + [list[i]];
        WithoutAppend(tracks, list[..i], [list[i]], user);
        if list[i] !in tracks || tracks[list[i]].owner != user {
          kept := kept + [list[i]];
        }
      }
      assert list[..|list|] == list;
    }
  }

  // ----- What a call does and does not do -----

  lemma {:induction false} InsertsAllIff(tracks: map<TrackId, Track>, p: Playlist, user: UserId, ids: seq<TrackId>, i: nat)
    requires i <= |ids| && Distinct(ids[..i])
    ensures InsertOutcome(tracks, p, user, ids, i) == Done <==>
      Distinct(ids) && forall k :: i <= k < |ids| ==> MayInsert(tracks, p, user, ids[k])
    decreases |ids| - i
  {
    hide MayInsert;
    if i < |ids| {
      assert ids[..i + 1] == ids[..i] + [ids[i]];
      if ids[i] in ids[..i] {
        var k :| 0 <= k < i && ids[..i][k] == ids[i];
        assert ids[k] == ids[i];
      } else {
        InsertsAllIff(tracks, p, user, ids, i + 1);
      }
    } else {
      assert ids[..i] == ids;
    }
  }

  /** A replacement goes through exactly when the caller may edit, the list
      names no track twice, everything in it is the caller's own or already
      there, and nothing of somebody else's is left out by a mere member. Then
      the list is exactly what was asked for; otherwise nothing changes. */
  lemma ReplaceIsExact(db: Tables, user: UserId, id: PlaylistId, ids: seq<TrackId>)
    ensures ReplaceOutcome(db, user, id, ids) == Done <==>
      && id in db.playlists && CanEdit(db.playlists[id], user) && Distinct(ids)
      && (forall t :: t in ids ==> MayInsert(db.tracks, db.playlists[id], user, t))
      && (user != db.playlists[id].owner ==>
          forall t :: t in db.playlists[id].tracks && !OwnedBy(db.tracks, t, user) ==> t in ids)
    ensures var after := AfterReplace(db, user, id, ids);
      && after.tracks == db.tracks && after.playlists.Keys == db.playlists.Keys
      && (forall other :: other in db.playlists && other != id ==> after.playlists[other] == db.playlists[other])
      && (ReplaceOutcome(db, user, id, ids) == Done ==>
          after.playlists[id] == db.playlists[id].(tracks := ids))
      && (ReplaceOutcome(db, user, id, ids) != Done ==> after == db)
  {
    hide MayInsert, OwnedBy;
    if id in db.playlists && CanEdit(db.playlists[id], user) {
      InsertsAllIff(db.tracks, db.playlists[id], user, ids, 0);
    }
  }

  /** Removing a member keeps everybody else's tracks, in order. */
  lemma {:induction false} WithoutKeepsOthers(tracks: map<TrackId, Track>, list: seq<TrackId>, user: UserId)
    ensures forall t :: t in Without(tracks, list, user) <==> t in list && !OwnedBy(tracks, t, user)
    ensures Distinct(list) ==> Distinct(Without(tracks, list, user))
  {
    hide OwnedBy;
    if list != [] {
      var rest := Without(tracks, list[1..], user);
      WithoutKeepsOthers(tracks, list[1..], user);
      if Distinct(list) {
        assert Distinct(list[1..]);
        forall t | t in rest
          ensures t != list[0]
        {
          var k :| 0 <= k < |list| - 1 && list[1..][k] == t;
          assert list[k + 1] == t;
        }
      }
    }
  }

  lemma {:induction false} WithoutAppend(tracks: map<TrackId, Track>, a: seq<TrackId>, b: seq<TrackId>, user: UserId)
    ensures Without(tracks, a + b, user) == Without(tracks, a, user) + Without(tracks, b, user)
  {
    hide OwnedBy;
    if a == [] {
      assert a + b == b;
    } else {
      assert (a + b)[1..] == a[1..] + b;
      WithoutAppend(tracks, a[1..], b, user);
    }
  }

  /** The tracks that are not this user's. */
  function NotOf(tracks: map<TrackId, Track>, user: UserId): TrackId -> bool {
    (t: TrackId) => !OwnedBy(tracks, t, user)
  }

  lemma {:induction false} WithoutIsFiltered(tracks: map<TrackId, Track>, list: seq<TrackId>, user: UserId)
    ensures IsFilter<TrackId>(list, NotOf(tracks, user), Without(tracks, list, user))
  {
    hide OwnedBy, IsFilter;
    var keep := NotOf(tracks, user);
    if list == [] {
      FilterNone<TrackId>(keep);
    } else {
      WithoutIsFiltered(tracks, list[1..], user);
      FilterMore<TrackId>(list[0], list[1..], keep, Without(tracks, list[1..], user));
      assert [list[0]] + list[1..] == list;
    }
  }

  // ----- Who may edit after a call -----

  /** Nothing but playlist id changes. */
  predicate OnlyTouches(db: Tables, after: Tables, id: PlaylistId) {
    && id in db.playlists && after.tracks == db.tracks && after.playlists.Keys == db.playlists.Keys
    && forall other :: other in db.playlists && other != id ==> after.playlists[other] == db.playlists[other]
  }

  /** The right to edit changes for one user at most. */
  ghost predicate RightsOf(was: Playlist, now: Playlist, user: UserId, may: bool) {
    && now.owner == was.owner && now.collabToken == was.collabToken
    && CanEdit(now, user) == may
    && forall other :: other != user ==> CanEdit(now, other) == CanEdit(was, other)
  }

  /** Joining gives the right to edit, to the one who joins and nobody else. */
  lemma JoinLetsEdit(db: Tables, user: UserId, id: PlaylistId)
    requires id in db.playlists
    ensures var after := AfterJoin(db, user, id);
      && OnlyTouches(db, after, id) && RightsOf(db.playlists[id], after.playlists[id], user, true)
      && after.playlists[id].tracks == db.playlists[id].tracks
      && (CanEdit(db.playlists[id], user) ==> after == db)
  {
    var p := db.playlists[id];
    if user in p.members {
      assert p.members + {user} == p.members;
    }
  }

  /** The owner may remove any member and a member may leave; nobody else, and
      nobody who is not a member. Who is out can no longer edit and takes their
      tracks along, and everybody else's rights and tracks are as before. */
  lemma RemovalEndsEditing(db: Tables, actor: UserId, id: PlaylistId, member: UserId)
    requires id in db.playlists ==> db.playlists[id].owner !in db.playlists[id].members
    ensures var after := AfterRemove(db, actor, id, member); var outcome := RemoveOutcome(db, actor, id, member);
      && (outcome == Done <==>
          id in db.playlists && member in db.playlists[id].members && (actor == db.playlists[id].owner || actor == member))
      && (outcome != Done ==> after == db)
      && (outcome == Done ==>
          && OnlyTouches(db, after, id) && RightsOf(db.playlists[id], after.playlists[id], member, false)
          && IsFilter<TrackId>(db.playlists[id].tracks, NotOf(db.tracks, member), after.playlists[id].tracks))
  {
    hide IsFilter, OwnedBy;
    if RemoveOutcome(db, actor, id, member) == Done {
      WithoutIsFiltered(db.tracks, db.playlists[id].tracks, member);
    }
  }

  /** Only the owner sets or clears the link, and no two playlists share one.
      Then the old link leads nowhere, and whoever joined by it stays. */
  lemma OldLinkStopsWorking(db: Tables, owner: UserId, id: PlaylistId, token: Option<Token>)
    requires forall a, b :: a in db.playlists && b in db.playlists && a != b && db.playlists[a].collabToken.Some? ==>
      db.playlists[a].collabToken != db.playlists[b].collabToken
    ensures var after := AfterToken(db, owner, id, token);
      if id in db.playlists && db.playlists[id].owner == owner &&
        (token.None? || forall other :: other in db.playlists && other != id ==> db.playlists[other].collabToken != token)
      then
        && TokenOutcome(db, owner, id, token) == Done && OnlyTouches(db, after, id)
        && after.playlists[id] == db.playlists[id].(collabToken := token)
        && (db.playlists[id].collabToken.Some? && db.playlists[id].collabToken != token ==>
              forall other :: other in after.playlists ==> after.playlists[other].collabToken != db.playlists[id].collabToken)
      else TokenOutcome(db, owner, id, token) != Done && after == db
  {
  }

  // ----- All runs -----

  datatype Step =
    | NewTrack(track: TrackId, owner: UserId)
    | TrackReady(track: TrackId)
    | DeleteTrack(track: TrackId)
    | Create(id: PlaylistId, owner: UserId)
    | SaveCopies(id: PlaylistId, owner: UserId, copies: seq<TrackId>)
    | Delete(id: PlaylistId)
    | SetToken(owner: UserId, id: PlaylistId, token: Option<Token>)
    | Join(user: UserId, id: PlaylistId)
    | Remove(actor: UserId, id: PlaylistId, member: UserId)
    | Replace(user: UserId, id: PlaylistId, ids: seq<TrackId>)

  predicate Enabled(db: Tables, s: Step) {
    match s
    case NewTrack(t, owner) => t !in db.tracks
    case TrackReady(t) => t in db.tracks
    case Create(id, owner) => id !in db.playlists
    case SaveCopies(id, owner, copies) =>
      // The copies were reserved for the owner just before, one for each
      // track of the shared playlist.
      id !in db.playlists && Distinct(copies) && forall t :: t in copies ==> OwnedBy(db.tracks, t, owner)
    case Join(user, id) => id in db.playlists
    case _ => true
  }

  function DropTrack(list: seq<TrackId>, t: TrackId): (r: seq<TrackId>)
    ensures forall k :: k in r <==> k in list && k != t
    ensures Distinct(list) ==> Distinct(r)
  {
    if list == [] then []
    else
      var rest := DropTrack(list[1..], t);
      assert forall k :: k in list <==> k == list[0] || k in list[1..];
      assert Distinct(list) ==> Distinct(list[1..]) && list[0] !in list[1..];
      if list[0] == t then rest else [list[0]] + rest
  }

  function Apply(db: Tables, s: Step): Tables
    requires Enabled(db, s)
  {
    match s
    case NewTrack(t, owner) => db.(tracks := db.tracks[t := Track(owner, false)])
    case TrackReady(t) => db.(tracks := db.tracks[t := db.tracks[t].(ready := true)])
    case DeleteTrack(t) =>
      Tables(map id | id in db.playlists :: db.playlists[id].(tracks := DropTrack(db.playlists[id].tracks, t)), db.tracks - {t})
    case Create(id, owner) => db.(playlists := db.playlists[id := Playlist(owner, None, {}, [])])
    case SaveCopies(id, owner, copies) =>
      Tables(db.playlists[id := Playlist(owner, None, {}, copies)],
             map t | t in db.tracks :: if t in copies then db.tracks[t].(ready := true) else db.tracks[t])
    case Delete(id) => db.(playlists := db.playlists - {id})
    case SetToken(owner, id, token) => AfterToken(db, owner, id, token)
    case Join(user, id) => AfterJoin(db, user, id)
    case Remove(actor, id, member) => AfterRemove(db, actor, id, member)
    case Replace(user, id, ids) => AfterReplace(db, user, id, ids)
  }

  /** Every track is ready, there once, and its owner's or a current member's. */
  predicate Proper(tracks: map<TrackId, Track>, p: Playlist) {
    && Distinct(p.tracks) && p.owner !in p.members
    && forall t :: t in p.tracks ==> t in tracks && tracks[t].ready && CanEdit(p, tracks[t].owner)
  }

  ghost predicate Inv(db: Tables) {
    && (forall id :: id in db.playlists ==> Proper(db.tracks, db.playlists[id]))
    && (forall a, b :: a in db.playlists && b in db.playlists && a != b && db.playlists[a].collabToken.Some? ==>
          db.playlists[a].collabToken != db.playlists[b].collabToken)
  }

  lemma StepKeepsInv(db: Tables, s: Step)
    requires Inv(db) && Enabled(db, s)
    ensures Inv(Apply(db, s))
  {
    var after := Apply(db, s);
    match s
    case NewTrack(_, _) =>
    case TrackReady(_) =>
    case DeleteTrack(_) =>
    case Create(_, _) =>
    case SaveCopies(_, _, _) =>
    case Delete(_) =>
    case SetToken(owner, id, token) => TokenKeepsInv(db, owner, id, token);
    case Join(_, _) =>
    case Remove(actor, id, member) => RemoveKeepsInv(db, actor, id, member);
    case Replace(user, id, ids) => ReplaceKeepsInv(db, user, id, ids);
  }

  lemma TokenKeepsInv(db: Tables, owner: UserId, id: PlaylistId, token: Option<Token>)
    requires Inv(db)
    ensures Inv(AfterToken(db, owner, id, token))
  {
    hide Distinct;
  }

  lemma RemoveKeepsInv(db: Tables, actor: UserId, id: PlaylistId, member: UserId)
    requires Inv(db)
    ensures Inv(AfterRemove(db, actor, id, member))
  {
    hide Distinct;
    if RemoveOutcome(db, actor, id, member) == Done {
      var p := db.playlists[id];
      WithoutKeepsOthers(db.tracks, p.tracks, member);
      assert Proper(db.tracks, p);
      assert Proper(db.tracks, AfterRemove(db, actor, id, member).playlists[id]);
    }
  }

  lemma ReplaceKeepsInv(db: Tables, user: UserId, id: PlaylistId, ids: seq<TrackId>)
    requires Inv(db)
    ensures Inv(AfterReplace(db, user, id, ids))
  {
    hide ReplaceOutcome, Distinct;
    ReplaceIsExact(db, user, id, ids);
    if ReplaceOutcome(db, user, id, ids) == Done {
      assert Proper(db.tracks, db.playlists[id]);
      assert Proper(db.tracks, AfterReplace(db, user, id, ids).playlists[id]);
    }
  }

  /** In every reachable state each track in a playlist belongs to its owner or
      to a current member. */
  lemma PlaylistsStayProper(states: seq<Tables>, steps: seq<Step>, i: nat)
    requires |states| == |steps| + 1 && i < |states| && states[0] == Tables(map[], map[])
    requires forall j :: 0 <= j < |steps| ==> Enabled(states[j], steps[j]) && states[j + 1] == Apply(states[j], steps[j])
    ensures Inv(states[i])
  {
    hide Enabled, Apply, Proper;
    var n := 0;
    while n < i
      invariant n <= i && Inv(states[n])
    {
      StepKeepsInv(states[n], steps[n]);
      n := n + 1;
    }
  }

  /** Between two states of a playlist, a track can only have gone with its
      deletion, by its owner, by the playlist's owner, or with its owner's
      membership. */
  lemma TracksLeaveRightfully(db: Tables, s: Step, id: PlaylistId, t: TrackId)
    requires Inv(db) && Enabled(db, s) && id in db.playlists && t in db.playlists[id].tracks
    requires id in Apply(db, s).playlists && t !in Apply(db, s).playlists[id].tracks
    ensures var p, owner := db.playlists[id], db.tracks[t].owner;
      || s == DeleteTrack(t)
      || (s.Replace? && s.id == id && (s.user == p.owner || s.user == owner))
      || (s.Remove? && s.id == id && s.member == owner && (s.actor == p.owner || s.actor == owner))
  {
    hide InsertOutcome;
    assert Proper(db.tracks, db.playlists[id]);
    match s
    case Remove(actor, at, member) =>
      if at == id {
        WithoutKeepsOthers(db.tracks, db.playlists[id].tracks, member);
      }
    case _ =>
  }
}

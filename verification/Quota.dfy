/** The storage quota: every way bytes enter an owner's library, in the 64-bit
    arithmetic of the program, and that the sum never exceeds the limit. */
module Quota {
  import opened Int64
  import opened Options
  import opened TrackTable
  import TagStore
  import T = TagText

  datatype Reservation = Reserved | TooManyPending | QuotaExceeded | OwnAlready

  /** What is reserved for an upload or a copy. */
  datatype Item = Item(id: TrackId, fileName: string, meta: T.Metadata, size: nat)

  function PendingRow(owner: Owner, item: Item): Row {
    Row(owner, item.fileName, false, item.meta, Upload(item.id), item.size, 1, Untouched, None, None, 0, None, None, None)
  }

  function Total(items: seq<Item>): nat {
    if items == [] then 0 else items[0].size + Total(items[1..])
  }

  /** How many of an owner's uploads are not complete. */
  function PendingOf(rows: Rows, owner: Owner): nat {
    |Incomplete(rows, owner)|
  }

  function Incomplete(rows: Rows, owner: Owner): set<TrackId> {
    set id | id in rows && rows[id].owner == owner && !rows[id].ready
  }

  function Insert(rows: Rows, owner: Owner, items: seq<Item>): Rows
    decreases |items|
  {
    if items == [] then rows else Insert(rows[items[0].id := PendingRow(owner, items[0])], owner, items[1..])
  }

  /** The store picks ids it has never used. */
  predicate Fresh(rows: Rows, items: seq<Item>) {
    && (forall i :: 0 <= i < |items| ==> items[i].id !in rows)
    && (forall i, j :: 0 <= i < j < |items| ==> items[i].id != items[j].id)
  }

  // ----- Decisions -----

  ghost function ReserveDecision(rows: Rows, owner: Owner, size: nat, limit: int, maxPending: nat): Reservation {
    if PendingOf(rows, owner) >= maxPending then TooManyPending
    else if Used(rows, owner) > limit || size > limit - Used(rows, owner) then QuotaExceeded
    else Reserved
  }

  /** All copies of a shared playlist at once; their sizes are added up in 64
      bits. */
  ghost function CopyDecision(rows: Rows, owner: Owner, from: Owner, items: seq<Item>, limit: int): Reservation {
    if from == owner then OwnAlready
    else if Used(rows, owner) > limit || Wrap(Total(items)) > limit - Used(rows, owner) then QuotaExceeded
    else Reserved
  }

  // ----- The operations -----

  class Library {
    var rows: Rows

    constructor ()
      ensures rows == map[]
    {
      rows := map[];
    }

    method CountPending(owner: Owner) returns (n: nat)
      ensures n == PendingOf(rows, owner)
    {
      n := |Incomplete(rows, owner)|;
    }

    method ReservePending(owner: Owner, item: Item, limit: int, maxPending: nat) returns (r: Reservation)
      requires item.id !in rows && 0 <= limit < INT64_LIMIT
      modifies this
      ensures r == ReserveDecision(old(rows), owner, item.size, limit, maxPending)
      ensures rows == if r == Reserved then old(rows)[item.id := PendingRow(owner, item)] else old(rows)
    {
      var used := SumSizes(rows, owner);
      var pending := CountPending(owner);
      if pending >= maxPending {
        return TooManyPending;
      }
      if used > limit || item.size > limit - used {
        return QuotaExceeded;
      }
      rows := rows[item.id := PendingRow(owner, item)];
      r := Reserved;
    }

    /** Reserves every copy of a shared playlist under one lock, or none. */
    method ReserveCopies(owner: Owner, from: Owner, items: seq<Item>, limit: int) returns (r: Reservation)
      requires Fresh(rows, items) && 0 <= limit < INT64_LIMIT
      modifies this
      ensures r == CopyDecision(old(rows), owner, from, items, limit)
      ensures rows == if r == Reserved then Insert(old(rows), owner, items) else old(rows)
    {
      if from == owner {
        return OwnAlready;
      }
      var used := SumSizes(rows, owner);
      var needed := 0;
      assert items[..0] == [];
      for i := 0 to |items|
        modifies {}
        invariant needed == Wrap(Total(items[..i]))
      {
        TotalAppend(items, i);
        WrapAdds(Total(items[..i]), items[i].size);
        needed := Wrap(needed + items[i].size);
      }
      assert items[..|items|] == items;
      if used > limit || needed > limit - used {
        return QuotaExceeded;
      }
      ghost var before := rows;
      assert items[0..] == items;
      for i := 0 to |items|
        invariant Insert(rows, owner, items[i..]) == Insert(before, owner, items)
      {
        assert items[i..][1..] == items[i + 1..];
        rows := rows[items[i].id := PendingRow(owner, items[i])];
      }
      assert items[|items|..] == [];
      r := Reserved;
    }

    /** Copies a shared playlist's audio after reserving it. When the copy at
        index `broken` fails, the reservations are taken back. */
    method SaveShared(owner: Owner, from: Owner, items: seq<Item>, limit: int, broken: nat)
      returns (r: Reservation, saved: bool)
      requires Fresh(rows, items) && 0 <= limit < INT64_LIMIT
      modifies this
      ensures r == CopyDecision(old(rows), owner, from, items, limit)
      ensures saved <==> r == Reserved && broken >= |items|
      ensures rows == if saved then Completed(Insert(old(rows), owner, items), Ids(items)) else old(rows)
    {
      hide CopyDecision;
      r := ReserveCopies(owner, from, items, limit);
      if r != Reserved {
        return r, false;
      }
      InsertKeys(old(rows), owner, items);
      if broken < |items| {
        Discard(items);
        TakenBack(old(rows), owner, items);
        return r, false;
      }
      FinishCopies(items);
      saved := true;
    }

    /** Copies one track: reserved under the quota, then ready once its audio is
        copied, or taken back. */
    method SaveTrackCopy(owner: Owner, from: Owner, item: Item, limit: int, copied: bool) returns (r: Reservation, saved: bool)
      requires item.id !in rows && item.size < INT64_LIMIT && 0 <= limit < INT64_LIMIT
      modifies this
      ensures r == CopyDecision(old(rows), owner, from, [item], limit)
      ensures saved <==> r == Reserved && copied
      ensures rows == if saved then old(rows)[item.id := PendingRow(owner, item).(ready := true)] else old(rows)
    {
      if from == owner {
        return OwnAlready, false;
      }
      var used := SumSizes(rows, owner);
      TotalOfOne(item);
      if used > limit || item.size > limit - used {
        return QuotaExceeded, false;
      }
      rows := rows[item.id := PendingRow(owner, item)];
      if !copied {
        rows := rows - {item.id};
        assert rows == old(rows);
        return Reserved, false;
      }
      rows := rows[item.id := rows[item.id].(ready := true)];
      return Reserved, true;
    }

    /** Removes abandoned reservations. When storage fails on the object at
        index `broken`, no row goes. */
    method CleanupStalePending(stale: seq<TrackId>, broken: nat) returns (removed: nat, ok: bool)
      requires forall i :: 0 <= i < |stale| ==> stale[i] in rows && !rows[stale[i]].ready
      modifies this
      ensures ok <==> broken >= |stale|
      ensures rows == if ok then old(rows) - (set id | id in stale) else old(rows)
      ensures removed == if ok then |stale| else broken
    {
      var before := rows;
      removed := 0;
      for i := 0 to |stale|
        invariant i <= broken && removed == i && rows == before - (set id | id in stale[..i])
      {
        if i == broken {
          rows := before;
          return removed, false;
        }
        assert stale[..i + 1] == stale[..i] + [stale[i]];
        rows := rows - {stale[i]};
        removed := removed + 1;
      }
      assert stale[..|stale|] == stale;
      ok := true;
    }

    method Discard(items: seq<Item>)
      modifies this
      ensures rows == old(rows) - Ids(items)
    {
      var ids: set<TrackId> := {};
      for i := 0 to |items|
        invariant ids == Ids(items[..i]) && rows == old(rows) - ids
      {
        IdsAppend(items, i);
        ids := ids + {items[i].id};
        rows := rows - {items[i].id};
      }
      assert items[..|items|] == items;
    }

    method FinishCopies(items: seq<Item>)
      requires Ids(items) <= rows.Keys
      modifies this
      ensures rows == Completed(old(rows), Ids(items))
    {
      assert rows == Completed(rows, {});
      for i := 0 to |items|
        invariant rows == Completed(old(rows), Ids(items[..i]))
      {
        IdsAppend(items, i);
        assert items[i].id in Ids(items);
        rows := rows[items[i].id := rows[items[i].id].(ready := true)];
      }
      assert items[..|items|] == items;
    }
  }

  /** The given rows marked ready. */
  function Completed(rows: Rows, ids: set<TrackId>): Rows {
    map id | id in rows :: if id in ids then rows[id].(ready := true) else rows[id]
  }

  lemma IdsAppend(items: seq<Item>, i: nat)
    requires i < |items|
    ensures Ids(items[..i + 1]) == Ids(items[..i]) + {items[i].id}
  {
    assert items[..i + 1] == items[..i] + [items[i]];
    assert items[..i + 1][i] == items[i];
    forall id | id in Ids(items[..i])
      ensures id in Ids(items[..i + 1])
    {
      var k :| 0 <= k < i && items[..i][k].id == id;
      assert items[..i + 1][k].id == id;
    }
  }

  lemma TakenBack(rows: Rows, owner: Owner, items: seq<Item>)
    requires Fresh(rows, items)
    ensures Insert(rows, owner, items) - Ids(items) == rows
  {
    InsertKeys(rows, owner, items);
  }

  function Ids(items: seq<Item>): set<TrackId> {
    set i | 0 <= i < |items| :: items[i].id
  }

  lemma {:induction false} TotalAppend(items: seq<Item>, i: nat)
    requires i < |items|
    ensures Total(items[..i + 1]) == Total(items[..i]) + items[i].size
  {
    if i == 0 {
      assert items[..1][1..] == [] && items[..0] == [];
    } else {
      TotalAppend(items[1..], i - 1);
      assert items[..i + 1][1..] == items[1..][..i];
      assert items[..i][1..] == items[1..][..i - 1];
    }
  }

  lemma TotalOfOne(item: Item)
    requires item.size < INT64_LIMIT
    ensures Wrap(Total([item])) == item.size
  {
    assert [item][1..] == [];
    WrapFits(item.size);
  }

  lemma {:induction false} InsertKeys(rows: Rows, owner: Owner, items: seq<Item>)
    requires Fresh(rows, items)
    ensures Insert(rows, owner, items).Keys == rows.Keys + Ids(items)
    ensures forall id :: id in rows ==> Insert(rows, owner, items)[id] == rows[id]
    decreases |items|
  {
    if items != [] {
      var next := rows[items[0].id := PendingRow(owner, items[0])];
      InsertKeys(next, owner, items[1..]);
      assert Ids(items) == {items[0].id} + Ids(items[1..]) by {
        forall id | id in Ids(items)
          ensures id == items[0].id || id in Ids(items[1..])
        {
          var i :| 0 <= i < |items| && items[i].id == id;
          assert i > 0 ==> items[1..][i - 1].id == id;
        }
      }
    }
  }

  lemma {:induction false} InsertedAre(rows: Rows, owner: Owner, items: seq<Item>, i: nat)
    requires Fresh(rows, items) && i < |items|
    ensures items[i].id in Insert(rows, owner, items)
    ensures Insert(rows, owner, items)[items[i].id] == PendingRow(owner, items[i])
    decreases |items|
  {
    var next := rows[items[0].id := PendingRow(owner, items[0])];
    if i > 0 {
      InsertedAre(next, owner, items[1..], i - 1);
    } else {
      InsertKeys(next, owner, items[1..]);
    }
  }

  /** A saved playlist adds one ready track to the saver's library for every
      copy, with its size and metadata and an object of its own, and changes no
      other track. */
  lemma SavedCopiesAre(rows: Rows, owner: Owner, items: seq<Item>)
    requires Fresh(rows, items)
    ensures var next := Completed(Insert(rows, owner, items), Ids(items));
      && (forall id :: id in next <==> id in rows || exists i :: 0 <= i < |items| && items[i].id == id)
      && (forall id :: id in rows ==> next[id] == rows[id])
      && forall i :: 0 <= i < |items| ==>
        var row := next[items[i].id];
        && row.owner == owner && row.ready && row.size == items[i].size && row.meta == items[i].meta
        && row.fileName == items[i].fileName && row.storageKey == Upload(items[i].id)
        && row.status == Untouched && row.pendingKey == None && row.claimedUntil == None
  {
    hide Insert;
    InsertKeys(rows, owner, items);
    forall i | 0 <= i < |items|
      ensures items[i].id in Insert(rows, owner, items)
      ensures Insert(rows, owner, items)[items[i].id] == PendingRow(owner, items[i])
    {
      InsertedAre(rows, owner, items, i);
    }
  }

  /** Reserving items charges exactly their total to their owner. */
  lemma {:induction false} UsedAfterItems(rows: Rows, owner: Owner, items: seq<Item>, other: Owner)
    requires Fresh(rows, items)
    ensures Used(Insert(rows, owner, items), other) == Used(rows, other) + (if other == owner then Total(items) else 0)
    decreases |items|
  {
    if items != [] {
      var row := PendingRow(owner, items[0]);
      UsedAfterInsert(rows, other, items[0].id, row);
      UsedAfterItems(rows[items[0].id := row], owner, items[1..], other);
    }
  }

  // ----- When the 64-bit comparisons mean what they should -----

  /** Saving a shared playlist keeps the owner within the quota exactly when
      the sizes add up to less than 2^63. */
  lemma CopiesKeepQuotaIff(rows: Rows, owner: Owner, from: Owner, items: seq<Item>, limit: int)
    requires Fresh(rows, items) && 0 <= limit < INT64_LIMIT && Used(rows, owner) <= limit
    requires CopyDecision(rows, owner, from, items, limit) == Reserved
    ensures Used(Insert(rows, owner, items), owner) <= limit <==> Total(items) < INT64_LIMIT
  {
    UsedAfterItems(rows, owner, items, owner);
    WrapFits(Total(items));
  }

  /** A reservation is made exactly when the owner has fewer than the allowed
      uploads incomplete and stays within the quota with it; then it is one
      more that is incomplete. */
  lemma ReservedIff(rows: Rows, owner: Owner, item: Item, limit: int, maxPending: nat, incomplete: set<TrackId>)
    requires item.id !in rows && limit >= 0
    requires forall id :: id in incomplete <==> id in rows && rows[id].owner == owner && !rows[id].ready
    ensures var next := rows[item.id := PendingRow(owner, item)];
      && ReserveDecision(rows, owner, item.size, limit, maxPending) ==
         (if |incomplete| >= maxPending then TooManyPending
          else if Used(next, owner) > limit then QuotaExceeded else Reserved)
      && PendingOf(next, owner) == |incomplete| + 1
  {
    hide Used;
    var next := rows[item.id := PendingRow(owner, item)];
    UsedAfterInsert(rows, owner, item.id, PendingRow(owner, item));
    assert Incomplete(rows, owner) == incomplete;
    assert Incomplete(next, owner) == incomplete + {item.id};
  }

  /** A shared save is made exactly when the playlist is somebody else's and
      its owner stays within the quota with all the copies, while their sizes
      add up to less than 2^63. */
  lemma CopiesReservedIff(rows: Rows, owner: Owner, from: Owner, items: seq<Item>, limit: int)
    requires Fresh(rows, items) && 0 <= limit < INT64_LIMIT && Total(items) < INT64_LIMIT
    ensures CopyDecision(rows, owner, from, items, limit) == Reserved <==>
      from != owner && Used(Insert(rows, owner, items), owner) <= limit
    ensures CopyDecision(rows, owner, from, items, limit) == OwnAlready <==> from == owner
  {
    UsedAfterItems(rows, owner, items, owner);
    WrapFits(Total(items));
  }

  /** The check of a rewrite that grew its file is exact, given the owner was
      within the quota, when the new total is less than 2^63; otherwise it
      always lets the file through. */
  lemma GrowthCheckExactIff(used: nat, size: nat, newSize: nat, limit: int)
    requires size <= used <= limit < INT64_LIMIT && size < newSize < INT64_LIMIT
    ensures (TagStore.GrowthRefused(used, size, newSize, limit) <==> used - size + newSize > limit) <==>
      used - size + newSize < INT64_LIMIT
  {
    WrapFits(used - size);
    var total := used - size + newSize;
    if total >= INT64_LIMIT {
      assert Wrap(total) == total - 2 * INT64_LIMIT;
    } else {
      WrapFits(total);
    }
  }

  /** A swapped-in rewrite keeps its owner within the quota exactly when the
      new total is less than 2^63. */
  lemma ResizeKeepsQuotaIff(rows: Rows, id: TrackId, next: Row, limit: int)
    requires 0 <= limit < INT64_LIMIT && id in rows && next.owner == rows[id].owner && next.size < INT64_LIMIT
    requires Used(rows, next.owner) <= limit
    requires !TagStore.GrowthRefused(Used(rows, next.owner), rows[id].size, next.size, limit)
    ensures Used(rows[id := next], next.owner) == Used(rows, next.owner) - rows[id].size + next.size
    ensures Used(rows[id := next], next.owner) <= limit <==> Used(rows[id := next], next.owner) < INT64_LIMIT
  {
    hide Used;
    UsedAfterUpdate(rows, next.owner, id, next);
    if next.size > rows[id].size {
      GrowthCheckExactIff(Used(rows, next.owner), rows[id].size, next.size, limit);
    }
  }

  // ----- What a shared playlist can add up to -----

  /** The rows a shared playlist showed are copied size for size. */
  ghost predicate CopiesOf(rows: Rows, sources: seq<TrackId>, items: seq<Item>) {
    && |sources| == |items|
    && (forall i :: 0 <= i < |sources| ==> sources[i] in rows && rows[sources[i]].size == items[i].size)
    && (forall i, j :: 0 <= i < j < |sources| ==> sources[i] != sources[j])
  }

  function OwnersOf(rows: Rows, sources: seq<TrackId>): set<Owner>
    requires forall i :: 0 <= i < |sources| ==> sources[i] in rows
  {
    set i | 0 <= i < |sources| :: rows[sources[i]].owner
  }

  /** The sizes of those sources that belong to one of the owners. */
  function SizeFor(rows: Rows, sources: seq<TrackId>, owners: set<Owner>): nat
    requires forall i :: 0 <= i < |sources| ==> sources[i] in rows
  {
    if sources == [] then 0
    else (if rows[sources[0]].owner in owners then rows[sources[0]].size else 0) + SizeFor(rows, sources[1..], owners)
  }

  lemma {:induction false} SizeForOneMore(rows: Rows, sources: seq<TrackId>, owners: set<Owner>, owner: Owner)
    requires owner !in owners && forall i :: 0 <= i < |sources| ==> sources[i] in rows
    ensures SizeFor(rows, sources, owners + {owner}) == SizeFor(rows, sources, owners) + SizeFor(rows, sources, {owner})
  {
    if sources != [] {
      SizeForOneMore(rows, sources[1..], owners, owner);
    }
  }

  lemma {:induction false} SizeForNone(rows: Rows, sources: seq<TrackId>)
    requires forall i :: 0 <= i < |sources| ==> sources[i] in rows
    ensures SizeFor(rows, sources, {}) == 0
  {
    if sources != [] {
      SizeForNone(rows, sources[1..]);
    }
  }

  /** One owner's distinct sources are no more than the owner has. */
  lemma {:induction false} SizeForOne(rows: Rows, sources: seq<TrackId>, owner: Owner)
    requires forall i :: 0 <= i < |sources| ==> sources[i] in rows
    requires forall i, j :: 0 <= i < j < |sources| ==> sources[i] != sources[j]
    ensures SizeFor(rows, sources, {owner}) <= Used(rows, owner)
    decreases |sources|
  {
    hide Used;
    if sources != [] {
      var first, rest := sources[0], sources[1..];
      UsedWithout(rows, owner, first);
      forall i | 0 <= i < |rest|
        ensures rest[i] in rows - {first}
      {
        assert rest[i] == sources[i + 1];
      }
      SizeForOne(rows - {first}, rest, owner);
      SizeForFewerRows(rows, rows - {first}, rest, {owner});
    }
  }

  lemma {:induction false} SizeForFewerRows(rows: Rows, fewer: Rows, sources: seq<TrackId>, owners: set<Owner>)
    requires forall i :: 0 <= i < |sources| ==> sources[i] in rows && sources[i] in fewer && rows[sources[i]] == fewer[sources[i]]
    ensures SizeFor(rows, sources, owners) == SizeFor(fewer, sources, owners)
  {
    if sources != [] {
      SizeForFewerRows(rows, fewer, sources[1..], owners);
    }
  }

  lemma {:induction false} SizeForMany(rows: Rows, sources: seq<TrackId>, owners: set<Owner>, limit: nat)
    requires forall i :: 0 <= i < |sources| ==> sources[i] in rows
    requires forall i, j :: 0 <= i < j < |sources| ==> sources[i] != sources[j]
    requires WithinQuota(rows, limit)
    ensures SizeFor(rows, sources, owners) <= |owners| * limit
    decreases |owners|
  {
    hide Used;
    if owners == {} {
      SizeForNone(rows, sources);
    } else {
      var owner :| owner in owners;
      var rest := owners - {owner};
      SizeForMany(rows, sources, rest, limit);
      SizeForOneMore(rows, sources, rest, owner);
      SizeForOne(rows, sources, owner);
      assert Used(rows, owner) <= limit;
      assert rest + {owner} == owners && |owners| == |rest| + 1;
      assert (|rest| + 1) * limit == |rest| * limit + limit;
    }
  }

  lemma {:induction false} SizeForAll(rows: Rows, sources: seq<TrackId>, items: seq<Item>, owners: set<Owner>)
    requires |sources| == |items|
    requires forall i :: 0 <= i < |sources| ==>
      sources[i] in rows && rows[sources[i]].size == items[i].size && rows[sources[i]].owner in owners
    ensures Total(items) == SizeFor(rows, sources, owners)
  {
    if sources != [] {
      SizeForAll(rows, sources[1..], items[1..], owners);
    }
  }

  /** What a playlist shows adds up to no more than the quota for each owner
      who has a track in it. */
  lemma CopiesAreBounded(rows: Rows, sources: seq<TrackId>, items: seq<Item>, limit: nat)
    requires CopiesOf(rows, sources, items) && WithinQuota(rows, limit)
    ensures Total(items) <= |OwnersOf(rows, sources)| * limit
  {
    hide Used;
    forall i | 0 <= i < |sources|
      ensures rows[sources[i]].owner in OwnersOf(rows, sources)
    {
    }
    SizeForAll(rows, sources, items, OwnersOf(rows, sources));
    SizeForMany(rows, sources, OwnersOf(rows, sources), limit);
  }

  // ----- All runs -----

  /** A playlist is read first and reserved later: `seen` is the state of the
      run in which its tracks were read. */
  datatype Step =
    | Reserve(owner: Owner, item: Item)
    | SaveCopies(owner: Owner, from: Owner, items: seq<Item>, sources: seq<TrackId>, seen: nat)
    | Finish(ids: set<TrackId>)
    | Resize(id: TrackId, next: Row)
    | Remove(ids: set<TrackId>)

  ghost predicate Enabled(rows: Rows, s: Step, limit: int) {
    match s
    case Reserve(owner, item) => item.id !in rows && item.size < INT64_LIMIT
    case SaveCopies(owner, from, items, sources, seen) => Fresh(rows, items)
    case Finish(ids) => true
    case Resize(id, next) =>
      && id in rows && next.owner == rows[id].owner && next.size < INT64_LIMIT
      && !TagStore.GrowthRefused(Used(rows, next.owner), rows[id].size, next.size, limit)
    case Remove(ids) => true
  }

  ghost function Apply(rows: Rows, s: Step, limit: int, maxPending: nat): Rows {
    match s
    case Reserve(owner, item) =>
      if ReserveDecision(rows, owner, item.size, limit, maxPending) == Reserved
      then rows[item.id := PendingRow(owner, item)] else rows
    case SaveCopies(owner, from, items, _, _) =>
      if CopyDecision(rows, owner, from, items, limit) == Reserved then Insert(rows, owner, items) else rows
    case Finish(ids) => Completed(rows, ids)
    case Resize(id, next) => rows[id := next]
    case Remove(ids) => rows - ids
  }

  ghost predicate Run(states: seq<Rows>, steps: seq<Step>, limit: int, maxPending: nat) {
    && |states| == |steps| + 1 && states[0] == map[]
    && forall j :: 0 <= j < |steps| ==>
         && Enabled(states[j], steps[j], limit) && states[j + 1] == Apply(states[j], steps[j], limit, maxPending)
         && (steps[j].SaveCopies? ==> steps[j].seen <= j && CopiesOf(states[steps[j].seen], steps[j].sources, steps[j].items))
  }

  /** What rules overflow out beforehand: a shared playlist has tracks of so few
      owners, and a rewritten file is so short, that no sum reaches 2^63. */
  ghost predicate Moderate(states: seq<Rows>, s: Step, limit: int) {
    match s
    case SaveCopies(_, _, items, sources, seen) =>
      seen < |states| && CopiesOf(states[seen], sources, items) ==> |OwnersOf(states[seen], sources)| * limit < INT64_LIMIT
    case Resize(id, next) => limit + next.size < INT64_LIMIT
    case _ => true
  }

  ghost predicate WithinQuota(rows: Rows, limit: int) {
    forall owner :: Used(rows, owner) <= limit
  }

  lemma {:induction false} UsedOfFewer(rows: Rows, owner: Owner, ids: set<TrackId>)
    ensures Used(rows - ids, owner) <= Used(rows, owner)
    decreases |ids|
  {
    hide Used, Charge;
    if ids == {} {
      assert rows - ids == rows;
    } else {
      var id :| id in ids;
      var rest := ids - {id};
      UsedOfFewer(rows, owner, rest);
      assert rows - ids == (rows - rest) - {id};
      if id in rows {
        UsedWithout(rows - rest, owner, id);
      } else {
        assert rows - ids == rows - rest;
      }
    }
  }

  /** The sum only looks at owners and sizes. */
  lemma {:induction false} UsedOfSame(a: Rows, b: Rows, owner: Owner)
    requires a.Keys == b.Keys && forall id :: id in a ==> a[id].owner == b[id].owner && a[id].size == b[id].size
    ensures Used(a, owner) == Used(b, owner)
    decreases |a|
  {
    if a == map[] {
      assert b == map[];
    } else {
      var id :| id in a;
      UsedWithout(a, owner, id);
      UsedWithout(b, owner, id);
      UsedOfSame(a - {id}, b - {id}, owner);
    }
  }

  lemma StepKeepsQuota(rows: Rows, s: Step, limit: int, maxPending: nat)
    requires 0 <= limit < INT64_LIMIT && WithinQuota(rows, limit) && Enabled(rows, s, limit)
    requires s.SaveCopies? ==> Total(s.items) < INT64_LIMIT
    requires s.Resize? ==> limit + s.next.size < INT64_LIMIT
    ensures WithinQuota(Apply(rows, s, limit, maxPending), limit)
  {
    var next := Apply(rows, s, limit, maxPending);
    hide Used, Charge;
    forall owner
      ensures Used(next, owner) <= limit
    {
      assert Used(rows, owner) <= limit;
      match s
      case Reserve(who, item) =>
        if next != rows {
          UsedAfterInsert(rows, owner, item.id, PendingRow(who, item));
          OwnCharge(PendingRow(who, item), owner);
        }
      case SaveCopies(who, from, items, _, _) =>
        if next != rows {
          assert Used(rows, who) <= limit;
          UsedAfterItems(rows, who, items, owner);
          WrapFits(Total(items));
        }
      case Finish(ids) => UsedOfSame(rows, next, owner);
      case Resize(id, row) =>
        assert Used(rows, row.owner) <= limit;
        ResizeKeepsQuotaIff(rows, id, row, limit);
        if owner != row.owner {
          UsedAfterUpdate(rows, owner, id, row);
          OwnCharge(row, owner);
          OwnCharge(rows[id], owner);
        } else {
          UsedAfterUpdate(rows, owner, id, row);
        }
      case Remove(ids) => UsedOfFewer(rows, owner, ids);
    }
  }

  lemma OwnCharge(row: Row, owner: Owner)
    ensures Charge(row, owner) == if row.owner == owner then row.size else 0
  {
  }

  /** In every run of reservations, copies, finished and discarded uploads,
      rewrites, deletions and cleanups in which nothing is immoderate, no owner
      is ever over the quota. */
  lemma {:induction false} NeverOverQuota(states: seq<Rows>, steps: seq<Step>, limit: int, maxPending: nat, i: nat, owner: Owner)
    requires 0 <= limit < INT64_LIMIT && Run(states, steps, limit, maxPending) && i < |states|
    requires forall j :: 0 <= j < |steps| ==> Moderate(states, steps[j], limit)
    ensures Used(states[i], owner) <= limit
  {
    QuotaUpTo(states, steps, limit, maxPending, i);
  }

  lemma {:induction false} QuotaUpTo(states: seq<Rows>, steps: seq<Step>, limit: int, maxPending: nat, i: nat)
    requires 0 <= limit < INT64_LIMIT && Run(states, steps, limit, maxPending) && i < |states|
    requires forall j :: 0 <= j < |steps| ==> Moderate(states, steps[j], limit)
    ensures forall k :: 0 <= k <= i ==> WithinQuota(states[k], limit)
  {
    hide WithinQuota, Enabled, Apply, CopiesOf;
    if i == 0 {
      assert WithinQuota(states[0], limit) by {
        NothingUsed(limit);
      }
    } else {
      QuotaUpTo(states, steps, limit, maxPending, i - 1);
      var s := steps[i - 1];
      if s.SaveCopies? {
        CopiesAreBounded(states[s.seen], s.sources, s.items, limit);
      }
      StepKeepsQuota(states[i - 1], s, limit, maxPending);
    }
  }

  lemma NothingUsed(limit: int)
    requires limit >= 0
    ensures WithinQuota(map[], limit)
  {
  }

  /** Swapping a rewritten object in is such a resize, and leaves its owner
      within the quota exactly when the new total is less than 2^63. */
  lemma SwapIsResize(db: TagStore.Db, claim: TagStore.Claim, newKey: Key, newSize: nat, limit: int, grace: nat, now: int)
    requires 0 <= limit < INT64_LIMIT && WithinQuota(db.tracks, limit) && newSize < INT64_LIMIT
    requires TagStore.SwapOutcome(db, claim, newSize, limit) == TagStore.Swapped
    ensures claim.track in db.tracks
    ensures var row := db.tracks[claim.track]; var s := Resize(claim.track, TagStore.SwapIn(row, newKey, newSize));
      && Enabled(db.tracks, s, limit)
      && TagStore.AfterSwap(db, claim, newKey, newSize, grace, now, TagStore.Swapped).tracks == Apply(db.tracks, s, limit, 0)
      && (WithinQuota(Apply(db.tracks, s, limit, 0), limit) <==> Used(db.tracks, row.owner) - row.size + newSize < INT64_LIMIT)
  {
    hide Used;
    var row := db.tracks[claim.track];
    var next := TagStore.SwapIn(row, newKey, newSize);
    assert Used(db.tracks, row.owner) <= limit;
    ResizeKeepsQuotaIff(db.tracks, claim.track, next, limit);
    var after := db.tracks[claim.track := next];
    if Used(after, row.owner) < INT64_LIMIT {
      forall owner
        ensures Used(after, owner) <= limit
      {
        assert Used(db.tracks, owner) <= limit;
        if owner != row.owner {
          UsedAfterUpdate(db.tracks, owner, claim.track, next);
        }
      }
    }
  }

  // ----- An overflow that can be reached -----

  const HALF := INT64_LIMIT / 2

  function BigItem(id: TrackId, meta: T.Metadata): Item {
    Item(id, "a.mp3", meta, HALF)
  }

  /** Under any quota of at least 2^62 bytes: two owners each upload a track of
      2^62 bytes, and a third saves a playlist that has both. The sizes add up
      to a negative number, so both copies are reserved, over the quota. */
  lemma CopiesCanOverflow(limit: int, maxPending: nat, meta: T.Metadata) returns (states: seq<Rows>, steps: seq<Step>)
    requires HALF <= limit < INT64_LIMIT && maxPending > 0
    ensures Run(states, steps, limit, maxPending)
    ensures steps == [Reserve(1, BigItem(0, meta)), Reserve(2, BigItem(1, meta)), Finish({0, 1}),
                      SaveCopies(3, 1, [BigItem(2, meta), BigItem(3, meta)], [0, 1], 3)]
    ensures Used(states[3], 1) <= limit && Used(states[3], 2) <= limit && Used(states[3], 3) == 0
    ensures Used(states[4], 3) > limit
  {
    hide Used, CopyDecision, Insert, ReserveDecision;
    var a, b, items := BigItem(0, meta), BigItem(1, meta), [BigItem(2, meta), BigItem(3, meta)];
    steps := [Reserve(1, a), Reserve(2, b), Finish({0, 1}), SaveCopies(3, 1, items, [0, 1], 3)];
    var s0: Rows := map[];
    var s1 := s0[0 := PendingRow(1, a)];
    var s2 := s1[1 := PendingRow(2, b)];
    var s3 := Completed(s2, {0, 1});
    var s4 := Insert(s3, 3, items);
    states := [s0, s1, s2, s3, s4];
    assert Used(s0, 1) == 0 && Used(s0, 2) == 0 by {
      NothingUsed(0);
    }
    Uploaded(s0, 1, a, limit, maxPending);
    UsedAfterInsert(s0, 2, 0, PendingRow(1, a));
    Uploaded(s1, 2, b, limit, maxPending);
    TwoUploads(s1, s2, s3, a, b);
    Overflows(s3, items, limit);
  }

  lemma TwoUploads(s1: Rows, s2: Rows, s3: Rows, a: Item, b: Item)
    requires a.id == 0 && b.id == 1 && a.size == b.size == HALF
    requires s1 == map[0 := PendingRow(1, a)] && s2 == s1[1 := PendingRow(2, b)] && s3 == Completed(s2, {0, 1})
    ensures Used(s3, 1) == HALF && Used(s3, 2) == HALF && Used(s3, 3) == 0
  {
    hide Used;
    var s0: Rows := map[];
    assert s1 == s0[0 := PendingRow(1, a)];
    forall owner | 1 <= owner <= 3
      ensures Used(s3, owner) == if owner == 3 then 0 else HALF
    {
      assert Used(s0, owner) == 0 by {
        NothingUsed(0);
      }
      UsedAfterInsert(s0, owner, 0, PendingRow(1, a));
      UsedAfterInsert(s1, owner, 1, PendingRow(2, b));
      UsedOfSame(s2, s3, owner);
    }
  }

  lemma Overflows(rows: Rows, items: seq<Item>, limit: int)
    requires HALF <= limit < INT64_LIMIT && Used(rows, 3) == 0 && Fresh(rows, items)
    requires |items| == 2 && items[0].size == items[1].size == HALF
    ensures CopyDecision(rows, 3, 1, items, limit) == Reserved && Used(Insert(rows, 3, items), 3) > limit
  {
    hide Used;
    assert Total(items[1..]) == HALF + Total(items[1..][1..]) && items[1..][1..] == [];
    assert Total(items) == INT64_LIMIT;
    UsedAfterItems(rows, 3, items, 3);
  }

  lemma Uploaded(rows: Rows, owner: Owner, item: Item, limit: int, maxPending: nat)
    requires item.id !in rows && item.size == HALF <= limit && maxPending > 0
    requires Used(rows, owner) == 0 && forall id :: id in rows ==> rows[id].owner != owner
    ensures ReserveDecision(rows, owner, item.size, limit, maxPending) == Reserved
    ensures Used(rows[item.id := PendingRow(owner, item)], owner) == HALF
  {
    assert Incomplete(rows, owner) == {};
    UsedAfterInsert(rows, owner, item.id, PendingRow(owner, item));
  }
}

/** The rows of the tracks table, the keys they name in object storage, and the
    bytes an owner has used. */
module TrackTable {
  import opened Options
  import T = TagText

  type TrackId = nat
  type Owner = nat

  /** Where an object is stored: an upload, or what a rewrite made from one of
      a track's metadata versions in one of its attempts. The owner and the
      file name that are also part of the path only lengthen it. */
  datatype Key = Upload(track: TrackId) | Revision(track: TrackId, version: nat, attempt: nat)

  /** How a track's stored object relates to its edited metadata. */
  datatype TagStatus = Untouched | Pending | Written | Failed | NoWriter

  datatype Row = Row(
    owner: Owner, fileName: string, ready: bool, meta: T.Metadata, storageKey: Key, size: nat,
    version: nat, status: TagStatus, tagVersion: Option<nat>, error: Option<string>,
    attempts: nat, claimedUntil: Option<int>, notBefore: Option<int>, pendingKey: Option<Key>)

  type Rows = map<TrackId, Row>

  function Charge(row: Row, owner: Owner): nat {
    if row.owner == owner then row.size else 0
  }

  /** SUM(size_bytes) over an owner's rows. */
  ghost function Used(rows: Rows, owner: Owner): nat
    decreases |rows|
  {
    if rows == map[] then 0
    else
      var id :| id in rows;
      Charge(rows[id], owner) + Used(rows - {id}, owner)
  }

  /** The sum does not depend on the order in which the rows are visited. */
  lemma {:induction false} UsedWithout(rows: Rows, owner: Owner, id: TrackId)
    requires id in rows
    ensures Used(rows, owner) == Charge(rows[id], owner) + Used(rows - {id}, owner)
    decreases |rows|
  {
    var first :| id in rows && first in rows &&
      Used(rows, owner) == Charge(rows[first], owner) + Used(rows - {first}, owner);
    if first != id {
      UsedWithout(rows - {first}, owner, id);
      UsedWithout(rows - {id}, owner, first);
      assert rows - {first} - {id} == rows - {id} - {first};
    }
  }

  lemma UsedAfterInsert(rows: Rows, owner: Owner, id: TrackId, row: Row)
    requires id !in rows
    ensures Used(rows[id := row], owner) == Used(rows, owner) + Charge(row, owner)
  {
    UsedWithout(rows[id := row], owner, id);
    assert rows[id := row] - {id} == rows;
  }

  lemma UsedAfterUpdate(rows: Rows, owner: Owner, id: TrackId, row: Row)
    requires id in rows
    ensures Used(rows[id := row], owner) == Used(rows, owner) - Charge(rows[id], owner) + Charge(row, owner)
    ensures Charge(rows[id], owner) <= Used(rows, owner)
  {
    UsedWithout(rows, owner, id);
    UsedWithout(rows[id := row], owner, id);
    assert rows[id := row] - {id} == rows - {id};
  }

  /** The query behind the sum, visiting the rows in any order. */
  method SumSizes(rows: Rows, owner: Owner) returns (used: nat)
    ensures used == Used(rows, owner)
  {
    used := 0;
    var rest := rows;
    while rest != map[]
      invariant used + Used(rest, owner) == Used(rows, owner)
      decreases |rest|
    {
      var id :| id in rest;
      UsedWithout(rest, owner, id);
      used := used + Charge(rest[id], owner);
      rest := rest - {id};
    }
  }

  function Sizes(rows: Rows, ids: seq<TrackId>): nat
    requires forall i :: 0 <= i < |ids| ==> ids[i] in rows
  {
    if ids == [] then 0 else rows[ids[0]].size + Sizes(rows, ids[1..])
  }

  /** An owner is charged for all of their tracks, ready or not, each once and
      at its size, and for nobody else's. */
  lemma {:induction false} UsedIsTheSum(rows: Rows, owner: Owner, ids: seq<TrackId>)
    requires forall i, j :: 0 <= i < j < |ids| ==> ids[i] != ids[j]
    requires forall id :: id in ids <==> id in rows && rows[id].owner == owner
    ensures Used(rows, owner) == Sizes(rows, ids)
    decreases |ids|
  {
    if ids == [] {
      NothingUsed(rows, owner);
    } else {
      var first, rest := ids[0], ids[1..];
      UsedWithout(rows, owner, first);
      forall id
        ensures id in rest <==> id in rows - {first} && (rows - {first})[id].owner == owner
      {
        assert id in ids <==> id == first || id in rest;
      }
      UsedIsTheSum(rows - {first}, owner, rest);
      SizesWithout(rows, first, rest);
    }
  }

  lemma {:induction false} SizesWithout(rows: Rows, id: TrackId, ids: seq<TrackId>)
    requires id !in ids && forall i :: 0 <= i < |ids| ==> ids[i] in rows
    ensures Sizes(rows - {id}, ids) == Sizes(rows, ids)
  {
    if ids != [] {
      SizesWithout(rows, id, ids[1..]);
    }
  }

  lemma {:induction false} NothingUsed(rows: Rows, owner: Owner)
    requires forall id :: id in rows ==> rows[id].owner != owner
    ensures Used(rows, owner) == 0
    decreases |rows|
  {
    if rows != map[] {
      var id :| id in rows;
      UsedWithout(rows, owner, id);
      NothingUsed(rows - {id}, owner);
    }
  }
}

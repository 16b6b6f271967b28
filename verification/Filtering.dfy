/** What it means to drop some elements of a list and keep the others as they
    are and in their order. */
module Filtering {
  /** at says where in `before` each element of `after` comes from: at rising
      places, and at every place whose element passes. */
  ghost predicate PicksAt<T>(before: seq<T>, keep: T -> bool, after: seq<T>, at: seq<nat>) {
    Rising(at) && ComesFrom(before, after, at) && Covers(before, keep, at)
  }

  predicate Rising(at: seq<nat>) {
    forall j, k :: 0 <= j < k < |at| ==> at[j] < at[k]
  }

  ghost predicate ComesFrom<T>(before: seq<T>, after: seq<T>, at: seq<nat>) {
    |at| == |after| && forall k :: 0 <= k < |at| ==> at[k] < |before| && after[k] == before[at[k]]
  }

  ghost predicate Covers<T>(before: seq<T>, keep: T -> bool, at: seq<nat>) {
    forall i :: 0 <= i < |before| ==> (i in at <==> keep(before[i]))
  }

  ghost predicate IsFilter<T>(before: seq<T>, keep: T -> bool, after: seq<T>) {
    exists at :: PicksAt(before, keep, after, at)
  }

  lemma FilterNone<T>(keep: T -> bool)
    ensures IsFilter([], keep, [])
  {
    var none: seq<nat> := [];
    assert PicksAt([], keep, [], none);
  }

  lemma FilterMore<T>(first: T, rest: seq<T>, keep: T -> bool, after: seq<T>)
    requires IsFilter(rest, keep, after)
    ensures IsFilter([first] + rest, keep, (if keep(first) then [first] else []) + after)
  {
    hide Rising, ComesFrom, Covers;
    var at :| PicksAt(rest, keep, after, at);
    var later := seq(|at|, k requires 0 <= k < |at| => at[k] + 1);
    var places := (if keep(first) then [0] else []) + later;
    RisingMore(at, later, keep(first));
    ComesFromMore(first, rest, after, at, later, keep(first));
    CoversMore(first, rest, keep, at, later, places);
    assert PicksAt([first] + rest, keep, (if keep(first) then [first] else []) + after, places);
  }

  lemma RisingMore(at: seq<nat>, later: seq<nat>, kept: bool)
    requires Rising(at) && |later| == |at| && forall k :: 0 <= k < |at| ==> later[k] == at[k] + 1
    ensures Rising((if kept then [0] else []) + later)
  {
    var places := (if kept then [0] else []) + later;
    if kept {
      forall j, k | 0 <= j < k < |places|
        ensures places[j] < places[k]
      {
        assert places[k] == at[k - 1] + 1;
        assert j > 0 ==> places[j] == at[j - 1] + 1 && at[j - 1] < at[k - 1];
      }
    } else {
      assert places == later;
    }
  }

  lemma ComesFromMore<T>(first: T, rest: seq<T>, after: seq<T>, at: seq<nat>, later: seq<nat>, kept: bool)
    requires ComesFrom(rest, after, at)
    requires |later| == |at| && forall k :: 0 <= k < |at| ==> later[k] == at[k] + 1
    ensures ComesFrom([first] + rest, (if kept then [first] else []) + after, (if kept then [0] else []) + later)
  {
    var places, more := (if kept then [0] else []) + later, (if kept then [first] else []) + after;
    if kept {
      forall k | 0 <= k < |places|
        ensures places[k] <= |rest| && more[k] == ([first] + rest)[places[k]]
      {
        assert k > 0 ==> places[k] == at[k - 1] + 1 && more[k] == after[k - 1];
      }
    } else {
      assert places == later && more == after;
    }
  }

  lemma CoversMore<T>(first: T, rest: seq<T>, keep: T -> bool, at: seq<nat>, later: seq<nat>, places: seq<nat>)
    requires Covers(rest, keep, at)
    requires |later| == |at| && forall k :: 0 <= k < |at| ==> later[k] == at[k] + 1
    requires places == (if keep(first) then [0] else []) + later
    ensures Covers([first] + rest, keep, places)
  {
    assert 0 !in later;
    forall i | 0 <= i < |rest| + 1
      ensures i in places <==> keep(([first] + rest)[i])
    {
      if i > 0 {
        PlacesMove(at, later, i - 1);
      }
    }
  }

  lemma PlacesMove(at: seq<nat>, later: seq<nat>, i: nat)
    requires |later| == |at| && forall k :: 0 <= k < |at| ==> later[k] == at[k] + 1
    ensures i + 1 in later <==> i in at
  {
    if i in at {
      var k :| 0 <= k < |at| && at[k] == i;
      assert later[k] == i + 1;
    }
  }

  /** What is left is what passes. */
  lemma FilterHolds<T>(before: seq<T>, keep: T -> bool, after: seq<T>)
    requires IsFilter(before, keep, after)
    ensures forall x :: x in after <==> x in before && keep(x)
  {
    var at :| PicksAt(before, keep, after, at);
    forall x
      ensures x in after <==> x in before && keep(x)
    {
      if x in after {
        var k :| 0 <= k < |after| && after[k] == x;
        assert at[k] in at;
      }
      if x in before && keep(x) {
        var i :| 0 <= i < |before| && before[i] == x;
        var k :| 0 <= k < |at| && at[k] == i;
        assert after[k] == x;
      }
    }
  }
}

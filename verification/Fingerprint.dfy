/** Audio fingerprints: packing them into bytes, finding the best alignment of
    a snippet within a track, and picking the best match among tracks. */
module Fingerprint {
  import opened ByteOrder
  import opened Finite
  import opened Options

  /** A 32-bit item of a fingerprint. */
  type Point = p: nat | p < 0x1_0000_0000

  // ----- Packing -----

  function Encode(points: seq<Point>): Bytes {
    if points == [] then [] else PutLE(points[0], 4) + Encode(points[1..])
  }

  function Decode(data: Bytes): seq<Point>
    decreases |data|
  {
    if |data| < 4 then []
    else
      PutGetLE(data[..4]);
      assert Pow256(4) == 0x1_0000_0000;
      [GetLE(data[..4])] + Decode(data[4..])
  }

  /** Unpacking returns what was packed; left-over bytes are ignored. */
  lemma {:induction false} DecodeEncoded(points: seq<Point>, rest: Bytes)
    requires |rest| < 4
    ensures Decode(Encode(points) + rest) == points && |Encode(points)| == 4 * |points|
  {
    if points == [] {
      assert Encode(points) + rest == rest;
    } else {
      var data := Encode(points) + rest;
      DecodeEncoded(points[1..], rest);
      assert Pow256(4) == 0x1_0000_0000;
      GetPutLE(points[0], 4);
      assert data[..4] == PutLE(points[0], 4);
      assert data[4..] == Encode(points[1..]) + rest;
    }
  }

  /** And packing what was unpacked returns all the whole items. */
  lemma {:induction false} EncodeDecoded(data: Bytes)
    ensures Encode(Decode(data)) == data[..4 * (|data| / 4)]
    decreases |data|
  {
    if |data| >= 4 {
      EncodeDecoded(data[4..]);
      PutGetLE(data[..4]);
      var points := Decode(data);
      assert points[1..] == Decode(data[4..]);
      assert data[..4 * (|data| / 4)] == data[..4] + data[4..][..4 * (|data[4..]| / 4)];
    }
  }

  method Pack(points: seq<Point>) returns (data: Bytes)
    ensures data == Encode(points)
  {
    data := [];
    for i := 0 to |points|
      invariant data == Encode(points[..i])
    {
      assert points[..i + 1] == points[..i] + [points[i]];
      EncodeAppend(points[..i], points[i]);
      data := data + PutLE(points[i], 4);
    }
    assert points[..|points|] == points;
  }

  lemma {:induction false} EncodeAppend(points: seq<Point>, p: Point)
    ensures Encode(points + [p]) == Encode(points) + PutLE(p, 4)
  {
    if points == [] {
      assert [p][1..] == [] && PutLE(p, 4) + [] == PutLE(p, 4);
    } else {
      assert (points + [p])[1..] == points[1..] + [p];
      EncodeAppend(points[1..], p);
    }
  }

  // ----- Bit errors -----

  /** How many of the low k bits differ. */
  function BitErrors(a: nat, b: nat, k: nat): (n: nat)
    ensures n <= k
  {
    if k == 0 then 0 else (if a % 2 != b % 2 then 1 else 0) + BitErrors(a / 2, b / 2, k - 1)
  }

  function Pow2(k: nat): (p: nat)
    ensures p > 0
  {
    if k == 0 then 1 else 2 * Pow2(k - 1)
  }

  /** No bit differs exactly when the numbers are the same. */
  lemma {:induction false} NoErrorsIff(a: nat, b: nat, k: nat)
    requires a < Pow2(k) && b < Pow2(k)
    ensures BitErrors(a, b, k) == 0 <==> a == b
  {
    if k > 0 {
      NoErrorsIff(a / 2, b / 2, k - 1);
    }
  }

  /** Differing bits over the overlapping items. */
  function Differing(snippet: seq<Point>, track: seq<Point>, offset: int, start: nat, end: nat): (n: nat)
    requires start <= end <= |snippet| && 0 <= start + offset && end + offset <= |track|
    ensures n <= 32 * (end - start)
    decreases end
  {
    if start == end then 0
    else Differing(snippet, track, offset, start, end - 1) + BitErrors(snippet[end - 1], track[end - 1 + offset], 32)
  }

  // ----- Alignments -----

  /** The first and last overlapping item of the snippet when its item 0 falls
      on item `offset` of the track. */
  function First(offset: int): nat {
    Max(0, -offset)
  }

  function Last(n: nat, m: nat, offset: int): int {
    Min(n, m - offset)
  }

  function Overlap(n: nat, m: nat, offset: int): int {
    Last(n, m, offset) - First(offset)
  }

  /** Three quarters of the snippet, but at least one item. */
  function Need(n: nat): nat {
    Max(1, n * 3 / 4)
  }

  /** An alignment at which enough of the snippet lies inside the track. */
  predicate Fits(snippet: seq<Point>, track: seq<Point>, offset: int) {
    snippet != [] && Overlap(|snippet|, |track|, offset) >= Need(|snippet|)
  }

  /** The loop's bounds are exactly the alignments with enough overlap, so it
      never has to skip one. */
  lemma LoopVisitsFits(snippet: seq<Point>, track: seq<Point>, offset: int)
    requires snippet != [] && |track| >= Need(|snippet|)
    ensures Fits(snippet, track, offset) <==> Need(|snippet|) - |snippet| <= offset <= |track| - Need(|snippet|)
  {
  }

  lemma NothingFits(snippet: seq<Point>, track: seq<Point>, offset: int)
    requires snippet == [] || |track| < Need(|snippet|)
    ensures !Fits(snippet, track, offset)
  {
  }

  function Errors(snippet: seq<Point>, track: seq<Point>, offset: int): nat
    requires Fits(snippet, track, offset)
  {
    Differing(snippet, track, offset, First(offset), Last(|snippet|, |track|, offset))
  }

  /** The share of differing bits. */
  function Rate(snippet: seq<Point>, track: seq<Point>, offset: int): real
    requires Fits(snippet, track, offset)
  {
    Share(Errors(snippet, track, offset), 32 * Overlap(|snippet|, |track|, offset))
  }

  function Share(part: nat, whole: int): real
    requires whole > 0
  {
    part as real / whole as real
  }

  lemma RateRange(snippet: seq<Point>, track: seq<Point>, offset: int)
    requires Fits(snippet, track, offset)
    ensures 0.0 <= Rate(snippet, track, offset) <= 1.0
    ensures Rate(snippet, track, offset) == 0.0 <==> Errors(snippet, track, offset) == 0
  {
    ShareRange(Errors(snippet, track, offset), 32 * Overlap(|snippet|, |track|, offset));
  }

  lemma ShareRange(part: nat, whole: int)
    requires 0 < whole && part <= whole
    ensures 0.0 <= Share(part, whole) <= 1.0
    ensures Share(part, whole) == 0.0 <==> part == 0
  {
  }

  /** Offsets count items; the program scales them by an item's duration. */
  datatype Score = Score(confidence: real, offset: int)

  /** What the search is for: 1 - 2r, but at least 0, for the least bit error
      rate r over all alignments with enough overlap, at the first alignment
      that has it; 0 when there is none. */
  ghost predicate IsBest(snippet: seq<Point>, track: seq<Point>, score: Score) {
    if forall o :: !Fits(snippet, track, o) then score == Score(0.0, 0)
    else exists best :: Fits(snippet, track, best) && IsLeast(snippet, track, best) && Scores(snippet, track, best, score)
  }

  predicate Scores(snippet: seq<Point>, track: seq<Point>, best: int, score: Score)
    requires Fits(snippet, track, best)
  {
    && score.confidence == RealMax(0.0, 1.0 - 2.0 * Rate(snippet, track, best))
    && score.offset == if Rate(snippet, track, best) < 1.0 then best else 0
  }

  /** No alignment has a lower rate, and none before it the same. */
  ghost predicate IsLeast(snippet: seq<Point>, track: seq<Point>, best: int)
    requires Fits(snippet, track, best)
  {
    forall o :: Fits(snippet, track, o) ==>
      && Rate(snippet, track, best) <= Rate(snippet, track, o)
      && (o < best ==> Rate(snippet, track, best) < Rate(snippet, track, o))
  }

  function RealMax(a: real, b: real): real {
    if a >= b then a else b
  }

  method CountErrors(snippet: seq<Point>, track: seq<Point>, offset: int) returns (differing: nat)
    requires Fits(snippet, track, offset)
    ensures differing == Errors(snippet, track, offset)
  {
    var start, end := First(offset), Last(|snippet|, |track|, offset);
    differing := 0;
    for i := start to end
      invariant differing == Differing(snippet, track, offset, start, i)
    {
      differing := differing + BitErrors(snippet[i], track[i + offset], 32);
    }
  }

  /** b is the least of the alignments visited so far. */
  ghost predicate LeastUpTo(snippet: seq<Point>, track: seq<Point>, b: int, upto: int)
    requires Fits(snippet, track, b)
  {
    forall o :: o < upto && Fits(snippet, track, o) ==>
      && Rate(snippet, track, b) <= Rate(snippet, track, o)
      && (o < b ==> Rate(snippet, track, b) < Rate(snippet, track, o))
  }

  ghost predicate Searched(snippet: seq<Point>, track: seq<Point>, upto: int, bestRate: real, bestOffset: int) {
    exists b :: b < upto && Fits(snippet, track, b) && LeastUpTo(snippet, track, b, upto)
      && bestRate == Rate(snippet, track, b) && bestOffset == if Rate(snippet, track, b) < 1.0 then b else 0
  }

  /** Nothing visited yet, or the best so far. */
  ghost predicate SoFar(snippet: seq<Point>, track: seq<Point>, upto: int, bestRate: real, bestOffset: int) {
    || (bestRate == 1.0 && bestOffset == 0 && forall o :: o < upto ==> !Fits(snippet, track, o))
    || Searched(snippet, track, upto, bestRate, bestOffset)
  }

  lemma VisitOne(snippet: seq<Point>, track: seq<Point>, offset: int, bestRate: real, bestOffset: int)
    requires SoFar(snippet, track, offset, bestRate, bestOffset) && Fits(snippet, track, offset)
    ensures var rate := Rate(snippet, track, offset);
      if rate < bestRate then Searched(snippet, track, offset + 1, rate, offset)
      else Searched(snippet, track, offset + 1, bestRate, bestOffset)
  {
    hide Rate, Fits, LeastUpTo;
    RateRange(snippet, track, offset);
    if Searched(snippet, track, offset, bestRate, bestOffset) {
      var b :| b < offset && Fits(snippet, track, b) && LeastUpTo(snippet, track, b, offset)
        && bestRate == Rate(snippet, track, b) && bestOffset == if Rate(snippet, track, b) < 1.0 then b else 0;
      VisitAfter(snippet, track, b, offset);
      RateRange(snippet, track, b);
    } else {
      VisitFirst(snippet, track, offset);
    }
  }

  lemma VisitFirst(snippet: seq<Point>, track: seq<Point>, offset: int)
    requires Fits(snippet, track, offset) && forall o :: o < offset ==> !Fits(snippet, track, o)
    ensures LeastUpTo(snippet, track, offset, offset + 1)
  {
    hide Rate, Fits;
  }

  lemma VisitAfter(snippet: seq<Point>, track: seq<Point>, b: int, offset: int)
    requires b < offset && Fits(snippet, track, b) && Fits(snippet, track, offset) && LeastUpTo(snippet, track, b, offset)
    ensures if Rate(snippet, track, offset) < Rate(snippet, track, b)
      then LeastUpTo(snippet, track, offset, offset + 1) else LeastUpTo(snippet, track, b, offset + 1)
  {
    hide Rate, Fits;
  }

  /** The search over all alignments. */
  method Compare(snippet: seq<Point>, track: seq<Point>) returns (score: Score)
    ensures IsBest(snippet, track, score)
  {
    hide Rate, Errors, Fits, Overlap, Searched, RealMax, Need;
    var n := |snippet|;
    if n == 0 || |track| == 0 || |track| < Need(n) {
      NoneFit(snippet, track);
      return Score(0.0, 0);
    }
    var need := Need(n);
    var offset, bestRate, bestOffset := need - n, 1.0, 0;
    NeedIsSmall(n, |track|);
    forall o | o < offset
      ensures !Fits(snippet, track, o)
    {
      LoopVisitsFits(snippet, track, o);
    }
    while offset <= |track| - need
      invariant need - n <= offset <= |track| - need + 1
      invariant SoFar(snippet, track, offset, bestRate, bestOffset)
      invariant offset > need - n ==> Searched(snippet, track, offset, bestRate, bestOffset)
    {
      LoopVisitsFits(snippet, track, offset);
      var differing := CountErrors(snippet, track, offset);
      var rate := RateOf(snippet, track, offset, differing);
      VisitOne(snippet, track, offset, bestRate, bestOffset);
      if rate < bestRate {
        bestRate, bestOffset := rate, offset;
      }
      offset := offset + 1;
    }
    score := Score(RealMax(0.0, 1.0 - 2.0 * bestRate), bestOffset);
    Conclude(snippet, track, offset, bestRate, bestOffset);
  }

  method RateOf(snippet: seq<Point>, track: seq<Point>, offset: int, differing: nat) returns (rate: real)
    requires Fits(snippet, track, offset) && differing == Errors(snippet, track, offset)
    ensures rate == Rate(snippet, track, offset)
  {
    var start, end := First(offset), Last(|snippet|, |track|, offset);
    rate := differing as real / (32 * (end - start)) as real;
  }

  lemma NeedIsSmall(n: nat, m: nat)
    requires n > 0 && m >= Need(n)
    ensures 1 <= Need(n) <= n && Need(n) - n <= m - Need(n)
  {
  }

  lemma NoneFit(snippet: seq<Point>, track: seq<Point>)
    requires snippet == [] || |track| == 0 || |track| < Need(|snippet|)
    ensures IsBest(snippet, track, Score(0.0, 0))
  {
    hide Fits;
    forall o
      ensures !Fits(snippet, track, o)
    {
      NothingFits(snippet, track, o);
    }
  }

  lemma Conclude(snippet: seq<Point>, track: seq<Point>, upto: int, bestRate: real, bestOffset: int)
    requires snippet != [] && |track| >= Need(|snippet|) && upto > |track| - Need(|snippet|)
    requires Searched(snippet, track, upto, bestRate, bestOffset)
    ensures IsBest(snippet, track, Score(RealMax(0.0, 1.0 - 2.0 * bestRate), bestOffset))
  {
    hide Rate, Fits, RealMax, Need;
    var b :| b < upto && Fits(snippet, track, b) && LeastUpTo(snippet, track, b, upto)
      && bestRate == Rate(snippet, track, b) && bestOffset == if Rate(snippet, track, b) < 1.0 then b else 0;
    forall o | Fits(snippet, track, o)
      ensures o < upto
    {
      LoopVisitsFits(snippet, track, o);
    }
    assert IsLeast(snippet, track, b);
    assert Scores(snippet, track, b, Score(RealMax(0.0, 1.0 - 2.0 * bestRate), bestOffset));
  }

  lemma LeastIsUnique(snippet: seq<Point>, track: seq<Point>, x: int, y: int)
    requires Fits(snippet, track, x) && IsLeast(snippet, track, x) && Fits(snippet, track, y) && IsLeast(snippet, track, y)
    ensures x == y
  {
    hide Rate, Fits;
  }

  /** Best scores are unique: the search is a function of its inputs. */
  lemma BestIsUnique(snippet: seq<Point>, track: seq<Point>, a: Score, b: Score)
    requires IsBest(snippet, track, a) && IsBest(snippet, track, b)
    ensures a == b
  {
    hide Rate, Fits, IsLeast, RealMax;
    if exists o :: Fits(snippet, track, o) {
      var x :| Fits(snippet, track, x) && IsLeast(snippet, track, x) && Scores(snippet, track, x, a);
      var y :| Fits(snippet, track, y) && IsLeast(snippet, track, y) && Scores(snippet, track, y, b);
      LeastIsUnique(snippet, track, x, y);
    }
  }

  /** Full confidence means that the overlapping items agree bit for bit at
      some alignment, and the other way around. */
  lemma FullConfidenceIff(snippet: seq<Point>, track: seq<Point>, score: Score)
    requires IsBest(snippet, track, score)
    ensures score.confidence == 1.0 <==>
      exists o :: Fits(snippet, track, o) && Errors(snippet, track, o) == 0
    ensures 0.0 <= score.confidence <= 1.0
  {
    hide Rate, Fits, Errors;
    if exists o :: Fits(snippet, track, o) {
      var best :| Fits(snippet, track, best) && IsLeast(snippet, track, best) && Scores(snippet, track, best, score);
      RateRange(snippet, track, best);
      forall o | Fits(snippet, track, o)
        ensures Errors(snippet, track, o) == 0 ==> Errors(snippet, track, best) == 0
      {
        RateRange(snippet, track, o);
      }
    }
  }

  lemma SamePoint(a: Point, b: Point)
    ensures BitErrors(a, b, 32) == 0 <==> a == b
  {
    assert Pow2(32) == 0x1_0000_0000 by {
      assert Pow2(8) == 256 && Pow2(16) == 65536;
      PowersAdd(16, 16);
    }
    NoErrorsIff(a, b, 32);
  }

  lemma LastApart<T>(s: seq<T>, start: nat, end: nat)
    requires start < end <= |s|
    ensures s[start..end] == s[start..end - 1] + [s[end - 1]]
  {
  }

  /** No differing bit means the same items. */
  lemma {:induction false} NoErrorsSameItems(snippet: seq<Point>, track: seq<Point>, offset: int, start: nat, end: nat)
    requires start <= end <= |snippet| && 0 <= start + offset && end + offset <= |track|
    ensures Differing(snippet, track, offset, start, end) == 0 <==> snippet[start..end] == track[start + offset..end + offset]
    decreases end
  {
    hide BitErrors;
    if start < end {
      NoErrorsSameItems(snippet, track, offset, start, end - 1);
      SamePoint(snippet[end - 1], track[end - 1 + offset]);
      LastApart(snippet, start, end);
      LastApart(track, start + offset, end + offset);
      SameLast(snippet[start..end - 1], snippet[end - 1], track[start + offset..end - 1 + offset], track[end - 1 + offset]);
    }
  }

  lemma SameLast<T>(a: seq<T>, x: T, b: seq<T>, y: T)
    ensures a + [x] == b + [y] <==> a == b && x == y
  {
    if a + [x] == b + [y] {
      assert (a + [x])[..|a|] == a && (b + [y])[..|b|] == b;
      assert (a + [x])[|a|] == x && (b + [y])[|b|] == y;
    }
  }

  lemma {:induction false} PowersAdd(a: nat, b: nat)
    ensures Pow2(a + b) == Pow2(a) * Pow2(b)
  {
    if a > 0 {
      PowersAdd(a - 1, b);
    }
  }

  // ----- What the count counts -----

  function Bit(a: nat, i: nat): nat {
    a / Pow2(i) % 2
  }

  function DifferingBits(a: nat, b: nat, k: nat): set<nat> {
    set i: nat | i < k && Bit(a, i) != Bit(b, i)
  }

  lemma BitOfHalf(a: nat, i: nat)
    ensures Bit(a / 2, i) == Bit(a, i + 1)
  {
    HalfThen(a, Pow2(i));
  }

  lemma {:induction false} OneMoreBit(a: nat, b: nat, k: nat)
    ensures BitErrors(a, b, k + 1) == BitErrors(a, b, k) + (if Bit(a, k) != Bit(b, k) then 1 else 0)
  {
    if k > 0 {
      OneMoreBit(a / 2, b / 2, k - 1);
      BitOfHalf(a, k - 1);
      BitOfHalf(b, k - 1);
      hide Bit;
    } else {
      assert Pow2(0) == 1;
    }
  }

  /** The count is the number of bits that differ. */
  lemma {:induction false} CountsBits(a: nat, b: nat, k: nat)
    ensures BitErrors(a, b, k) == |DifferingBits(a, b, k)|
  {
    hide Bit;
    if k == 0 {
      assert DifferingBits(a, b, 0) == {};
    } else {
      CountsBits(a, b, k - 1);
      OneMoreBit(a, b, k - 1);
      hide BitErrors;
      assert DifferingBits(a, b, k) ==
        DifferingBits(a, b, k - 1) + (if Bit(a, k - 1) != Bit(b, k - 1) then {k - 1} else {});
    }
  }

  /** A number with one bit of a flipped is one error further from b, or one
      nearer. */
  lemma FlippedBitCountsOne(a: nat, flipped: nat, b: nat, j: nat)
    requires j < 32 && Bit(flipped, j) != Bit(a, j)
    requires forall i: nat :: i < 32 && i != j ==> Bit(flipped, i) == Bit(a, i)
    ensures BitErrors(flipped, b, 32) == BitErrors(a, b, 32) + (if Bit(a, j) == Bit(b, j) then 1 else -1)
  {
    CountsBits(a, b, 32);
    CountsBits(flipped, b, 32);
    assert Bit(a, j) < 2 && Bit(b, j) < 2 && Bit(flipped, j) < 2;
    hide Bit, BitErrors;
    if Bit(a, j) == Bit(b, j) {
      assert DifferingBits(flipped, b, 32) == DifferingBits(a, b, 32) + {j};
    } else {
      assert DifferingBits(flipped, b, 32) == DifferingBits(a, b, 32) - {j};
    }
  }

  /** The items and bits in which an alignment's overlapping parts differ. */
  function DifferingPairs(snippet: seq<Point>, track: seq<Point>, offset: int, start: nat, end: nat): set<(nat, nat)>
    requires start <= end <= |snippet| && 0 <= start + offset && end + offset <= |track|
  {
    set i: nat, k: nat | start <= i < end && k < 32 && Bit(snippet[i], k) != Bit(track[i + offset], k) :: (i, k)
  }

  function Pairs(i: nat, ks: set<nat>): set<(nat, nat)> {
    set k: nat | k in ks :: (i, k)
  }

  lemma PairsSize(i: nat, ks: set<nat>)
    ensures |Pairs(i, ks)| == |ks|
  {
    if ks != {} {
      var k :| k in ks;
      PairsSize(i, ks - {k});
      assert Pairs(i, ks) == Pairs(i, ks - {k}) + {(i, k)};
    }
  }

  /** Errors counts the differing pairs. */
  lemma {:induction false} CountsPairs(snippet: seq<Point>, track: seq<Point>, offset: int, start: nat, end: nat)
    requires start <= end <= |snippet| && 0 <= start + offset && end + offset <= |track|
    ensures Differing(snippet, track, offset, start, end) == |DifferingPairs(snippet, track, offset, start, end)|
    decreases end
  {
    hide Bit, BitErrors;
    if start == end {
      assert DifferingPairs(snippet, track, offset, start, end) == {};
    } else {
      var last := end - 1;
      CountsPairs(snippet, track, offset, start, last);
      CountsBits(snippet[last], track[last + offset], 32);
      var ks := DifferingBits(snippet[last], track[last + offset], 32);
      PairsSize(last, ks);
      var before, here := DifferingPairs(snippet, track, offset, start, last), Pairs(last, ks);
      assert DifferingPairs(snippet, track, offset, start, end) == before + here;
      assert before !! here;
    }
  }

  /** The snippet's items that fall inside the track. */
  function Inside(n: nat, m: nat, offset: int): set<nat> {
    set i: nat | i < n && FallsInside(i, m, offset)
  }

  predicate FallsInside(i: nat, m: nat, offset: int) {
    0 <= i + offset < m
  }

  function DifferingInside(snippet: seq<Point>, track: seq<Point>, offset: int): set<(nat, nat)> {
    set i: nat, k: nat | i in Inside(|snippet|, |track|, offset) && k < 32
      && Bit(snippet[i], k) != Bit(track[i + offset], k) :: (i, k)
  }

  /** An alignment fits when three quarters of the snippet's items, rounded
      down but at least one, fall inside the track; its errors are the bits in
      which those items differ. */
  lemma WhatFits(snippet: seq<Point>, track: seq<Point>, offset: int)
    requires snippet != []
    ensures Fits(snippet, track, offset) <==>
      |Inside(|snippet|, |track|, offset)| >= Max(1, 3 * |snippet| / 4)
    ensures Fits(snippet, track, offset) ==>
      && |Inside(|snippet|, |track|, offset)| == Overlap(|snippet|, |track|, offset)
      && Errors(snippet, track, offset) ==
         |DifferingInside(snippet, track, offset)|
  {
    hide Bit, Differing;
    var n, m := |snippet|, |track|;
    if Overlap(n, m, offset) > 0 {
      RangeSize(Inside(n, m, offset), First(offset), Overlap(n, m, offset));
    } else {
      assert Inside(n, m, offset) == {};
    }
    if Fits(snippet, track, offset) {
      CountsPairs(snippet, track, offset, First(offset), Last(n, m, offset));
      assert DifferingPairs(snippet, track, offset, First(offset), Last(n, m, offset)) ==
        DifferingInside(snippet, track, offset);
    }
  }

  /** A recording that differs from the track in at most d bits where they
      overlap is recognised at least this well. */
  lemma FewErrorsScoreWell(snippet: seq<Point>, track: seq<Point>, score: Score, o: int, d: nat)
    requires IsBest(snippet, track, score) && Fits(snippet, track, o) && Errors(snippet, track, o) <= d
    ensures score.confidence >= 1.0 - 2.0 * d as real / (32 * Overlap(|snippet|, |track|, o)) as real
  {
    hide Errors, Fits;
    var best :| Fits(snippet, track, best) && IsLeast(snippet, track, best) && Scores(snippet, track, best, score);
    var whole := (32 * Overlap(|snippet|, |track|, o)) as real;
    assert whole > 0.0 by {
      FitsOverlap(snippet, track, o);
    }
    var part := Errors(snippet, track, o) as real;
    assert Rate(snippet, track, best) <= Rate(snippet, track, o) == part / whole;
    Quotients(part, d as real, whole);
  }

  lemma FitsOverlap(snippet: seq<Point>, track: seq<Point>, o: int)
    requires Fits(snippet, track, o)
    ensures Overlap(|snippet|, |track|, o) >= 1
  {
  }

  lemma Quotients(part: real, d: real, whole: real)
    requires part <= d && whole > 0.0
    ensures 2.0 * (part / whole) <= 2.0 * d / whole
  {
    assert 2.0 * d / whole - 2.0 * (part / whole) == 2.0 * (d - part) / whole;
  }

  /** One flipped bit in every item costs a sixteenth, not everything. */
  lemma OneBitAnItem(score: Score)
    requires IsBest([0], [1], score)
    ensures score == Score(0.9375, 0)
  {
    hide IsBest, Rate, Fits;
    OneAlignment(0);
    OneBitsRate();
    forall o | Fits([0], [1], o)
      ensures o == 0
    {
      OneAlignment(o);
    }
    IsTheOnly([0], [1], 0, score);
  }

  lemma OneAlignment(o: int)
    ensures Fits([0], [1], o) <==> o == 0
  {
  }

  lemma OneBitsRate()
    ensures Fits([0], [1], 0) && Rate([0], [1], 0) == 1.0 / 32.0
  {
    hide Rate, BitErrors, Fits;
    OneErrorOf32();
    assert Differing([0], [1], 0, 0, 0) == 0;
    OneItemsRate([0], [1], 1);
  }

  lemma OneItemsRate(snippet: seq<Point>, track: seq<Point>, differing: nat)
    requires |snippet| == |track| == 1 && Differing(snippet, track, 0, 0, 1) == differing
    ensures Fits(snippet, track, 0) && Rate(snippet, track, 0) == differing as real / 32.0
  {
    assert First(0) == 0 && Last(1, 1, 0) == 1;
    hide Differing;
  }

  lemma OneErrorOf32()
    ensures BitErrors(0, 1, 32) == 1
  {
    hide BitErrors, Bit;
    CountsBits(0, 1, 32);
    forall i: nat
      ensures Bit(0, i) != Bit(1, i) <==> i == 0
    {
      BitsOfOne(i);
    }
    assert DifferingBits(0, 1, 32) == {0};
  }

  lemma BitsOfOne(i: nat)
    ensures Bit(0, i) == 0 && Bit(1, i) == if i == 0 then 1 else 0
  {
    if i > 0 {
      assert Pow2(i) >= 2;
      Quotient(1, 0, Pow2(i), 1);
    }
    Quotient(0, 0, Pow2(i), 0);
  }

  lemma IsTheOnly(snippet: seq<Point>, track: seq<Point>, best: int, score: Score)
    requires IsBest(snippet, track, score) && Fits(snippet, track, best)
    requires forall o :: Fits(snippet, track, o) ==> o == best
    ensures Scores(snippet, track, best, score)
  {
    hide Fits, Scores;
  }

  // ----- Identifying a track -----

  /** A track someone may play: whether it is their own, and its packed
      fingerprint. */
  datatype Candidate = Candidate(own: bool, points: Bytes)

  const MIN_CONFIDENCE: real := 0.35
  const OWN_PREFERENCE: real := 0.03

  /** Confidence, raised for the listener's own tracks. */
  function Adjusted(own: bool, confidence: real): real {
    confidence + (if own then OWN_PREFERENCE else 0.0)
  }

  /** scores[i] is candidate i's best score. */
  ghost predicate AllScored(snippet: seq<Point>, candidates: seq<Candidate>, scores: seq<Score>) {
    && |scores| == |candidates|
    && forall i :: 0 <= i < |candidates| ==> IsBest(snippet, Decode(candidates[i].points), scores[i])
  }

  predicate Matches(scores: seq<Score>, i: nat) {
    i < |scores| && scores[i].confidence >= MIN_CONFIDENCE
  }

  /** The first match with the greatest adjusted confidence. */
  ghost predicate IsWinner(candidates: seq<Candidate>, scores: seq<Score>, i: nat)
    requires |scores| == |candidates|
  {
    && Matches(scores, i)
    && forall j: nat :: Matches(scores, j) ==>
         && Adjusted(candidates[j].own, scores[j].confidence) <= Adjusted(candidates[i].own, scores[i].confidence)
         && (j < i ==> Adjusted(candidates[j].own, scores[j].confidence) < Adjusted(candidates[i].own, scores[i].confidence))
  }

  lemma FirstMatch(cs: seq<Candidate>, ss: seq<Score>, c: Candidate, s: Score)
    requires |cs| == |ss| && forall j: nat :: !Matches(ss, j)
    ensures if s.confidence >= MIN_CONFIDENCE then IsWinner(cs + [c], ss + [s], |cs|)
      else forall j: nat :: !Matches(ss + [s], j)
  {
    forall j: nat | j < |cs|
      ensures !Matches(ss + [s], j)
    {
      assert !Matches(ss, j) && (ss + [s])[j] == ss[j];
    }
  }

  lemma NextMatch(cs: seq<Candidate>, ss: seq<Score>, w: nat, c: Candidate, s: Score)
    requires |cs| == |ss| && IsWinner(cs, ss, w)
    ensures if s.confidence >= MIN_CONFIDENCE && Adjusted(c.own, s.confidence) > Adjusted(cs[w].own, ss[w].confidence)
      then IsWinner(cs + [c], ss + [s], |cs|) else IsWinner(cs + [c], ss + [s], w)
  {
    forall j: nat | j < |cs|
      ensures Matches(ss + [s], j) == Matches(ss, j)
    {
      assert (ss + [s])[j] == ss[j];
    }
  }

  lemma ScoredOnce(snippet: seq<Point>, candidates: seq<Candidate>, s: seq<Score>, t: seq<Score>)
    requires AllScored(snippet, candidates, s) && AllScored(snippet, candidates, t)
    ensures s == t
  {
    hide IsBest, Decode;
    forall i | 0 <= i < |s|
      ensures s[i] == t[i]
    {
      BestIsUnique(snippet, Decode(candidates[i].points), s[i], t[i]);
    }
  }

  /** The answer for given scores: the winner, or none when nothing matches. */
  ghost predicate Answers(candidates: seq<Candidate>, scores: seq<Score>, found: Option<nat>)
    requires |scores| == |candidates|
  {
    match found
    case None => forall i: nat :: !Matches(scores, i)
    case Some(i) => IsWinner(candidates, scores, i)
  }

  /** Walks the candidates, keeping the best; a new one must beat it by the
      margin their owners call for. */
  method Identify(snippet: seq<Point>, candidates: seq<Candidate>) returns (found: Option<nat>)
    ensures exists scores :: AllScored(snippet, candidates, scores)
    ensures forall scores :: AllScored(snippet, candidates, scores) ==> Answers(candidates, scores, found)
  {
    hide IsBest, Decode;
    found := None;
    ghost var scores: seq<Score> := [];
    var bestOwn, bestConfidence := false, 0.0;
    for i := 0 to |candidates|
      invariant AllScored(snippet, candidates[..i], scores)
      invariant Answers(candidates[..i], scores, found)
      invariant found.Some? ==>
        bestOwn == candidates[found.value].own && bestConfidence == scores[found.value].confidence
    {
      var score := Compare(snippet, Decode(candidates[i].points));
      ghost var before := scores;
      scores := scores + [score];
      assert candidates[..i + 1] == candidates[..i] + [candidates[i]];
      if found.None? {
        FirstMatch(candidates[..i], before, candidates[i], score);
      } else {
        NextMatch(candidates[..i], before, found.value, candidates[i], score);
      }
      if score.confidence >= MIN_CONFIDENCE {
        var own := candidates[i].own;
        var margin := 0.0;
        if own && !bestOwn {
          margin := OWN_PREFERENCE;
        } else if !own && bestOwn {
          margin := -OWN_PREFERENCE;
        }
        if found.None? || score.confidence + margin > bestConfidence {
          found, bestOwn, bestConfidence := Some(i), own, score.confidence;
        }
      }
    }
    assert candidates[..|candidates|] == candidates;
    forall other | AllScored(snippet, candidates, other)
      ensures Answers(candidates, other, found)
    {
      ScoredOnce(snippet, candidates, scores, other);
    }
  }

  /** The order in which candidates are visited only matters for ties: another
      order that visits the same matches finds one with the same adjusted
      confidence. */
  lemma OrderOnlyBreaksTies(a: seq<Candidate>, s: seq<Score>, i: nat, b: seq<Candidate>, t: seq<Score>, j: nat, to: nat -> nat, back: nat -> nat)
    requires |a| == |s| && |b| == |t| && IsWinner(a, s, i) && IsWinner(b, t, j)
    requires forall k: nat :: k < |a| ==> to(k) < |b| && b[to(k)] == a[k] && t[to(k)] == s[k]
    requires forall k: nat :: k < |b| ==> back(k) < |a| && a[back(k)] == b[k] && s[back(k)] == t[k]
    ensures Adjusted(a[i].own, s[i].confidence) == Adjusted(b[j].own, t[j].confidence)
  {
    assert Matches(t, to(i)) && Matches(s, back(j));
  }

  /** Between a stranger's track and one's own, whichever comes first, one's own
      is found when both match and it scores less than 0.03 lower; below 0.35
      nothing counts as a match. */
  lemma OwnTrackIsPreferred(theirs: Candidate, mine: Candidate, a: Score, b: Score)
    requires !theirs.own && mine.own
    ensures IsWinner([theirs, mine], [a, b], 1) <==>
      b.confidence >= 0.35 && (a.confidence < 0.35 || b.confidence + 0.03 > a.confidence)
    ensures IsWinner([mine, theirs], [b, a], 0) <==>
      b.confidence >= 0.35 && (a.confidence < 0.35 || b.confidence + 0.03 >= a.confidence)
    ensures (forall i: nat :: !Matches([a, b], i)) <==> a.confidence < 0.35 && b.confidence < 0.35
  {
    assert Matches([a, b], 0) <==> a.confidence >= 0.35;
    assert Matches([a, b], 1) <==> b.confidence >= 0.35;
    assert Matches([b, a], 1) <==> a.confidence >= 0.35;
    assert Matches([b, a], 0) <==> b.confidence >= 0.35;
  }
}

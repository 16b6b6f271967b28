/** UTF-8 as Go decodes it (section 3 of RFC 3629) and UTF-16 (section 2 of
    RFC 2781), over lists of code points. */
module UnicodeText {
  import opened ByteOrder

  type Rune = r: int | 0 <= r < 0x11_0000
  type Unit = u: int | 0 <= u < 0x1_0000

  const RUNE_ERROR: Rune := 0xFFFD

  predicate Scalar(r: Rune) {
    r < 0xD800 || r >= 0xE000
  }

  // ----- UTF-8 -----

  function EncodeRune(r: Rune): Bytes {
    if r < 0x80 then [r]
    else if r < 0x800 then [0xC0 + r / 64, 0x80 + r % 64]
    else if !Scalar(r) then [0xEF, 0xBF, 0xBD]
    else if r < 0x1_0000 then [0xE0 + r / 4096, 0x80 + r / 64 % 64, 0x80 + r % 64]
    else [0xF0 + r / 262144, 0x80 + r / 4096 % 64, 0x80 + r / 64 % 64, 0x80 + r % 64]
  }

  function EncodeRunes(rs: seq<Rune>): Bytes {
    if rs == [] then [] else EncodeRune(rs[0]) + EncodeRunes(rs[1..])
  }

  predicate Continues(c: byte) {
    0x80 <= c < 0xC0
  }

  /** The range the second byte of a sequence may lie in. */
  function SecondLow(c: byte): byte {
    if c == 0xE0 then 0xA0 else if c == 0xF0 then 0x90 else 0x80
  }

  function SecondHigh(c: byte): byte {
    if c == 0xED then 0x9F else if c == 0xF4 then 0x8F else 0xBF
  }

  /** The first code point and its length; a byte that begins none is
      RUNE_ERROR of length one. */
  function DecodeRune(b: Bytes): (rn: (Rune, nat))
    requires b != []
    ensures 1 <= rn.1 <= |b|
  {
    var c := b[0] as int;
    if c < 0x80 then (c, 1)
    else if c < 0xC2 || c > 0xF4 || |b| < 2 || !(SecondLow(c) <= b[1] <= SecondHigh(c)) then (RUNE_ERROR, 1)
    else
      var c1 := b[1] as int - 0x80;
      if c < 0xE0 then ((c - 0xC0) * 64 + c1, 2)
      else if |b| < 3 || !Continues(b[2]) then (RUNE_ERROR, 1)
      else
        var c2 := b[2] as int - 0x80;
        if c < 0xF0 then ((c - 0xE0) * 4096 + c1 * 64 + c2, 3)
        else if |b| < 4 || !Continues(b[3]) then (RUNE_ERROR, 1)
        else ((c - 0xF0) * 262144 + c1 * 4096 + c2 * 64 + (b[3] as int - 0x80), 4)
  }

  /** The code points of a string. */
  function Runes(b: Bytes): seq<Rune> {
    if b == [] then [] else [DecodeRune(b).0] + Runes(b[DecodeRune(b).1..])
  }

  predicate IsValid(b: Bytes) {
    b == [] || (DecodeRune(b) != (RUNE_ERROR, 1) && IsValid(b[DecodeRune(b).1..]))
  }

  /** Each run of invalid bytes replaced by the replacement character. */
  function ToValid(b: Bytes, inRun: bool): Bytes
    decreases |b|
  {
    if b == [] then []
    else
      var (r, n) := DecodeRune(b);
      if (r, n) == (RUNE_ERROR, 1) then (if inRun then [] else EncodeRune(RUNE_ERROR)) + ToValid(b[1..], true)
      else b[..n] + ToValid(b[n..], false)
  }

  lemma Digits64(c0: nat, c1: nat, c2: nat, c3: nat)
    requires c1 < 64 && c2 < 64 && c3 < 64
    ensures var r := c0 * 262144 + c1 * 4096 + c2 * 64 + c3;
      r / 262144 == c0 && r / 4096 % 64 == c1 && r / 64 % 64 == c2 && r % 64 == c3
  {
    var r := c0 * 262144 + c1 * 4096 + c2 * 64 + c3;
    assert r / 64 == c0 * 4096 + c1 * 64 + c2;
    assert r / 4096 == c0 * 64 + c1;
  }

  lemma EncodeDecodedRune(b: Bytes)
    requires b != [] && DecodeRune(b) != (RUNE_ERROR, 1)
    ensures var (r, n) := DecodeRune(b);
      Scalar(r) && EncodeRune(r) == b[..n] && (r == 0 ==> b[0] == 0)
  {
    var (r, n) := DecodeRune(b);
    if n == 2 {
      Digits64(0, 0, b[0] as int - 0xC0, b[1] as int - 0x80);
    } else if n == 3 {
      Digits64(0, b[0] as int - 0xE0, b[1] as int - 0x80, b[2] as int - 0x80);
    } else if n == 4 {
      Digits64(b[0] as int - 0xF0, b[1] as int - 0x80, b[2] as int - 0x80, b[3] as int - 0x80);
    }
  }

  lemma RunesOfFirst(b: Bytes)
    requires b != [] && IsValid(b)
    ensures var (r, n) := DecodeRune(b);
      && Runes(b) == [r] + Runes(b[n..]) && IsValid(b[n..]) && Scalar(r) && EncodeRune(r) == b[..n]
      && (0 !in b ==> r != 0 && 0 !in b[n..])
  {
    hide DecodeRune, EncodeRune, Scalar;
    EncodeDecodedRune(b);
  }

  /** A valid string is the encoding of its code points. */
  lemma {:induction false} EncodeDecoded(b: Bytes)
    requires IsValid(b)
    ensures EncodeRunes(Runes(b)) == b
    ensures forall i :: 0 <= i < |Runes(b)| ==> Scalar(Runes(b)[i])
    ensures 0 !in b ==> 0 !in Runes(b)
    decreases |b|
  {
    hide DecodeRune, EncodeRune, Scalar, IsValid;
    if b != [] {
      var (r, n) := DecodeRune(b);
      RunesOfFirst(b);
      EncodeDecoded(b[n..]);
      hide Runes;
      assert ([r] + Runes(b[n..]))[1..] == Runes(b[n..]);
      assert b == b[..n] + b[n..];
    }
  }

  // ----- What an encoder may have written -----

  /** A code point is read back from its encoding: section 3 of RFC 3629, with
      its one, two, three and four byte forms. */
  lemma DecodeEncodedRune(r: Rune, rest: Bytes)
    requires Scalar(r)
    ensures var b := EncodeRune(r);
      b != [] && DecodeRune(b + rest) == (r, |b|) && (b + rest)[|b|..] == rest && (r, |b|) != (RUNE_ERROR, 1)
    ensures 0 in EncodeRune(r) <==> r == 0
  {
    if r < 0x80 {
    } else if r < 0x800 {
      TwoBytes(r, rest);
    } else if r < 0x1_0000 {
      ThreeBytes(r, rest);
    } else {
      FourBytes(r, rest);
    }
    assert (EncodeRune(r) + rest)[|EncodeRune(r)|..] == rest;
  }

  lemma TwoBytes(r: Rune, rest: Bytes)
    requires 0x80 <= r < 0x800
    ensures |EncodeRune(r)| == 2 && DecodeRune(EncodeRune(r) + rest) == (r, 2) && 0 !in EncodeRune(r)
  {
    var b := EncodeRune(r) + rest;
    assert b[0] == 0xC0 + r / 64 && b[1] == 0x80 + r % 64;
  }

  lemma ThreeBytes(r: Rune, rest: Bytes)
    requires 0x800 <= r < 0x1_0000 && Scalar(r)
    ensures |EncodeRune(r)| == 3 && DecodeRune(EncodeRune(r) + rest) == (r, 3) && 0 !in EncodeRune(r)
  {
    var b := EncodeRune(r) + rest;
    assert b[0] == 0xE0 + r / 4096 && b[1] == 0x80 + r / 64 % 64 && b[2] == 0x80 + r % 64;
    assert r == r / 4096 * 4096 + r / 64 % 64 * 64 + r % 64;
  }

  lemma FourBytes(r: Rune, rest: Bytes)
    requires 0x1_0000 <= r
    ensures |EncodeRune(r)| == 4 && DecodeRune(EncodeRune(r) + rest) == (r, 4) && 0 !in EncodeRune(r)
  {
    var c0, c1, c2, c3 := r / 262144, r / 4096 % 64, r / 64 % 64, r % 64;
    FourDigits(r, c0, c1, c2, c3);
    var b := [0xF0 + c0, 0x80 + c1, 0x80 + c2, 0x80 + c3] + rest;
    assert EncodeRune(r) + rest == b;
    assert DecodeRune(b) == (c0 * 262144 + c1 * 4096 + c2 * 64 + c3, 4);
  }

  lemma FourDigits(r: Rune, c0: nat, c1: nat, c2: nat, c3: nat)
    requires 0x1_0000 <= r && c0 == r / 262144 && c1 == r / 4096 % 64 && c2 == r / 64 % 64 && c3 == r % 64
    ensures r == c0 * 262144 + c1 * 4096 + c2 * 64 + c3
    ensures c0 <= 4 && (c0 == 0 ==> c1 >= 16) && (c0 == 4 ==> c1 < 16)
  {
    var high := r / 4096;
    assert high / 64 == c0 && high == c0 * 64 + c1 && 16 <= high < 272;
    assert r / 64 == high * 64 + c2 && r == r / 64 * 64 + c3;
  }

  /** Code points are read back from a string that encodes them. */
  lemma {:induction false} RunesOfEncoded(rs: seq<Rune>)
    requires forall i :: 0 <= i < |rs| ==> Scalar(rs[i])
    ensures Runes(EncodeRunes(rs)) == rs && IsValid(EncodeRunes(rs))
    ensures 0 in EncodeRunes(rs) <==> 0 in rs
  {
    hide DecodeRune, EncodeRune, Scalar;
    if rs != [] {
      DecodeEncodedRune(rs[0], EncodeRunes(rs[1..]));
      RunesOfEncoded(rs[1..]);
      assert [rs[0]] + rs[1..] == rs;
    }
  }

  /** Spot checks against the standard's own numbers. */
  lemma KnownEncodings()
    ensures EncodeRune(0xE9) == [0xC3, 0xA9] && EncodeRune(0x20AC) == [0xE2, 0x82, 0xAC]
    ensures EncodeRune(0x1_F600) == [0xF0, 0x9F, 0x98, 0x80] && EncodeUnits(0x1_F600) == [0xD83D, 0xDE00]
  {
  }

  lemma {:induction false} ValidAppend(a: Bytes, b: Bytes)
    requires IsValid(a) && IsValid(b)
    ensures IsValid(a + b) && Runes(a + b) == Runes(a) + Runes(b)
    decreases |a|
  {
    hide DecodeRune, EncodeRune, Scalar, IsValid, Runes;
    if a == [] {
      assert a + b == b && Runes(a) == [] by {
        EmptyIsValid();
      }
    } else {
      var (r, n) := DecodeRune(a);
      RunesOfFirst(a);
      RunesOfCons(a);
      ValidAppend(a[n..], b);
      FirstOf(a, b);
      RunesOfCons(a + b);
    }
  }

  lemma EmptyIsValid()
    ensures IsValid([]) && Runes([]) == []
  {
  }

  /** What follows a valid first code point does not change it. */
  lemma FirstOf(a: Bytes, b: Bytes)
    requires a != [] && DecodeRune(a) != (RUNE_ERROR, 1)
    ensures DecodeRune(a + b) == DecodeRune(a) && (a + b)[DecodeRune(a).1..] == a[DecodeRune(a).1..] + b
  {
    var (r, n) := DecodeRune(a);
    EncodeDecodedRune(a);
    DecodeEncodedRune(r, a[n..] + b);
    assert a + b == a[..n] + (a[n..] + b);
    hide DecodeRune, EncodeRune, Scalar;
    assert |EncodeRune(r)| == n;
  }

  lemma RunesOfCons(b: Bytes)
    requires b != []
    ensures Runes(b) == [DecodeRune(b).0] + Runes(b[DecodeRune(b).1..])
    ensures IsValid(b) <==> DecodeRune(b) != (RUNE_ERROR, 1) && IsValid(b[DecodeRune(b).1..])
  {
    hide DecodeRune;
  }

  /** Replacing invalid runs gives a valid string, and changes no other. */
  lemma {:induction false} ToValidIsValid(b: Bytes, inRun: bool)
    ensures IsValid(ToValid(b, inRun))
    ensures IsValid(b) ==> ToValid(b, inRun) == b
    decreases |b|
  {
    hide DecodeRune, EncodeRune, Scalar, IsValid, Runes;
    if b == [] {
      EmptyIsValid();
    } else {
      var (r, n) := DecodeRune(b);
      RunesOfCons(b);
      if (r, n) == (RUNE_ERROR, 1) {
        ToValidIsValid(b[1..], true);
        ReplacementIsValid();
        if !inRun {
          ValidAppend(EncodeRune(RUNE_ERROR), ToValid(b[1..], true));
        } else {
          assert [] + ToValid(b[1..], true) == ToValid(b[1..], true);
        }
      } else {
        ToValidIsValid(b[n..], false);
        OneRuneIsValid(b);
        ValidAppend(b[..n], ToValid(b[n..], false));
        assert b == b[..n] + b[n..];
      }
    }
  }

  lemma ReplacementIsValid()
    ensures IsValid(EncodeRune(RUNE_ERROR))
  {
    RunesOfEncoded([RUNE_ERROR]);
    assert EncodeRunes([RUNE_ERROR]) == EncodeRune(RUNE_ERROR) + [];
    assert EncodeRune(RUNE_ERROR) + [] == EncodeRune(RUNE_ERROR);
  }

  lemma OneRuneIsValid(b: Bytes)
    requires b != [] && DecodeRune(b) != (RUNE_ERROR, 1)
    ensures IsValid(b[..DecodeRune(b).1])
  {
    var (r, n) := DecodeRune(b);
    EncodeDecodedRune(b);
    hide DecodeRune, EncodeRune, Scalar;
    RunesOfEncoded([r]);
    assert EncodeRunes([r]) == EncodeRune(r) + [];
    assert EncodeRune(r) + [] == EncodeRune(r);
  }

  /** Bytes that occur in no encoding. */
  predicate Stray(c: byte) {
    c == 0xC0 || c == 0xC1 || c >= 0xF5
  }

  /** A run of stray bytes between two texts becomes one replacement
      character; the texts are kept. */
  lemma RunIsReplacedOnce(a: Bytes, run: Bytes, b: Bytes)
    requires IsValid(a) && IsValid(b) && run != [] && forall i :: 0 <= i < |run| ==> Stray(run[i])
    ensures ToValid(a + run + b, false) == a + [0xEF, 0xBF, 0xBD] + b
  {
    hide DecodeRune, ToValid, IsValid, Stray;
    assert a + run + b == a + (run + b);
    ToValidAfter(a, run + b);
    StrayRun(run, b, false);
    assert a + ([0xEF, 0xBF, 0xBD] + b) == a + [0xEF, 0xBF, 0xBD] + b;
  }

  lemma {:induction false} ToValidAfter(a: Bytes, b: Bytes)
    requires IsValid(a) && b != [] && Stray(b[0])
    ensures ToValid(a + b, false) == a + ToValid(b, false)
    decreases |a|
  {
    hide DecodeRune, EncodeRune, Scalar, Stray;
    if a == [] {
      assert a + b == b && [] + ToValid(b, false) == ToValid(b, false);
    } else {
      var n := DecodeRune(a).1;
      FirstOf(a, b);
      ToValidAfter(a[n..], b);
      assert (a + b)[..n] == a[..n];
      assert a[..n] + (a[n..] + ToValid(b, false)) == a + ToValid(b, false);
    }
  }

  lemma {:induction false} StrayRun(run: Bytes, b: Bytes, inRun: bool)
    requires IsValid(b) && forall i :: 0 <= i < |run| ==> Stray(run[i])
    requires inRun || run != []
    ensures ToValid(run + b, inRun) == (if inRun then [] else [0xEF, 0xBF, 0xBD]) + b
    decreases |run|
  {
    if run == [] {
      ToValidIsValid(b, inRun);
      assert run + b == b;
    } else {
      StrayIsError(run + b);
      hide DecodeRune, IsValid;
      assert (run + b)[1..] == run[1..] + b;
      StrayRun(run[1..], b, true);
      assert EncodeRune(RUNE_ERROR) == [0xEF, 0xBF, 0xBD];
      hide EncodeRune;
      assert [] + b == b;
    }
  }

  lemma StrayIsError(b: Bytes)
    requires b != [] && Stray(b[0])
    ensures DecodeRune(b) == (RUNE_ERROR, 1)
  {
  }

  // ----- UTF-16 -----

  function EncodeUnits(r: Rune): seq<Unit> {
    if !Scalar(r) then [RUNE_ERROR]
    else if r < 0x1_0000 then [r]
    else [0xD800 + (r - 0x1_0000) / 1024, 0xDC00 + (r - 0x1_0000) % 1024]
  }

  function ToUtf16(rs: seq<Rune>): seq<Unit> {
    if rs == [] then [] else EncodeUnits(rs[0]) + ToUtf16(rs[1..])
  }

  predicate High(u: Unit) { 0xD800 <= u < 0xDC00 }

  predicate Low(u: Unit) { 0xDC00 <= u < 0xE000 }

  /** Unpaired surrogates decode to RUNE_ERROR. */
  function FromUtf16(units: seq<Unit>): seq<Rune> {
    if units == [] then []
    else if High(units[0]) && |units| > 1 && Low(units[1]) then
      [0x1_0000 + (units[0] - 0xD800) * 1024 + (units[1] - 0xDC00)] + FromUtf16(units[2..])
    else [if High(units[0]) || Low(units[0]) then RUNE_ERROR else units[0]] + FromUtf16(units[1..])
  }

  /** One code point is read back from its units. */
  lemma UnitsOfOne(r: Rune, rest: seq<Unit>)
    requires Scalar(r)
    ensures FromUtf16(EncodeUnits(r) + rest) == [r] + FromUtf16(rest)
    ensures r != 0 ==> 0 !in EncodeUnits(r)
  {
    var units := EncodeUnits(r) + rest;
    if r < 0x1_0000 {
      assert units[1..] == rest;
    } else {
      assert units[2..] == rest;
      assert 0x1_0000 + (r - 0x1_0000) / 1024 * 1024 + (r - 0x1_0000) % 1024 == r;
    }
  }

  lemma {:induction false} Utf16RoundTrip(rs: seq<Rune>)
    requires forall i :: 0 <= i < |rs| ==> Scalar(rs[i])
    ensures FromUtf16(ToUtf16(rs)) == rs
    ensures 0 !in rs ==> 0 !in ToUtf16(rs)
  {
    hide Scalar, EncodeUnits, FromUtf16;
    if rs == [] {
      NoUnits();
    } else {
      Utf16RoundTrip(rs[1..]);
      UnitsOfOne(rs[0], ToUtf16(rs[1..]));
      assert [rs[0]] + rs[1..] == rs;
    }
  }

  lemma NoUnits()
    ensures FromUtf16([]) == []
  {
  }
}

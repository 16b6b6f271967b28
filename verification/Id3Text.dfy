/** The text encodings of ID3v2 frames (section 4 of ID3v2.4.0), and the
    unsynchronisation scheme (section 6.1). */
module Id3Text {
  import opened ByteOrder
  import opened UnicodeText

  // ----- Unsynchronisation -----

  /** Every 0xFF 0x00 becomes 0xFF. */
  function RemoveUnsync(b: Bytes): Bytes
    decreases |b|
  {
    if b == [] then []
    else if b[0] == 0xFF && |b| > 1 && b[1] == 0 then [0xFF] + RemoveUnsync(b[2..])
    else [b[0]] + RemoveUnsync(b[1..])
  }

  /** What a writer following the standard does: a zero byte goes after every
      0xFF that ends the data or precedes 0x00 or 0xE0 and above. */
  function Unsync(b: Bytes): Bytes {
    if b == [] then []
    else if b[0] == 0xFF && (|b| == 1 || b[1] == 0 || b[1] >= 0xE0) then [0xFF, 0] + Unsync(b[1..])
    else [b[0]] + Unsync(b[1..])
  }

  lemma {:induction false} UnsyncStart(b: Bytes)
    requires b != []
    ensures Unsync(b) != [] && Unsync(b)[0] == b[0]
  {
  }

  /** Removing undoes what the standard adds, for any data. */
  lemma {:induction false} RemoveUnsyncUndoes(b: Bytes)
    ensures RemoveUnsync(Unsync(b)) == b
  {
    if b != [] {
      RemoveUnsyncUndoes(b[1..]);
      var rest := Unsync(b[1..]);
      if b[0] == 0xFF && (|b| == 1 || b[1] == 0 || b[1] >= 0xE0) {
        assert Unsync(b)[2..] == rest;
      } else {
        assert Unsync(b)[1..] == rest;
        if |b| > 1 {
          UnsyncStart(b[1..]);
        }
      }
    }
  }

  method RemoveUnsyncLoop(b: Bytes) returns (out: Bytes)
    ensures out == RemoveUnsync(b)
  {
    hide RemoveUnsync;
    out := [];
    var i := 0;
    assert b[0..] == b && [] + RemoveUnsync(b) == RemoveUnsync(b);
    while i < |b|
      invariant i <= |b|
      invariant out + RemoveUnsync(b[i..]) == RemoveUnsync(b)
    {
      RemoveUnsyncAt(b, i);
      ghost var skip := if b[i] == 0xFF && i + 1 < |b| && b[i + 1] == 0 then 2 else 1;
      Regroup(out, [b[i]], RemoveUnsync(b[i + skip..]));
      out := out + [b[i]];
      if b[i] == 0xFF && i + 1 < |b| && b[i + 1] == 0 {
        i := i + 1;
      }
      i := i + 1;
    }
    RemoveUnsyncEnd(b);
    assert out + [] == out;
  }

  lemma RemoveUnsyncEnd(b: Bytes)
    ensures RemoveUnsync(b[|b|..]) == []
  {
  }

  lemma RemoveUnsyncAt(b: Bytes, i: nat)
    requires i < |b|
    ensures var skip := if b[i] == 0xFF && i + 1 < |b| && b[i + 1] == 0 then 2 else 1;
      RemoveUnsync(b[i..]) == [b[i]] + RemoveUnsync(b[i + skip..])
  {
    var rest := b[i..];
    if b[i] == 0xFF && i + 1 < |b| && b[i + 1] == 0 {
      assert rest[2..] == b[i + 2..];
    } else {
      assert rest[1..] == b[i + 1..];
    }
  }

  // ----- Text -----

  function TrimZeros(b: Bytes): Bytes {
    if b != [] && b[|b| - 1] == 0 then TrimZeros(b[..|b| - 1]) else b
  }

  predicate Wide(encoding: byte) {
    encoding == 1 || encoding == 2
  }

  /** Where the first zero code unit is, or the length. */
  function ZeroAt(wide: bool, b: Bytes): (i: nat)
    ensures i <= |b|
    decreases |b|
  {
    if wide then
      if |b| < 2 then |b| else if b[0] == 0 && b[1] == 0 then 0 else 2 + ZeroAt(wide, b[2..])
    else if b == [] then 0 else if b[0] == 0 then 0 else 1 + ZeroAt(wide, b[1..])
  }

  /** The end of the first string, -1 when it is not terminated. */
  function Terminator(encoding: byte, b: Bytes): (end: int)
    ensures -1 <= end <= |b|
  {
    var i, width := ZeroAt(Wide(encoding), b), if Wide(encoding) then 2 else 1;
    if i + width <= |b| then i else -1
  }

  function Width(encoding: byte): nat {
    if Wide(encoding) then 2 else 1
  }

  function Latin1(b: Bytes): seq<Rune> {
    seq(|b|, i requires 0 <= i < |b| => b[i] as int)
  }

  function Units(b: Bytes, little: bool): seq<Unit>
    decreases |b|
  {
    if |b| < 2 then []
    else
      var first, second := b[0] as int, b[1] as int;
      [if little then first + 256 * second else 256 * first + second] + Units(b[2..], little)
  }

  function DecodeText(encoding: byte, b: Bytes): Bytes {
    if encoding == 0 then TrimZeros(EncodeRunes(Latin1(b)))
    else if Wide(encoding) then
      var little := |b| >= 2 && b[0] == 0xFF && b[1] == 0xFE;
      var big := |b| >= 2 && b[0] == 0xFE && b[1] == 0xFF;
      TrimZeros(EncodeRunes(FromUtf16(Units(if little || big then b[2..] else b, little))))
    else
      var s := TrimZeros(b);
      if IsValid(s) then s else ToValid(s, false)
  }

  /** The first value of a text frame's body. */
  function DecodeFrameText(body: Bytes): Bytes {
    if body == [] then []
    else
      var end := Terminator(body[0], body[1..]);
      DecodeText(body[0], if end >= 0 then body[1..][..end] else body[1..])
  }

  function PutUnits(units: seq<Unit>): Bytes {
    if units == [] then [] else [units[0] % 256, units[0] / 256] + PutUnits(units[1..])
  }

  /** UTF-16 with a little-endian byte order mark. */
  function Utf16LE(value: Bytes): Bytes {
    [0xFF, 0xFE] + PutUnits(ToUtf16(Runes(value)))
  }

  function EncodeText(major: nat, value: Bytes): Bytes {
    if major == 3 then [1] + Utf16LE(value) else [3] + value
  }

  function EncodeComment(major: nat, value: Bytes): Bytes {
    if major == 3 then [1, 117, 110, 100, 0xFF, 0xFE, 0, 0] + Utf16LE(value)
    else [3, 117, 110, 100, 0] + value
  }

  /** The description and text of a comment frame's body. */
  datatype Split = NoSplit | Split(description: Bytes, text: Bytes)

  function SplitComment(body: Bytes): Split {
    if |body| < 4 then NoSplit
    else
      var rest := body[4..];
      var end := Terminator(body[0], rest);
      if end < 0 then NoSplit
      else Split(DecodeText(body[0], rest[..end]), DecodeText(body[0], rest[end + Width(body[0])..]))
  }

  // ----- Round trips -----

  /** Text an edit may contain: valid UTF-8 without NUL. */
  predicate Clean(value: Bytes) {
    IsValid(value) && 0 !in value
  }

  lemma TrimNothing(b: Bytes)
    requires 0 !in b
    ensures TrimZeros(b) == b
  {
    if b != [] {
      assert b[|b| - 1] in b;
    }
  }

  lemma {:induction false} NoZeroByte(b: Bytes)
    requires 0 !in b
    ensures ZeroAt(false, b) == |b|
    decreases |b|
  {
    if b != [] {
      assert b[0] in b;
      assert forall c :: c in b[1..] ==> c in b;
      NoZeroByte(b[1..]);
    }
  }

  lemma {:induction false} PutUnitsReads(units: seq<Unit>)
    ensures Units(PutUnits(units), true) == units
    ensures |PutUnits(units)| == 2 * |units|
  {
    if units != [] {
      PutUnitsReads(units[1..]);
      assert PutUnits(units)[2..] == PutUnits(units[1..]);
    }
  }

  lemma {:induction false} PutUnitsHasNoZero(units: seq<Unit>)
    requires 0 !in units
    ensures ZeroAt(true, PutUnits(units)) == |PutUnits(units)|
  {
    if units != [] {
      PutUnitsHasNoZero(units[1..]);
      assert PutUnits(units)[2..] == PutUnits(units[1..]);
      assert units[0] in units;
    }
  }

  lemma Utf16Decodes(value: Bytes, encoding: byte)
    requires Clean(value) && Wide(encoding)
    ensures DecodeText(encoding, Utf16LE(value)) == value
    ensures ZeroAt(true, Utf16LE(value)) == |Utf16LE(value)|
  {
    var units := ToUtf16(Runes(value));
    EncodeDecoded(value);
    Utf16RoundTrip(Runes(value));
    PutUnitsReads(units);
    PutUnitsHasNoZero(units);
    assert Utf16LE(value)[2..] == PutUnits(units);
    TrimNothing(value);
  }

  /** An encoded text frame decodes to its text, in both versions. */
  lemma TextRoundTrip(major: nat, value: Bytes)
    requires Clean(value)
    ensures DecodeFrameText(EncodeText(major, value)) == value
  {
    var body := EncodeText(major, value);
    if major == 3 {
      assert body[1..] == Utf16LE(value);
      Utf16Decodes(value, 1);
    } else {
      assert body[1..] == value;
      NoZeroByte(value);
      TrimNothing(value);
    }
  }

  /** An encoded comment splits into an empty description and its text. */
  lemma CommentRoundTrip(major: nat, value: Bytes)
    requires Clean(value)
    ensures SplitComment(EncodeComment(major, value)) == Split([], value)
  {
    var body := EncodeComment(major, value);
    var rest := body[4..];
    if major == 3 {
      assert rest == [0xFF, 0xFE, 0, 0] + Utf16LE(value);
      assert rest[2..][0] == 0 && rest[2..][1] == 0;
      assert ZeroAt(true, rest) == 2;
      assert rest[..2] == [0xFF, 0xFE] && rest[4..] == Utf16LE(value);
      assert [0xFF as byte, 0xFE][2..] == [];
      assert DecodeText(1, [0xFF, 0xFE]) == [];
      Utf16Decodes(value, 1);
    } else {
      assert rest == [0] + value;
      assert rest[..0] == [] && rest[1..] == value;
      TrimNothing(value);
    }
  }

  // ----- Text that other programs wrote -----

  /** Trimming takes the zero bytes off the end and nothing else. */
  lemma {:induction false} TrimZerosIs(b: Bytes)
    ensures TrimZeros(b) <= b && forall i :: |TrimZeros(b)| <= i < |b| ==> b[i] == 0
    ensures TrimZeros(b) == [] || TrimZeros(b)[|TrimZeros(b)| - 1] != 0
  {
    if b != [] && b[|b| - 1] == 0 {
      TrimZerosIs(b[..|b| - 1]);
    }
  }

  lemma ValidWithoutZero(a: Bytes)
    requires IsValid(a + [0])
    ensures IsValid(a)
    decreases |a|
  {
    hide DecodeRune, EncodeRune, Scalar, IsValid, Runes;
    if a == [] {
      EmptyIsValid();
    } else {
      var b := a + [0];
      var (r, n) := DecodeRune(b);
      RunesOfCons(b);
      EncodeDecodedRune(b);
      if n == |b| {
        assert b[..n] == b && b[|a|] == 0;
        DecodeEncodedRune(r, []);
        NulIsOneByte();
        assert false;
      } else {
        assert b[n..] == a[n..] + [0];
        ValidWithoutZero(a[n..]);
        assert a == EncodeRune(r) + a[n..];
        DecodeEncodedRune(r, a[n..]);
        RunesOfCons(a);
      }
    }
  }

  lemma NulIsOneByte()
    ensures EncodeRune(0) == [0]
  {
  }

  lemma {:induction false} TrimmedIsValid(b: Bytes)
    requires IsValid(b)
    ensures IsValid(TrimZeros(b))
  {
    hide IsValid;
    if b != [] && b[|b| - 1] == 0 {
      assert b == b[..|b| - 1] + [0];
      ValidWithoutZero(b[..|b| - 1]);
      TrimmedIsValid(b[..|b| - 1]);
    }
  }

  lemma {:induction false} FromUtf16IsScalar(units: seq<Unit>)
    ensures forall i :: 0 <= i < |FromUtf16(units)| ==> Scalar(FromUtf16(units)[i])
    decreases |units|
  {
    if units != [] {
      FromUtf16IsScalar(units[1..]);
      if |units| > 1 {
        FromUtf16IsScalar(units[2..]);
      }
    }
  }

  /** Whatever bytes a tag holds, in whatever encoding they claim to be in,
      what is read from them is valid UTF-8; and so is left alone when it says
      it is UTF-8 and is. */
  lemma DecodedIsValid(encoding: byte, b: Bytes)
    ensures IsValid(DecodeText(encoding, b))
    ensures encoding >= 3 && IsValid(b) ==> DecodeText(encoding, b) == TrimZeros(b)
  {
    hide IsValid, ToValid, EncodeRunes, FromUtf16, Units, TrimZeros;
    if encoding == 0 {
      RunesOfEncoded(Latin1(b));
      TrimmedIsValid(EncodeRunes(Latin1(b)));
    } else if Wide(encoding) {
      var little := |b| >= 2 && b[0] == 0xFF && b[1] == 0xFE;
      var big := |b| >= 2 && b[0] == 0xFE && b[1] == 0xFF;
      var runes := FromUtf16(Units(if little || big then b[2..] else b, little));
      FromUtf16IsScalar(Units(if little || big then b[2..] else b, little));
      RunesOfEncoded(runes);
      TrimmedIsValid(EncodeRunes(runes));
    } else {
      ToValidIsValid(TrimZeros(b), false);
      if IsValid(b) {
        TrimmedIsValid(b);
      }
    }
  }

  lemma {:induction false} EncodeRunesAppend(a: seq<Rune>, b: seq<Rune>)
    ensures EncodeRunes(a + b) == EncodeRunes(a) + EncodeRunes(b)
  {
    hide EncodeRune;
    if a == [] {
      assert a + b == b;
    } else {
      assert (a + b)[1..] == a[1..] + b;
      EncodeRunesAppend(a[1..], b);
    }
  }

  lemma {:induction false} TrimLatin1(b: Bytes)
    ensures TrimZeros(EncodeRunes(Latin1(b))) == EncodeRunes(Latin1(TrimZeros(b)))
  {
    hide EncodeRune, EncodeRunes;
    if b == [] {
      assert EncodeRunes(Latin1(b)) == [] by {
        assert Latin1(b) == [];
        NoRunes();
      }
    } else {
      var init, last := b[..|b| - 1], b[|b| - 1];
      assert Latin1(b) == Latin1(init) + [last as int];
      EncodeRunesAppend(Latin1(init), [last as int]);
      LastRune(last);
      var s := EncodeRunes(Latin1(b));
      if last == 0 {
        assert s[..|s| - 1] == EncodeRunes(Latin1(init));
        TrimLatin1(init);
      }
    }
  }

  lemma NoRunes()
    ensures EncodeRunes([]) == []
  {
  }

  lemma LastRune(c: byte)
    ensures var s := EncodeRunes([c as int]);
      s != [] && (s[|s| - 1] == 0 <==> c == 0) && (c == 0 ==> s == [0])
  {
    assert EncodeRunes([c as int]) == EncodeRune(c) + [];
  }

  /** ISO-8859-1: each byte, up to the trailing zeros, is the code point of
      that number. */
  lemma Latin1Decodes(b: Bytes)
    ensures var runes := Runes(DecodeText(0, b));
      && |runes| == |TrimZeros(b)| <= |b| && forall i :: 0 <= i < |runes| ==> runes[i] == b[i]
    ensures 0 !in b ==> |Runes(DecodeText(0, b))| == |b|
  {
    hide EncodeRunes, Runes, TrimZeros;
    TrimLatin1(b);
    TrimZerosIs(b);
    RunesOfEncoded(Latin1(TrimZeros(b)));
    if 0 !in b {
      TrimNothing(b);
    }
  }

  /** UTF-16 with the higher byte first. */
  function PutUnitsBig(units: seq<Unit>): Bytes {
    if units == [] then [] else [units[0] / 256, units[0] % 256] + PutUnitsBig(units[1..])
  }

  lemma {:induction false} PutUnitsBigReads(units: seq<Unit>)
    ensures Units(PutUnitsBig(units), false) == units
  {
    if units != [] {
      PutUnitsBigReads(units[1..]);
      assert PutUnitsBig(units)[2..] == PutUnitsBig(units[1..]);
    }
  }

  lemma UnitsDecode(rs: seq<Rune>, units: seq<Unit>)
    requires units == ToUtf16(rs) && 0 !in rs && forall i :: 0 <= i < |rs| ==> Scalar(rs[i])
    ensures TrimZeros(EncodeRunes(FromUtf16(units))) == EncodeRunes(rs)
  {
    hide EncodeRunes, FromUtf16, ToUtf16, TrimZeros;
    Utf16RoundTrip(rs);
    RunesOfEncoded(rs);
    TrimNothing(EncodeRunes(rs));
  }

  /** UTF-16 in either byte order after its mark, and with the higher byte
      first where there is none. */
  lemma Utf16InAnyOrder(rs: seq<Rune>, encoding: byte)
    requires Wide(encoding) && 0 !in rs && forall i :: 0 <= i < |rs| ==> Scalar(rs[i])
    ensures DecodeText(encoding, [0xFE, 0xFF] + PutUnitsBig(ToUtf16(rs))) == EncodeRunes(rs)
    ensures DecodeText(encoding, [0xFF, 0xFE] + PutUnits(ToUtf16(rs))) == EncodeRunes(rs)
    ensures rs == [] || (rs[0] != 0xFEFF && rs[0] != 0xFFFE) ==>
      DecodeText(encoding, PutUnitsBig(ToUtf16(rs))) == EncodeRunes(rs)
  {
    hide EncodeRunes, FromUtf16, TrimZeros, Units, PutUnitsBig, PutUnits, ToUtf16;
    var units := ToUtf16(rs);
    UnitsDecode(rs, units);
    PutUnitsBigReads(units);
    PutUnitsReads(units);
    assert ([0xFE, 0xFF] + PutUnitsBig(units))[2..] == PutUnitsBig(units);
    assert ([0xFF, 0xFE] + PutUnits(units))[2..] == PutUnits(units);
    if rs == [] || (rs[0] != 0xFEFF && rs[0] != 0xFFFE) {
      NoMark(rs, PutUnitsBig(units));
    }
  }

  lemma NoMark(rs: seq<Rune>, b: Bytes)
    requires b == PutUnitsBig(ToUtf16(rs)) && (rs == [] || (rs[0] != 0xFEFF && rs[0] != 0xFFFE))
    ensures |b| >= 2 ==> !(b[0] == 0xFF && b[1] == 0xFE) && !(b[0] == 0xFE && b[1] == 0xFF)
  {
    if rs != [] {
      var first := EncodeUnits(rs[0])[0];
      assert ToUtf16(rs)[0] == first;
      assert first != 0xFEFF && first != 0xFFFE;
    }
  }

  // ----- Where a text ends -----

  /** Whether the code unit at i is zero. */
  predicate ZeroUnit(wide: bool, b: Bytes, i: nat) {
    if wide then i % 2 == 0 && i + 1 < |b| && b[i] == 0 && b[i + 1] == 0 else i < |b| && b[i] == 0
  }

  lemma {:induction false} ZeroAtIs(wide: bool, b: Bytes)
    ensures var i := ZeroAt(wide, b); var width := if wide then 2 else 1;
      && (i + width <= |b| <==> exists j: nat :: ZeroUnit(wide, b, j))
      && (i + width <= |b| ==> ZeroUnit(wide, b, i))
      && (forall j: nat :: j < i ==> !ZeroUnit(wide, b, j))
    decreases |b|
  {
    var width := if wide then 2 else 1;
    if |b| >= width && !ZeroUnit(wide, b, 0) {
      ZeroAtIs(wide, b[width..]);
      forall j: nat
        ensures ZeroUnit(wide, b, j) <==> j >= width && ZeroUnit(wide, b[width..], j - width)
      {
      }
      if exists j: nat :: ZeroUnit(wide, b[width..], j) {
        var j: nat :| ZeroUnit(wide, b[width..], j);
        assert ZeroUnit(wide, b, j + width);
      }
    }
  }

  /** The first string ends at its first zero code unit. */
  lemma TerminatorIs(encoding: byte, b: Bytes)
    ensures var end := Terminator(encoding, b); var wide := encoding == 1 || encoding == 2;
      if exists i: nat :: ZeroUnit(wide, b, i)
      then end >= 0 && ZeroUnit(wide, b, end) && forall i: nat :: i < end ==> !ZeroUnit(wide, b, i)
      else end == -1
  {
    hide ZeroUnit, ZeroAt;
    ZeroAtIs(Wide(encoding), b);
  }

  predicate NoZeroUnit(wide: bool, b: Bytes) {
    (wide ==> |b| % 2 == 0) && forall i: nat :: i < |b| ==> !ZeroUnit(wide, b, i)
  }

  function Zero(wide: bool): Bytes {
    if wide then [0, 0] else [0]
  }

  lemma TerminatorAfter(encoding: byte, text: Bytes, more: Bytes)
    requires NoZeroUnit(Wide(encoding), text)
    ensures Terminator(encoding, text) == -1
    ensures Terminator(encoding, text + Zero(Wide(encoding)) + more) == |text|
  {
    hide Terminator;
    var wide := Wide(encoding);
    var b := text + Zero(wide) + more;
    TerminatorIs(encoding, text);
    TerminatorIs(encoding, b);
    assert ZeroUnit(wide, b, |text|);
    var end := Terminator(encoding, b);
    if end < |text| {
      assert !ZeroUnit(wide, text, end);
    }
  }

  /** A text frame means its first string, in the encoding its first byte
      names, terminated or not. */
  lemma FrameTextIs(encoding: byte, text: Bytes, more: Bytes)
    requires NoZeroUnit(Wide(encoding), text)
    ensures DecodeFrameText([encoding] + text) == DecodeText(encoding, text)
    ensures DecodeFrameText([encoding] + (text + Zero(Wide(encoding)) + more)) == DecodeText(encoding, text)
  {
    hide Terminator, DecodeText, NoZeroUnit;
    TerminatorAfter(encoding, text, more);
    var b := text + Zero(Wide(encoding)) + more;
    assert ([encoding] + text)[1..] == text && ([encoding] + b)[1..] == b && b[..|text|] == text;
  }

  /** A comment frame is an encoding, three letters for the language, a
      terminated description and the text. */
  lemma SplitCommentIs(encoding: byte, language: Bytes, description: Bytes, text: Bytes)
    requires |language| == 3 && NoZeroUnit(Wide(encoding), description)
    ensures SplitComment([encoding] + language + (description + Zero(Wide(encoding)) + text)) ==
      Split(DecodeText(encoding, description), DecodeText(encoding, text))
  {
    hide Terminator, DecodeText, NoZeroUnit;
    TerminatorAfter(encoding, description, text);
    var rest := description + Zero(Wide(encoding)) + text;
    var body := [encoding] + language + rest;
    assert body[4..] == rest && rest[..|description|] == description;
    assert rest[|description| + Width(encoding)..] == text;
  }

  /** What is written can be read by any program that knows the version: in
      version 3, which has no UTF-8, it is UTF-16 after a little-endian mark,
      in version 4 UTF-8; a comment has the language "und" and an empty
      description. */
  lemma WrittenEncodings(value: Bytes)
    requires Clean(value)
    ensures var text, comment := EncodeText(3, value), EncodeComment(3, value);
      && [1, 0xFF, 0xFE] <= text && |text| % 2 == 1 && FromUtf16(Units(text[3..], true)) == Runes(value)
      && comment == [1, 0x75, 0x6E, 0x64, 0xFF, 0xFE, 0, 0] + text[1..]
    ensures EncodeText(4, value) == [3] + value && EncodeComment(4, value) == [3, 0x75, 0x6E, 0x64, 0] + value
  {
    hide Runes, ToUtf16, FromUtf16, Units, PutUnits, IsValid;
    var units := ToUtf16(Runes(value));
    EncodeDecoded(value);
    Utf16RoundTrip(Runes(value));
    PutUnitsReads(units);
    assert EncodeText(3, value)[3..] == PutUnits(units);
    assert EncodeText(3, value)[1..] == Utf16LE(value);
  }
}

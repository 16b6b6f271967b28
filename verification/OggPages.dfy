/** Ogg pages (section 6 of RFC 3533): printing and reading them. */
module OggPages {
  import opened ByteOrder
  import OggCrc

  const CONTINUED: byte := 1
  const BOS: byte := 2
  const NO_PACKET_ENDS: nat := 0xFFFF_FFFF_FFFF_FFFF
  const CAPTURE: Bytes := Ascii("OggS")

  /** Flags are a byte, the granule position is 64 bits and the two numbers
      are 32; segments is the page's table of lacing values. */
  datatype Page = Page(flags: byte, granule: nat, serial: nat, sequence: nat, segments: Bytes, data: Bytes)
  {
    predicate WellFormed() {
      && granule < Pow256(8) && serial < Pow256(4) && sequence < Pow256(4)
      && |segments| <= 255 && |data| == Sum(segments)
    }

    predicate IsBos() {
      flags / 2 % 2 == 1
    }
  }

  function Sum(laces: Bytes): nat {
    if laces == [] then 0 else laces[0] + Sum(laces[1..])
  }

  lemma {:induction false} SumAppend(a: Bytes, b: Bytes)
    ensures Sum(a + b) == Sum(a) + Sum(b)
  {
    if a == [] {
      assert a + b == b;
    } else {
      assert (a + b)[1..] == a[1..] + b;
      SumAppend(a[1..], b);
    }
  }

  // ----- Printing -----

  /** The header up to the checksum. */
  function Head(p: Page): (b: Bytes)
    ensures |b| == 22
  {
    CAPTURE + [0, p.flags] + PutLE(p.granule, 8) + PutLE(p.serial, 4) + PutLE(p.sequence, 4)
  }

  function Tail(p: Page): Bytes {
    [|p.segments| % 256] + p.segments + p.data
  }

  /** What the checksum is taken over: the page with a zero checksum field. */
  function WithoutChecksum(p: Page): Bytes {
    Head(p) + [0, 0, 0, 0] + Tail(p)
  }

  function Print(p: Page): Bytes {
    Head(p) + PutLE(OggCrc.Checksum(WithoutChecksum(p)), 4) + Tail(p)
  }

  method PrintPage(table: array<OggCrc.Word>, p: Page) returns (out: Bytes)
    requires OggCrc.IsTable(table)
    ensures out == Print(p)
  {
    out := WithoutChecksum(p);
    var crc := OggCrc.Crc(table, out);
    out := out[..22] + PutLE(OggCrc.Value(crc), 4) + out[26..];
  }

  // ----- Reading -----

  datatype ReadResult = Eof | Bad | Read(page: Page, rest: Bytes)

  /** The page at the start of b. Only an empty input is its end. */
  function ReadPage(b: Bytes): (r: ReadResult)
    ensures r.Read? ==> |r.rest| + 27 <= |b|
  {
    if b == [] then Eof
    else if |b| < 27 || b[..4] != CAPTURE || b[4] != 0 || |b| < 27 + b[26] as int then Bad
    else
      var start := 27 + b[26] as int;
      var segments := b[27..start];
      if |b| < start + Sum(segments) then Bad
      else
        var end := start + Sum(segments);
        var page := Page(b[5], GetLE(b[6..14]), GetLE(b[14..18]), GetLE(b[18..22]), segments, b[start..end]);
        if OggCrc.Checksum(WithoutChecksum(page)) != GetLE(b[22..26]) then Bad else Read(page, b[end..])
  }

  method ReadOggPage(table: array<OggCrc.Word>, b: Bytes) returns (r: ReadResult)
    requires OggCrc.IsTable(table)
    ensures r == ReadPage(b)
  {
    hide GetLE, WithoutChecksum, OggCrc.Remainder;
    if b == [] {
      return Eof;
    }
    if |b| < 27 || b[..4] != CAPTURE || b[4] != 0 {
      return Bad;
    }
    var start := 27 + b[26] as int;
    if |b| < start {
      return Bad;
    }
    var segments := b[27..start];
    var size: nat := 0;
    for i := 0 to |segments|
      invariant size == Sum(segments[..i])
    {
      assert segments[..i + 1] == segments[..i] + [segments[i]];
      SumAppend(segments[..i], [segments[i]]);
      size := size + segments[i];
    }
    assert segments[..|segments|] == segments;
    if |b| < start + size {
      return Bad;
    }
    var page := Page(b[5], GetLE(b[6..14]), GetLE(b[14..18]), GetLE(b[18..22]), segments, b[start..start + size]);
    var crc := OggCrc.Crc(table, WithoutChecksum(page));
    if OggCrc.Value(crc) != GetLE(b[22..26]) {
      return Bad;
    }
    r := Read(page, b[start + size..]);
  }

  // ----- Round trips -----

  lemma ChecksumFits(b: Bytes)
    ensures OggCrc.Checksum(b) < Pow256(4)
  {
    OggCrc.BitsOfValue(OggCrc.Remainder(b));
    Pow2OfBytes(4);
  }

  lemma {:induction false} Pow2Times16(k: nat)
    ensures OggCrc.Pow2(k + 4) == 16 * OggCrc.Pow2(k)
  {
    assert OggCrc.Pow2(k + 2) == 4 * OggCrc.Pow2(k);
  }

  lemma {:induction false} Pow2OfBytes(k: nat)
    ensures OggCrc.Pow2(8 * k) == Pow256(k)
  {
    if k > 0 {
      Pow2OfBytes(k - 1);
      Pow2Times16(8 * k - 8);
      Pow2Times16(8 * k - 4);
    }
  }

  lemma HeadFields(p: Page)
    requires p.WellFormed()
    ensures var h := Head(p);
      && h[..4] == CAPTURE && h[4] == 0 && h[5] == p.flags
      && GetLE(h[6..14]) == p.granule && GetLE(h[14..18]) == p.serial && GetLE(h[18..22]) == p.sequence
  {
    hide PutLE, GetLE;
    HeadParts(CAPTURE, [0, p.flags], PutLE(p.granule, 8), PutLE(p.serial, 4), PutLE(p.sequence, 4));
    GetPutLE(p.granule, 8);
    GetPutLE(p.serial, 4);
    GetPutLE(p.sequence, 4);
  }

  lemma HeadParts(capture: Bytes, flags: Bytes, granule: Bytes, serial: Bytes, sequence: Bytes)
    requires |capture| == 4 && |flags| == 2 && |granule| == 8 && |serial| == 4 && |sequence| == 4
    ensures var h := capture + flags + granule + serial + sequence;
      && h[..4] == capture && h[4] == flags[0] && h[5] == flags[1]
      && h[6..14] == granule && h[14..18] == serial && h[18..22] == sequence
  {
  }

  /** A printed page is read back, with what follows it left unread. */
  lemma ReadPrinted(p: Page, rest: Bytes)
    requires p.WellFormed()
    ensures ReadPage(Print(p) + rest) == Read(p, rest)
  {
    hide PutLE, GetLE, Head, WithoutChecksum, OggCrc.Checksum;
    var crc := OggCrc.Checksum(WithoutChecksum(p));
    var b := Print(p) + rest;
    ChecksumFits(WithoutChecksum(p));
    GetPutLE(crc, 4);
    HeadFields(p);
    PrintedParts(Head(p), PutLE(crc, 4), p.segments, p.data, rest);
    SlicesOfHead(b, Head(p));
  }

  lemma PrintedParts(head: Bytes, crc: Bytes, segments: Bytes, data: Bytes, rest: Bytes)
    requires |head| == 22 && |crc| == 4 && |segments| <= 255
    ensures var b, n := head + crc + ([|segments| % 256] + segments + data) + rest, |segments|;
      && |b| == 27 + n + |data| + |rest|
      && b[..22] == head && b[22..26] == crc && b[26] == n
      && b[27..27 + n] == segments && b[27 + n..27 + n + |data|] == data && b[27 + n + |data|..] == rest
  {
  }

  lemma SlicesOfHead(b: Bytes, head: Bytes)
    requires |b| >= 22 && |head| == 22 && b[..22] == head
    ensures b[..4] == head[..4] && b[4] == head[4] && b[5] == head[5]
    ensures b[6..14] == head[6..14] && b[14..18] == head[14..18] && b[18..22] == head[18..22]
  {
    assert forall i, j :: 0 <= i <= j <= 22 ==> b[i..j] == b[..22][i..j];
  }

  /** Only printed pages are read: a page that is accepted is well formed, and
      printing it gives back the bytes it was read from. */
  lemma ReadIsPrinted(b: Bytes)
    requires ReadPage(b).Read?
    ensures var Read(p, rest) := ReadPage(b);
      p.WellFormed() && b == Print(p) + rest
  {
    hide PutLE, GetLE, WithoutChecksum, OggCrc.Checksum;
    var Read(p, rest) := ReadPage(b);
    PutGetLE(b[6..14]);
    PutGetLE(b[14..18]);
    PutGetLE(b[18..22]);
    PutGetLE(b[22..26]);
    JoinHead(b);
    JoinTail(b, p.segments, p.data, rest);
  }

  lemma JoinHead(b: Bytes)
    requires |b| >= 22
    ensures b[..22] == b[..4] + [b[4], b[5]] + b[6..14] + b[14..18] + b[18..22]
  {
  }

  lemma JoinTail(b: Bytes, segments: Bytes, data: Bytes, rest: Bytes)
    requires |b| == 27 + |segments| + |data| + |rest|
    requires segments == b[27..27 + |segments|] && data == b[27 + |segments|..27 + |segments| + |data|]
    requires rest == b[27 + |segments| + |data|..]
    ensures b == b[..22] + b[22..26] + ([b[26]] + segments + data) + rest
  {
  }

  /** The bytes of a page, as section 6 of RFC 3533 lays them out, with the
      numbers least significant byte first. */
  lemma PageIsSpelled(p: Page)
    requires p.WellFormed()
    ensures var check := OggCrc.Checksum(WithoutChecksum(p));
      && Print(p) == [0x4F, 0x67, 0x67, 0x53, 0, p.flags] + PutLE(p.granule, 8) + PutLE(p.serial, 4) + PutLE(p.sequence, 4) +
        PutLE(check, 4) + [|p.segments|] + p.segments + p.data
      && WithoutChecksum(p) == [0x4F, 0x67, 0x67, 0x53, 0, p.flags] + PutLE(p.granule, 8) + PutLE(p.serial, 4) +
        PutLE(p.sequence, 4) + [0, 0, 0, 0] + [|p.segments|] + p.segments + p.data
  {
    hide PutLE, OggCrc.Checksum;
    assert CAPTURE == [0x4F, 0x67, 0x67, 0x53];
  }
}

/** What reading an ID3v2 tag means, for tags of any writer: which bytes are a
    tag, what each field is taken from, and which frames a rewrite keeps.
    Stated on the layout of section 3 of ID3v2.3 and ID3v2.4.0 and on frame
    identifiers as they are spelled. */
module Id3Reading {
  import opened ByteOrder
  import opened Filtering
  import opened TagText
  import opened Id3Text
  import opened Id3
  import opened Options

  // ----- Sizes -----

  /** Four bytes as a number: of eight bits each, most significant first. */
  function Word(b: Bytes): nat
    requires |b| == 4
  {
    0x100_0000 * b[0] as int + 0x1_0000 * b[1] as int + 0x100 * b[2] as int + b[3] as int
  }

  /** And of seven bits each, when no top bit is set. */
  function SevenBits(b: Bytes): nat
    requires |b| == 4
  {
    0x20_0000 * b[0] as int + 0x4000 * b[1] as int + 0x80 * b[2] as int + b[3] as int
  }

  predicate TopBitsClear(b: Bytes) {
    forall i :: 0 <= i < |b| ==> b[i] < 0x80
  }

  lemma SizesAre(b: Bytes)
    requires |b| == 4
    ensures GetBE(b) == Word(b)
    ensures IsSyncsafe(b) <==> TopBitsClear(b)
    ensures TopBitsClear(b) ==> GetSyncsafe(b) == SevenBits(b)
  {
    var b3, b2, b1 := b[..3], b[..3][..2], b[..3][..2][..1];
    var c0, c1, c2: int := b[0], b[1], b[2];
    assert GetBE(b1) == c0;
    assert GetBE(b2) == 256 * c0 + c1;
    assert GetBE(b3) == 256 * (256 * c0 + c1) + c2;
    if TopBitsClear(b) {
      assert GetSyncsafe(b1) == c0;
      assert GetSyncsafe(b2) == 128 * c0 + c1;
      assert GetSyncsafe(b3) == 128 * (128 * c0 + c1) + c2;
    }
  }

  /** A complete frame: an identifier, the size of what follows the ten header
      bytes, two bytes of flags, and that. */
  predicate IsFrame(major: byte, frame: Bytes) {
    && |frame| >= 10 && frame[0] != 0
    && if major == 3 then Word(frame[4..8]) == |frame| - 10
       else TopBitsClear(frame[4..8]) && SevenBits(frame[4..8]) == |frame| - 10
  }

  lemma FramesAre(major: byte, frame: Bytes)
    ensures WellFormedFrame(major, frame) <==> IsFrame(major, frame)
  {
    hide GetBE, GetSyncsafe, IsSyncsafe, TopBitsClear, Word, SevenBits;
    if |frame| >= 10 {
      SizesAre(frame[4..8]);
    }
  }

  // ----- Tags -----

  /** A tag by its parts. What is stored between header and footer is, in
      version 3 with the flag, unsynchronised. */
  datatype Parts = Parts(
    major: byte, revision: byte, flags: byte, size: Bytes, stored: Bytes, extended: Bytes, frames: seq<Bytes>, padding: Bytes,
    footer: Bytes, audio: Bytes)

  predicate Flag(flags: byte, bit: nat)
    requires bit > 0
  {
    flags / bit % 2 == 1
  }

  /** An extended header says how long it is: in version 3 without the four
      bytes that say so, in version 4 with them. */
  predicate ExtendedIs(major: byte, present: bool, extended: Bytes) {
    if !present then extended == []
    else
      && |extended| >= 4
      && if major == 3 then Word(extended[..4]) + 4 == |extended|
         else TopBitsClear(extended[..4]) && SevenBits(extended[..4]) == |extended|
  }

  /** Frames end where fewer than ten bytes are left or a zero byte follows. */
  predicate PaddingIs(padding: Bytes) {
    |padding| < 10 || padding[0] == 0
  }

  predicate HeaderIs(b: Bytes, p: Parts) {
    && b == [0x49, 0x44, 0x33, p.major, p.revision, p.flags] + p.size + p.stored + p.footer + p.audio
    && p.revision != 0xFF && |p.size| == 4 && TopBitsClear(p.size) && SevenBits(p.size) == |p.stored| <= 0x100_0000
    && |p.footer| == (if p.major == 4 && Flag(p.flags, 0x10) then 10 else 0)
  }

  ghost predicate BodyIs(p: Parts) {
    && (if p.major == 3 && Flag(p.flags, 0x80) then RemoveUnsync(p.stored) else p.stored) ==
       p.extended + Concat(p.frames) + p.padding
    && ExtendedIs(p.major, Flag(p.flags, 0x40), p.extended)
    && (forall i :: 0 <= i < |p.frames| ==> IsFrame(p.major, p.frames[i]))
    && PaddingIs(p.padding)
  }

  /** b begins with this tag; only versions 3 and 4 have frames that are read. */
  ghost predicate IsTag(b: Bytes, p: Parts) {
    && HeaderIs(b, p)
    && if p.major == 3 || p.major == 4 then BodyIs(p) else p.frames == [] && p.extended == [] && p.padding == []
  }

  lemma {:induction false} FramesRead(major: byte, frames: seq<Bytes>, padding: Bytes)
    requires (forall i :: 0 <= i < |frames| ==> IsFrame(major, frames[i])) && PaddingIs(padding)
    ensures ReadFrames(major, Concat(frames) + padding) == Ok(frames)
  {
    hide ReadFrames, IsFrame, WellFormedFrame, PaddingIs;
    if frames == [] {
      assert Concat(frames) + padding == padding;
      NoFramesIn(major, padding);
    } else {
      var frame, rest := frames[0], Concat(frames[1..]) + padding;
      FramesAre(major, frame);
      FramesRead(major, frames[1..], padding);
      Regroup(frame, Concat(frames[1..]), padding);
      OneFrameRead(major, frame, rest);
      assert [frame] + frames[1..] == frames;
    }
  }

  lemma NoFramesIn(major: byte, padding: Bytes)
    requires PaddingIs(padding)
    ensures ReadFrames(major, padding) == Ok([])
  {
  }

  lemma OneFrameRead(major: byte, frame: Bytes, rest: Bytes)
    requires WellFormedFrame(major, frame)
    ensures ReadFrames(major, frame + rest) ==
      match ReadFrames(major, rest)
      case Err(e) => Err(e)
      case Ok(frames) => Ok([frame] + frames)
  {
    hide FrameSize;
    var body := frame + rest;
    assert body[4..8] == frame[4..8];
    assert body[..|frame|] == frame && body[|frame|..] == rest;
  }

  lemma {:induction false} ReadFramesAre(major: byte, body: Bytes) returns (padding: Bytes)
    requires ReadFrames(major, body).Ok?
    ensures body == Concat(ReadFrames(major, body).value) + padding && PaddingIs(padding)
    ensures forall i :: 0 <= i < |ReadFrames(major, body).value| ==> IsFrame(major, ReadFrames(major, body).value[i])
    decreases |body|
  {
    hide FrameSize, IsFrame;
    ReadIsWellFormed(major, body);
    forall i | 0 <= i < |ReadFrames(major, body).value|
      ensures IsFrame(major, ReadFrames(major, body).value[i])
    {
      FramesAre(major, ReadFrames(major, body).value[i]);
    }
    if |body| < HEADER_BYTES || body[0] == 0 {
      padding := body;
      assert [] + padding == body;
    } else {
      var n := HEADER_BYTES + FrameSize(major, body[4..8]).value;
      padding := ReadFramesAre(major, body[n..]);
      var frames := ReadFrames(major, body[n..]).value;
      assert body == body[..n] + body[n..];
      assert ([body[..n]] + frames)[1..] == frames;
      Regroup(body[..n], Concat(frames), padding);
    }
  }

  lemma ExtendedIsSkipped(major: byte, extended: Bytes, rest: Bytes)
    requires (major == 3 || major == 4) && ExtendedIs(major, true, extended)
    ensures SkipExtended(major, extended + rest) == Ok(rest)
  {
    hide GetBE, GetSyncsafe, IsSyncsafe, TopBitsClear;
    var body := extended + rest;
    assert body[..4] == extended[..4] && body[|extended|..] == rest;
    SizesAre(extended[..4]);
  }

  lemma SkippedIsExtended(major: byte, body: Bytes)
    requires (major == 3 || major == 4) && SkipExtended(major, body).Ok?
    ensures var rest := SkipExtended(major, body).value;
      |rest| <= |body| && var extended := body[..|body| - |rest|]; body == extended + rest && ExtendedIs(major, true, extended)
  {
    hide GetBE, GetSyncsafe, IsSyncsafe, TopBitsClear;
    SizesAre(body[..4]);
    var rest := SkipExtended(major, body).value;
    assert body[..|body| - |rest|][..4] == body[..4];
  }

  lemma BodyIsRead(p: Parts)
    requires (p.major == 3 || p.major == 4) && BodyIs(p)
    ensures ReadBody(p.major, p.flags, p.stored) == Ok(Tag(p.major, p.frames))
  {
    hide ExtendedIs, IsFrame, ReadFrames, RemoveUnsync, Concat, SkipExtended, PaddingIs;
    var rest := Concat(p.frames) + p.padding;
    FramesRead(p.major, p.frames, p.padding);
    FlagsAre(p.flags);
    if Flag(p.flags, 0x40) {
      ExtendedIsSkipped(p.major, p.extended, rest);
      assert p.extended + rest == p.extended + Concat(p.frames) + p.padding;
    } else {
      assert p.extended == [] by {
        NotExtended(p.major, p.extended);
      }
      assert [] + Concat(p.frames) + p.padding == rest;
    }
  }

  lemma NotExtended(major: byte, extended: Bytes)
    requires ExtendedIs(major, false, extended)
    ensures extended == []
  {
  }

  lemma FlagsAre(flags: byte)
    ensures Flag(flags, 0x80) <==> flags / 128 == 1
    ensures Flag(flags, 0x40) <==> flags / 64 % 2 == 1
    ensures Flag(flags, 0x10) <==> flags / 16 % 2 == 1
  {
  }

  lemma HeaderParts(head: Bytes, p: Parts, b: Bytes)
    requires |head| == 6 && |p.size| == 4 && b == head + p.size + p.stored + p.footer + p.audio
    ensures var n := |p.stored|;
      && |b| == 10 + n + |p.footer| + |p.audio| && b[..6] == head && b[6..10] == p.size
      && b[10..10 + n] == p.stored && b[10 + n..10 + n + |p.footer|] == p.footer && b[10 + n + |p.footer|..] == p.audio
  {
  }

  /** Every such tag is read, with the audio after it left unread; of another
      version nothing is taken but its length. */
  lemma TagIsRead(b: Bytes, p: Parts)
    requires IsTag(b, p)
    ensures ReadTag(b) == Ok((if p.major == 3 || p.major == 4 then Tag(p.major, p.frames) else Tag(4, []), p.audio))
  {
    hide ReadBody, BodyIs, GetSyncsafe, IsSyncsafe, TopBitsClear, SevenBits;
    var head: Bytes := [0x49, 0x44, 0x33, p.major, p.revision, p.flags];
    HeaderParts(head, p, b);
    assert b[..3] == b[..6][..3] && b[3] == b[..6][3] && b[4] == b[..6][4] && b[5] == b[..6][5];
    SizesAre(p.size);
    FlagsAre(p.flags);
    if p.major == 3 || p.major == 4 {
      BodyIsRead(p);
    } else {
      OtherVersion(p.major, p.flags, p.stored);
    }
  }

  lemma OtherVersion(major: byte, flags: byte, body: Bytes)
    requires major != 3 && major != 4
    ensures ReadBody(major, flags, body) == Ok(Tag(4, []))
  {
  }

  /** And whatever is read is such a tag, or does not start with one. */
  lemma ReadTagIs(b: Bytes) returns (p: Parts)
    requires ReadTag(b).Ok? && HasTag(b)
    ensures IsTag(b, p)
  {
    hide ReadBody, GetSyncsafe, IsSyncsafe, TopBitsClear, SevenBits;
    SizesAre(b[6..10]);
    FlagsAre(b[5]);
    var size := GetSyncsafe(b[6..10]);
    var footer := if b[3] == 4 && Flag(b[5], 0x10) then 10 else 0;
    var stored := b[10..10 + size];
    var (extended, frames, padding) := ([], [], []);
    if b[3] == 3 || b[3] == 4 {
      extended, frames, padding := ReadBodyIs(b[3], b[5], stored);
    }
    p := Parts(b[3], b[4], b[5], b[6..10], stored, extended, frames, padding, b[10 + size..10 + size + footer],
               b[10 + size + footer..]);
    Assembled(b, size, footer);
  }

  lemma Assembled(b: Bytes, size: nat, footer: nat)
    requires |b| >= 10 + size + footer && b[..3] == [73, 68, 51]
    ensures b == [0x49, 0x44, 0x33, b[3], b[4], b[5]] + b[6..10] + b[10..10 + size] + b[10 + size..10 + size + footer] +
      b[10 + size + footer..]
  {
    assert b[..6] == b[..3] + [b[3], b[4], b[5]];
  }

  lemma ReadBodyIs(major: byte, flags: byte, stored: Bytes) returns (extended: Bytes, frames: seq<Bytes>, padding: Bytes)
    requires (major == 3 || major == 4) && ReadBody(major, flags, stored).Ok?
    ensures (if major == 3 && Flag(flags, 0x80) then RemoveUnsync(stored) else stored) == extended + Concat(frames) + padding
    ensures ExtendedIs(major, Flag(flags, 0x40), extended) && PaddingIs(padding)
    ensures forall i :: 0 <= i < |frames| ==> IsFrame(major, frames[i])
  {
    hide ExtendedIs, IsFrame, ReadFrames, RemoveUnsync, Concat, SkipExtended, PaddingIs, Flag;
    FlagsAre(flags);
    var plain := if major == 3 && Flag(flags, 0x80) then RemoveUnsync(stored) else stored;
    var rest := if Flag(flags, 0x40) then SkipExtended(major, plain).value else plain;
    frames := ReadFrames(major, rest).value;
    padding := ReadFramesAre(major, rest);
    if Flag(flags, 0x40) {
      SkippedIsExtended(major, plain);
      extended := plain[..|plain| - |rest|];
      Regroup(extended, Concat(frames), padding);
    } else {
      extended := [];
      IsNotExtended(major);
      assert [] + Concat(frames) == Concat(frames);
    }
  }

  lemma IsNotExtended(major: byte)
    ensures ExtendedIs(major, false, [])
  {
  }

  /** Exactly these beginnings are read: no tag at all, or a tag that is as the
      standard has it and no larger than the program takes. */
  lemma TagsAreReadIff(b: Bytes)
    ensures ReadTag(b).Ok? <==> !([0x49, 0x44, 0x33] <= b && |b| >= 10) || exists p :: IsTag(b, p)
    ensures !([0x49, 0x44, 0x33] <= b && |b| >= 10) ==> ReadTag(b) == Ok((Tag(4, []), b))
    ensures forall p :: IsTag(b, p) ==>
      ReadTag(b) == Ok((if p.major == 3 || p.major == 4 then Tag(p.major, p.frames) else Tag(4, []), p.audio))
    ensures ReadTag(b).Err? ==> ReadTag(b) == Err(Malformed)
  {
    hide IsTag, ReadTag;
    assert HasTag(b) <==> [0x49, 0x44, 0x33] <= b && |b| >= 10;
    if !HasTag(b) {
      NoTagIsRead(b);
    } else if ReadTag(b).Ok? {
      var p := ReadTagIs(b);
    } else {
      TagErrs(b);
    }
    forall p | IsTag(b, p)
      ensures ReadTag(b) == Ok((if p.major == 3 || p.major == 4 then Tag(p.major, p.frames) else Tag(4, []), p.audio))
    {
      TagIsRead(b, p);
    }
  }

  lemma NoTagIsRead(b: Bytes)
    requires !HasTag(b)
    ensures ReadTag(b) == Ok((Tag(4, []), b))
  {
  }

  lemma TagErrs(b: Bytes)
    requires ReadTag(b).Err?
    ensures ReadTag(b) == Err(Malformed)
  {
    hide ReadFrames, GetSyncsafe, RemoveUnsync, GetBE;
    if IsSyncsafe(b[6..10]) && b[4] != 0xFF {
      var size := GetSyncsafe(b[6..10]);
      if size <= MAX_TAG_BYTES && |b| >= HEADER_BYTES + size {
        var plain := if b[3] == 3 && b[5] / 128 == 1 then RemoveUnsync(b[HEADER_BYTES..HEADER_BYTES + size])
          else b[HEADER_BYTES..HEADER_BYTES + size];
        FramesErr(b[3], plain);
        if SkipExtended(b[3], plain).Ok? {
          FramesErr(b[3], SkipExtended(b[3], plain).value);
        }
      }
    }
  }

  lemma {:induction false} FramesErr(major: byte, body: Bytes)
    ensures ReadFrames(major, body).Err? ==> ReadFrames(major, body) == Err(Malformed)
    decreases |body|
  {
    hide FrameSize;
    if |body| >= HEADER_BYTES && body[0] != 0 {
      var n := FrameSize(major, body[4..8]);
      if n.Some? && HEADER_BYTES + n.value <= |body| {
        FramesErr(major, body[HEADER_BYTES + n.value..]);
      }
    }
  }

  // ----- Frames -----

  /** What a frame says, by its second flag byte: nothing when it is compressed
      or encrypted; in version 4 after undoing its unsynchronisation and
      dropping the length it begins with, when the flags say so. */
  lemma FrameBodyIs(major: byte, head: Bytes, flags: byte, body: Bytes)
    requires |head| == 9 && (major == 3 || major == 4)
    ensures var stored := FrameBody(major, head + [flags] + body);
      if major == 3 then stored == if Flag(flags, 0x80) || Flag(flags, 0x40) then None else Some(body)
      else if Flag(flags, 8) || Flag(flags, 4) then stored == None
      else
        var plain := if Flag(flags, 2) then RemoveUnsync(body) else body;
        stored == if !Flag(flags, 1) then Some(plain) else if |plain| < 4 then None else Some(plain[4..])
  {
    hide RemoveUnsync, Flag;
    FrameSplits(head, flags, body);
    FlagPairs(flags);
  }

  lemma FrameSplits(head: Bytes, flags: byte, body: Bytes)
    requires |head| == 9
    ensures (head + [flags] + body)[9] == flags && (head + [flags] + body)[HEADER_BYTES..] == body
  {
    assert |head + [flags]| == HEADER_BYTES;
  }

  lemma FlagPairs(flags: byte)
    ensures flags / 64 == 0 <==> !Flag(flags, 0x80) && !Flag(flags, 0x40)
    ensures flags / 4 % 4 == 0 <==> !Flag(flags, 8) && !Flag(flags, 4)
    ensures flags / 2 % 2 == 1 <==> Flag(flags, 2)
    ensures flags % 2 == 0 <==> !Flag(flags, 1)
  {
    var q, h := flags / 4, flags / 64;
    assert flags / 8 == q / 2 && q == q / 4 * 4 + q % 4;
    assert flags / 128 == h / 2 && h < 4;
  }

  /** The four letters of an identifier. */
  predicate HasId(frame: Bytes, id: string) {
    |id| == 4 && |frame| >= 10 && forall i :: 0 <= i < 4 ==> frame[i] == id[i] as int
  }

  lemma IdIs(frame: Bytes, id: string, bytes: Bytes)
    requires |frame| >= 10 && |id| == |bytes| == 4 && forall i :: 0 <= i < 4 ==> bytes[i] == id[i] as int
    ensures HasId(frame, id) <==> frame[..4] == bytes
  {
    assert forall i :: 0 <= i < 4 ==> frame[..4][i] == frame[i];
  }

  // ----- Fields -----

  /** The texts of the readable frames with one of two identifiers, in order. */
  function TextsOf(major: byte, frames: seq<Bytes>, id: string, orId: string): seq<Bytes>
    requires forall i :: 0 <= i < |frames| ==> |frames[i]| >= HEADER_BYTES
  {
    if frames == [] then []
    else
      var rest := TextsOf(major, frames[1..], id, orId);
      if (HasId(frames[0], id) || HasId(frames[0], orId)) && FrameBody(major, frames[0]).Some?
      then [DecodeFrameText(FrameBody(major, frames[0]).value)] + rest else rest
  }

  /** The texts of the readable comments without a description, in order. */
  function CommentsOf(major: byte, frames: seq<Bytes>): seq<Bytes>
    requires forall i :: 0 <= i < |frames| ==> |frames[i]| >= HEADER_BYTES
  {
    if frames == [] then []
    else
      var rest := CommentsOf(major, frames[1..]);
      if HasId(frames[0], "COMM") && FrameBody(major, frames[0]).Some? && SplitComment(FrameBody(major, frames[0]).value).Split?
        && SplitComment(FrameBody(major, frames[0]).value).description == []
      then [SplitComment(FrameBody(major, frames[0]).value).text] + rest else rest
  }

  /** The first text that is not empty. */
  function FirstOf(texts: seq<Bytes>): Bytes {
    if texts == [] then [] else if texts[0] != [] then texts[0] else FirstOf(texts[1..])
  }

  function LastNumber(u: Unicode, texts: seq<Bytes>, otherwise: int): int {
    if texts == [] then otherwise else LeadingValue(u, texts[|texts| - 1], 4)
  }

  /** Where every field comes from when f is what was read before these
      frames. */
  predicate FieldsAre(u: Unicode, major: byte, f: Fields, frames: seq<Bytes>, g: Fields)
    requires forall i :: 0 <= i < |frames| ==> |frames[i]| >= HEADER_BYTES
  {
    && g.m.title == OrKeep(f.m.title, FirstOf(TextsOf(major, frames, "TIT2", "TIT2")))
    && g.m.artist == OrKeep(f.m.artist, FirstOf(TextsOf(major, frames, "TPE1", "TPE1")))
    && g.m.album == OrKeep(f.m.album, FirstOf(TextsOf(major, frames, "TALB", "TALB")))
    && g.m.albumArtist == OrKeep(f.m.albumArtist, FirstOf(TextsOf(major, frames, "TPE2", "TPE2")))
    && g.m.composer == OrKeep(f.m.composer, FirstOf(TextsOf(major, frames, "TCOM", "TCOM")))
    && g.m.genre == OrKeep(f.m.genre, FirstOf(TextsOf(major, frames, "TCON", "TCON")))
    && g.m.comment == OrKeep(f.m.comment, FirstOf(CommentsOf(major, frames)))
    && g.year == OrKeep(f.year, FirstOf(TextsOf(major, frames, "TYER", "TDRC")))
    && g.m.trackNumber == LastNumber(u, TextsOf(major, frames, "TRCK", "TRCK"), f.m.trackNumber)
    && g.m.discNumber == LastNumber(u, TextsOf(major, frames, "TPOS", "TPOS"), f.m.discNumber)
    && g.m.year == f.m.year
  }

  function Take(seen: Bytes, has: bool, text: Bytes): Bytes {
    if has then OrKeep(seen, text) else seen
  }

  /** What one readable frame sets. */
  predicate FrameSets(u: Unicode, f: Fields, frame: Bytes, text: Bytes, split: Split, g: Fields) {
    && g.m.title == Take(f.m.title, HasId(frame, "TIT2"), text)
    && g.m.artist == Take(f.m.artist, HasId(frame, "TPE1"), text)
    && g.m.album == Take(f.m.album, HasId(frame, "TALB"), text)
    && g.m.albumArtist == Take(f.m.albumArtist, HasId(frame, "TPE2"), text)
    && g.m.composer == Take(f.m.composer, HasId(frame, "TCOM"), text)
    && g.m.genre == Take(f.m.genre, HasId(frame, "TCON"), text)
    && g.year == Take(f.year, HasId(frame, "TYER") || HasId(frame, "TDRC"), text)
    && g.m.comment == (if HasId(frame, "COMM") && split.Split? && split.description == [] then OrKeep(f.m.comment, split.text)
                       else f.m.comment)
    && g.m.trackNumber == (if HasId(frame, "TRCK") then LeadingValue(u, text, 4) else f.m.trackNumber)
    && g.m.discNumber == (if HasId(frame, "TPOS") then LeadingValue(u, text, 4) else f.m.discNumber)
    && g.m.year == f.m.year
  }

  lemma IdsAre(frame: Bytes)
    requires |frame| >= HEADER_BYTES
    ensures HasId(frame, "TIT2") <==> frame[..4] == TIT2
    ensures HasId(frame, "TPE1") <==> frame[..4] == TPE1
    ensures HasId(frame, "TALB") <==> frame[..4] == TALB
    ensures HasId(frame, "TPE2") <==> frame[..4] == TPE2
    ensures HasId(frame, "TCOM") <==> frame[..4] == TCOM
    ensures HasId(frame, "TCON") <==> frame[..4] == TCON
    ensures HasId(frame, "TRCK") <==> frame[..4] == TRCK
    ensures HasId(frame, "TPOS") <==> frame[..4] == TPOS
    ensures HasId(frame, "TYER") <==> frame[..4] == TYER
    ensures HasId(frame, "TDRC") <==> frame[..4] == TDRC
    ensures HasId(frame, "TDAT") <==> frame[..4] == TDAT
    ensures HasId(frame, "TIME") <==> frame[..4] == TIME
    ensures HasId(frame, "TRDA") <==> frame[..4] == TRDA
    ensures HasId(frame, "COMM") <==> frame[..4] == COMM
    ensures HasId(frame, "TXXX") <==> frame[..4] == TXXX
  {
    hide HasId;
    IdIs(frame, "TIT2", TIT2);
    IdIs(frame, "TPE1", TPE1);
    IdIs(frame, "TALB", TALB);
    IdIs(frame, "TPE2", TPE2);
    IdIs(frame, "TCOM", TCOM);
    IdIs(frame, "TCON", TCON);
    IdIs(frame, "TRCK", TRCK);
    IdIs(frame, "TPOS", TPOS);
    IdIs(frame, "TYER", TYER);
    IdIs(frame, "TDRC", TDRC);
    IdIs(frame, "TDAT", TDAT);
    IdIs(frame, "TIME", TIME);
    IdIs(frame, "TRDA", TRDA);
    IdIs(frame, "COMM", COMM);
    IdIs(frame, "TXXX", TXXX);
  }

  lemma FrameSetsFields(u: Unicode, major: byte, f: Fields, frame: Bytes)
    requires |frame| >= HEADER_BYTES
    ensures var g := ApplyFrame(u, major, f, frame);
      match FrameBody(major, frame)
      case None => g == f
      case Some(body) => FrameSets(u, f, frame, DecodeFrameText(body), SplitComment(body), g)
  {
    hide HasId, FrameBody, DecodeFrameText, SplitComment, LeadingValue;
    IdsAre(frame);
  }

  lemma OneMore(seen: Bytes, has: bool, text: Bytes, rest: seq<Bytes>)
    ensures OrKeep(Take(seen, has, text), FirstOf(rest)) == OrKeep(seen, FirstOf((if has then [text] else []) + rest))
  {
    if has {
      assert ([text] + rest)[1..] == rest;
    } else {
      assert [] + rest == rest;
    }
  }

  lemma FieldsStep(u: Unicode, major: byte, f: Fields, g: Fields, h: Fields, frames: seq<Bytes>, text: Bytes, split: Split)
    requires (forall i :: 0 <= i < |frames| ==> |frames[i]| >= HEADER_BYTES) && frames != []
    requires FrameBody(major, frames[0]).Some? && text == DecodeFrameText(FrameBody(major, frames[0]).value)
    requires split == SplitComment(FrameBody(major, frames[0]).value)
    requires FrameSets(u, f, frames[0], text, split, g) && FieldsAre(u, major, g, frames[1..], h)
    ensures FieldsAre(u, major, f, frames, h)
  {
    hide HasId, FrameBody, DecodeFrameText, SplitComment, LeadingValue, OrKeep, FirstOf, Take, TextsOf, CommentsOf, LastNumber;
    var frame, rest := frames[0], frames[1..];
    OneMore(f.m.title, HasId(frame, "TIT2"), text, TextsOf(major, rest, "TIT2", "TIT2"));
    OneMore(f.m.artist, HasId(frame, "TPE1"), text, TextsOf(major, rest, "TPE1", "TPE1"));
    OneMore(f.m.album, HasId(frame, "TALB"), text, TextsOf(major, rest, "TALB", "TALB"));
    OneMore(f.m.albumArtist, HasId(frame, "TPE2"), text, TextsOf(major, rest, "TPE2", "TPE2"));
    OneMore(f.m.composer, HasId(frame, "TCOM"), text, TextsOf(major, rest, "TCOM", "TCOM"));
    OneMore(f.m.genre, HasId(frame, "TCON"), text, TextsOf(major, rest, "TCON", "TCON"));
    OneMore(f.year, HasId(frame, "TYER") || HasId(frame, "TDRC"), text, TextsOf(major, rest, "TYER", "TDRC"));
    CommentStep(major, f.m.comment, g.m.comment, frames, split);
    TextsStep(major, frames, text);
    NumberStep(u, f.m.trackNumber, HasId(frame, "TRCK"), text, TextsOf(major, rest, "TRCK", "TRCK"));
    NumberStep(u, f.m.discNumber, HasId(frame, "TPOS"), text, TextsOf(major, rest, "TPOS", "TPOS"));
  }

  lemma NumberStep(u: Unicode, seen: int, has: bool, text: Bytes, rest: seq<Bytes>)
    ensures LastNumber(u, rest, if has then LeadingValue(u, text, 4) else seen) ==
      LastNumber(u, (if has then [text] else []) + rest, seen)
  {
    hide LeadingValue;
    if has && rest != [] {
      assert ([text] + rest)[|rest|] == rest[|rest| - 1];
    }
  }

  lemma TextsStep(major: byte, frames: seq<Bytes>, text: Bytes)
    requires (forall i :: 0 <= i < |frames| ==> |frames[i]| >= HEADER_BYTES) && frames != []
    requires FrameBody(major, frames[0]).Some? && text == DecodeFrameText(FrameBody(major, frames[0]).value)
    ensures forall id, orId ::
      TextsOf(major, frames, id, orId) ==
      (if HasId(frames[0], id) || HasId(frames[0], orId) then [text] else []) + TextsOf(major, frames[1..], id, orId)
  {
    hide HasId, FrameBody, DecodeFrameText;
  }

  lemma CommentStep(major: byte, seen: Bytes, next: Bytes, frames: seq<Bytes>, split: Split)
    requires (forall i :: 0 <= i < |frames| ==> |frames[i]| >= HEADER_BYTES) && frames != []
    requires FrameBody(major, frames[0]).Some? && split == SplitComment(FrameBody(major, frames[0]).value)
    requires next == if HasId(frames[0], "COMM") && split.Split? && split.description == [] then OrKeep(seen, split.text) else seen
    ensures OrKeep(next, FirstOf(CommentsOf(major, frames[1..]))) == OrKeep(seen, FirstOf(CommentsOf(major, frames)))
  {
    hide HasId, FrameBody, SplitComment;
  }

  lemma {:induction false} AllFieldsAre(u: Unicode, major: byte, f: Fields, frames: seq<Bytes>)
    requires forall i :: 0 <= i < |frames| ==> |frames[i]| >= HEADER_BYTES
    ensures FieldsAre(u, major, f, frames, ApplyAll(u, major, f, frames))
    decreases |frames|
  {
    hide FrameBody, DecodeFrameText, SplitComment, ApplyFrame, FieldsAre, FrameSets;
    if frames == [] {
      NoFrames(u, major, f);
    } else {
      var g := ApplyFrame(u, major, f, frames[0]);
      AllFieldsAre(u, major, g, frames[1..]);
      FrameSetsFields(u, major, f, frames[0]);
      var h := ApplyAll(u, major, f, frames);
      match FrameBody(major, frames[0])
      case None => SkippedStep(u, major, f, frames, h);
      case Some(body) => FieldsStep(u, major, f, g, h, frames, DecodeFrameText(body), SplitComment(body));
    }
  }

  lemma NoFrames(u: Unicode, major: byte, f: Fields)
    ensures ApplyAll(u, major, f, []) == f && FieldsAre(u, major, f, [], f)
  {
  }

  lemma SkippedStep(u: Unicode, major: byte, f: Fields, frames: seq<Bytes>, h: Fields)
    requires (forall i :: 0 <= i < |frames| ==> |frames[i]| >= HEADER_BYTES) && frames != []
    requires FrameBody(major, frames[0]).None? && FieldsAre(u, major, f, frames[1..], h)
    ensures FieldsAre(u, major, f, frames, h)
  {
    hide HasId, FrameBody, DecodeFrameText, SplitComment, LeadingValue, OrKeep, FirstOf;
  }

  /** Every field of a tag of any writer: each text is the first that is not
      empty among the frames of its kind, each number that of the last frame
      of its kind, the year stands in TYER and TDRC alike, and the comment is
      the first without a description. */
  lemma MetadataIs(u: Unicode, tag: Tag)
    requires forall i :: 0 <= i < |tag.frames| ==> |tag.frames[i]| >= HEADER_BYTES
    ensures var major, frames := tag.major, tag.frames;
      Read(u, tag) == Metadata(
        FirstOf(TextsOf(major, frames, "TIT2", "TIT2")), FirstOf(TextsOf(major, frames, "TPE1", "TPE1")),
        FirstOf(TextsOf(major, frames, "TALB", "TALB")), FirstOf(TextsOf(major, frames, "TPE2", "TPE2")),
        FirstOf(TextsOf(major, frames, "TCOM", "TCOM")), FirstOf(TextsOf(major, frames, "TCON", "TCON")),
        FirstOf(CommentsOf(major, frames)),
        LeadingValue(u, FirstOf(TextsOf(major, frames, "TYER", "TDRC")), 4),
        LastNumber(u, TextsOf(major, frames, "TRCK", "TRCK"), 0),
        LastNumber(u, TextsOf(major, frames, "TPOS", "TPOS"), 0))
  {
    hide ApplyAll, TextsOf, CommentsOf, FirstOf, LastNumber, LeadingValue;
    AllFieldsAre(u, tag.major, NO_FIELDS, tag.frames);
  }

  // ----- What a rewrite keeps -----

  /** The thirteen identifiers of the edited fields, and of dates that would
      contradict the new year. */
  predicate EditedField(frame: Bytes) {
    || HasId(frame, "TIT2") || HasId(frame, "TPE1") || HasId(frame, "TALB") || HasId(frame, "TPE2") || HasId(frame, "TCOM")
    || HasId(frame, "TCON") || HasId(frame, "TRCK") || HasId(frame, "TPOS") || HasId(frame, "TYER") || HasId(frame, "TDRC")
    || HasId(frame, "TDAT") || HasId(frame, "TIME") || HasId(frame, "TRDA")
  }

  /** The names under which other programs keep the edited fields. */
  predicate EditedName(name: Bytes) {
    || Spells(name, "title") || Spells(name, "artist") || Spells(name, "album") || Spells(name, "albumartist")
    || Spells(name, "album artist") || Spells(name, "album_artist") || Spells(name, "composer") || Spells(name, "genre")
    || Spells(name, "date") || Spells(name, "year") || Spells(name, "track") || Spells(name, "tracknumber")
    || Spells(name, "disc") || Spells(name, "discnumber") || Spells(name, "comment") || Spells(name, "description")
  }

  /** A comment without a description. */
  predicate PlainComment(major: byte, frame: Bytes)
    requires |frame| >= HEADER_BYTES
  {
    && HasId(frame, "COMM") && FrameBody(major, frame).Some?
    && var split := SplitComment(FrameBody(major, frame).value);
    && split.Split? && split.description == []
  }

  /** A user text under one of those names, in any case. */
  predicate EditedUserText(u: Unicode, major: byte, frame: Bytes)
    requires |frame| >= HEADER_BYTES
  {
    && HasId(frame, "TXXX") && FrameBody(major, frame).Some?
    && var body := FrameBody(major, frame).value;
    && body != [] && Terminator(body[0], body[1..]) >= 0
    && EditedName(u.lower(DecodeText(body[0], body[1..][..Terminator(body[0], body[1..])])))
  }

  /** Cover art, ratings, replay gain, lyrics and every other frame. */
  predicate Stays(u: Unicode, major: byte, frame: Bytes) {
    |frame| >= HEADER_BYTES && !EditedField(frame) && !PlainComment(major, frame) && !EditedUserText(u, major, frame)
  }

  lemma NamesAre(name: Bytes)
    ensures EditedName(name) <==> exists k :: k in USER_TEXT_NAMES && IsAscii(k) && name == Ascii(k)
  {
    hide Spells, Ascii, EditedName, USER_TEXT_NAMES;
    if EditedName(name) {
      var i := SpelledAt(name);
      var k := USER_TEXT_NAMES[i];
      ListedIsAscii(k);
      SpellsIs(name, k);
    }
    if k :| k in USER_TEXT_NAMES && IsAscii(k) && name == Ascii(k) {
      SpellsIs(name, k);
      ListedIsEdited(name, k);
    }
  }

  lemma ListedIsEdited(name: Bytes, k: string)
    requires k in USER_TEXT_NAMES && Spells(name, k)
    ensures EditedName(name)
  {
    hide Spells;
    var i :| 0 <= i < |USER_TEXT_NAMES| && USER_TEXT_NAMES[i] == k;
    assert i < 16;
  }

  lemma SpellsIs(name: Bytes, k: string)
    ensures IsAscii(k) ==> (Spells(name, k) <==> name == Ascii(k))
  {
  }

  lemma ListedIsAscii(k: string)
    requires k in USER_TEXT_NAMES
    ensures IsAscii(k)
  {
    var i :| 0 <= i < |USER_TEXT_NAMES| && USER_TEXT_NAMES[i] == k;
  }

  lemma SpelledAt(name: Bytes) returns (i: nat)
    requires EditedName(name)
    ensures i < |USER_TEXT_NAMES| && Spells(name, USER_TEXT_NAMES[i])
  {
    hide Spells;
    i := if Spells(name, "title") then 0 else if Spells(name, "artist") then 1 else if Spells(name, "album") then 2
         else if Spells(name, "albumartist") then 3 else if Spells(name, "album artist") then 4
         else if Spells(name, "album_artist") then 5 else if Spells(name, "composer") then 6 else if Spells(name, "genre") then 7
         else if Spells(name, "date") then 8 else if Spells(name, "year") then 9 else if Spells(name, "track") then 10
         else if Spells(name, "tracknumber") then 11 else if Spells(name, "disc") then 12
         else if Spells(name, "discnumber") then 13 else if Spells(name, "comment") then 14 else 15;
  }

  lemma ManagedIff(u: Unicode, major: byte, frame: Bytes)
    requires |frame| >= HEADER_BYTES
    ensures Managed(u, major, frame) <==> !Stays(u, major, frame)
  {
    hide HasId, FrameBody, SplitComment, DecodeText, Terminator, EditedName;
    IdsAre(frame);
    if FrameBody(major, frame).Some? && FrameBody(major, frame).value != [] {
      var body := FrameBody(major, frame).value;
      var end := Terminator(body[0], body[1..]);
      assert -1 <= end <= |body| - 1 by {
        EndsWithin(body);
      }
      if end >= 0 {
        NamesAre(u.lower(DecodeText(body[0], body[1..][..end])));
      }
    }
  }

  lemma EndsWithin(body: Bytes)
    requires body != []
    ensures -1 <= Terminator(body[0], body[1..]) <= |body| - 1
  {
  }

  function StaysIn(u: Unicode, major: byte): Bytes -> bool {
    (frame: Bytes) => Stays(u, major, frame)
  }

  lemma {:induction false} KeptIsFiltered(u: Unicode, major: byte, frames: seq<Bytes>)
    requires forall i :: 0 <= i < |frames| ==> |frames[i]| >= HEADER_BYTES
    ensures IsFilter<Bytes>(frames, StaysIn(u, major), Kept(u, major, frames))
  {
    hide Managed, Stays, IsFilter;
    var keep := StaysIn(u, major);
    if frames == [] {
      FilterNone<Bytes>(keep);
    } else {
      ManagedIff(u, major, frames[0]);
      KeptIsFiltered(u, major, frames[1..]);
      FilterMore<Bytes>(frames[0], frames[1..], keep, Kept(u, major, frames[1..]));
      assert [frames[0]] + frames[1..] == frames;
    }
  }

  /** The written frames, by what they are called in their version: the year
      stands in TYER in version 3 and in TDRC in version 4. */
  lemma WrittenTexts(major: byte, m: Metadata)
    ensures var texts := Texts(major, m); var year := if major == 3 then "TYER" else "TDRC";
      && |texts| == 9 && (forall i :: 0 <= i < 9 ==> |texts[i].0| == 4)
      && Spells(texts[0].0, "TIT2") && Spells(texts[1].0, "TPE1") && Spells(texts[2].0, "TALB") && Spells(texts[3].0, "TPE2")
      && Spells(texts[4].0, "TCOM") && Spells(texts[5].0, "TCON") && Spells(texts[6].0, year) && Spells(texts[7].0, "TRCK")
      && Spells(texts[8].0, "TPOS")
      && texts[0].1 == m.title && texts[1].1 == m.artist && texts[2].1 == m.album && texts[3].1 == m.albumArtist
      && texts[4].1 == m.composer && texts[5].1 == m.genre && texts[6].1 == YearText(m.year)
      && texts[7].1 == NumberText(m.trackNumber) && texts[8].1 == NumberText(m.discNumber)
  {
    hide YearText, NumberText;
  }

  /** A rewritten tag is the written frames, then every frame of another kind,
      unchanged and in order; of the edited kinds only the written ones are
      there. Version 3 stays version 3, everything else becomes version 4. */
  lemma RewriteKeepsFrames(u: Unicode, tag: Tag, m: Metadata)
    requires forall i :: 0 <= i < |tag.frames| ==> |tag.frames[i]| >= HEADER_BYTES
    ensures var out := With(u, tag, m); var major := if tag.major == 3 then 3 else 4;
      && out.major == major
      && exists kept :: IsFilter<Bytes>(tag.frames, StaysIn(u, tag.major), kept)
           && out.frames == TextFrames(major, Texts(major, m)) + CommentFrame(major, m.comment) + kept
  {
    hide Texts, TextFrames, CommentFrame, IsFilter;
    KeptIsFiltered(u, tag.major, tag.frames);
  }
}

/** ID3v2 tags (ID3v2.3 and ID3v2.4.0): reading, printing, replacing the
    edited frames and reading them back. */
module Id3 {
  import opened ByteOrder
  import opened TagText
  import opened Id3Text
  import opened Options

  /** Frames are complete raw frames, header included, in the tag's version. */
  datatype Tag = Tag(major: byte, frames: seq<Bytes>)

  const HEADER_BYTES := 10

  // Frame identifiers, in ASCII.
  const TIT2: Bytes := [84, 73, 84, 50]
  const TPE1: Bytes := [84, 80, 69, 49]
  const TALB: Bytes := [84, 65, 76, 66]
  const TPE2: Bytes := [84, 80, 69, 50]
  const TCOM: Bytes := [84, 67, 79, 77]
  const TCON: Bytes := [84, 67, 79, 78]
  const TRCK: Bytes := [84, 82, 67, 75]
  const TPOS: Bytes := [84, 80, 79, 83]
  const TYER: Bytes := [84, 89, 69, 82]
  const TDRC: Bytes := [84, 68, 82, 67]
  const TDAT: Bytes := [84, 68, 65, 84]
  const TIME: Bytes := [84, 73, 77, 69]
  const TRDA: Bytes := [84, 82, 68, 65]
  const COMM: Bytes := [67, 79, 77, 77]
  const TXXX: Bytes := [84, 88, 88, 88]

  predicate ManagedId(id: Bytes) {
    || id == TIT2 || id == TPE1 || id == TALB || id == TPE2 || id == TCOM || id == TCON || id == TRCK
    || id == TPOS || id == TYER || id == TDRC || id == TDAT || id == TIME || id == TRDA
  }

  /** The TXXX descriptions other tools use for the edited fields, lower case. */
  const USER_TEXT_NAMES: seq<string> := [
    "title", "artist", "album", "albumartist", "album artist", "album_artist", "composer", "genre", "date", "year",
    "track", "tracknumber", "disc", "discnumber", "comment", "description"]

  // ----- Frames -----

  function FrameSize(major: byte, size: Bytes): Option<nat>
    requires |size| == 4
  {
    if major == 3 then Some(GetBE(size)) else if IsSyncsafe(size) then Some(GetSyncsafe(size)) else None
  }

  /** The frames of a tag body, up to the padding. */
  function ReadFrames(major: byte, body: Bytes): Result<seq<Bytes>>
    decreases |body|
  {
    if |body| < HEADER_BYTES || body[0] == 0 then Ok([])
    else
      match FrameSize(major, body[4..8])
      case None => Err(Malformed)
      case Some(n) =>
        if HEADER_BYTES + n > |body| then Err(Malformed)
        else
          var frames :- ReadFrames(major, body[HEADER_BYTES + n..]);
          Ok([body[..HEADER_BYTES + n]] + frames)
  }

  /** The body without an extended header, which a rewrite drops. */
  function SkipExtended(major: byte, body: Bytes): Result<Bytes> {
    if |body| < 4 || (major == 4 && !IsSyncsafe(body[..4])) then Err(Malformed)
    else
      var skip := if major == 4 then GetSyncsafe(body[..4]) else GetBE(body[..4]) + 4;
      if skip > |body| || skip < 4 then Err(Malformed) else Ok(body[skip..])
  }

  /** What follows the ten header bytes of a tag, by version and flags. */
  function ReadBody(major: byte, flags: byte, body: Bytes): Result<Tag> {
    if major != 3 && major != 4 then Ok(Tag(4, []))
    else
      var plain := if major == 3 && flags / 128 == 1 then RemoveUnsync(body) else body;
      var rest :- if flags / 64 % 2 == 1 then SkipExtended(major, plain) else Ok(plain);
      var frames :- ReadFrames(major, rest);
      Ok(Tag(major, frames))
  }

  predicate HasTag(b: Bytes) {
    |b| >= HEADER_BYTES && b[..3] == [73, 68, 51]
  }

  /** The leading tag, if any, and what follows it. */
  function ReadTag(b: Bytes): Result<(Tag, Bytes)> {
    if !HasTag(b) then Ok((Tag(4, []), b))
    else if !IsSyncsafe(b[6..10]) || b[4] == 0xFF then Err(Malformed)
    else
      var size := GetSyncsafe(b[6..10]);
      var footer := if b[3] == 4 && b[5] / 16 % 2 == 1 then HEADER_BYTES else 0;
      if size > MAX_TAG_BYTES || |b| < HEADER_BYTES + size + footer then Err(Malformed)
      else
        var tag :- ReadBody(b[3], b[5], b[HEADER_BYTES..HEADER_BYTES + size]);
        Ok((tag, b[HEADER_BYTES + size + footer..]))
  }

  /** A frame's content, with per-frame unsynchronisation undone. Compressed
      and encrypted frames are not readable. */
  function FrameBody(major: byte, frame: Bytes): Option<Bytes>
    requires |frame| >= HEADER_BYTES
  {
    var body := frame[HEADER_BYTES..];
    if major == 3 then if frame[9] / 64 == 0 then Some(body) else None
    else if frame[9] / 4 % 4 != 0 then None
    else
      var plain := if frame[9] / 2 % 2 == 1 then RemoveUnsync(body) else body;
      if frame[9] % 2 == 0 then Some(plain) else if |plain| < 4 then None else Some(plain[4..])
  }

  predicate ManagedComment(major: byte, frame: Bytes)
    requires |frame| >= HEADER_BYTES
  {
    && FrameBody(major, frame).Some?
    && var split := SplitComment(FrameBody(major, frame).value);
    && split.Split? && split.description == []
  }

  predicate ManagedUserText(u: Unicode, major: byte, frame: Bytes)
    requires |frame| >= HEADER_BYTES
  {
    && FrameBody(major, frame).Some?
    && var body := FrameBody(major, frame).value;
    && body != []
    && var end := Terminator(body[0], body[1..]);
    && end >= 0
    && var name := u.lower(DecodeText(body[0], body[1..][..end]));
    && exists k :: k in USER_TEXT_NAMES && IsAscii(k) && name == Ascii(k)
  }

  predicate IsAscii(s: string) {
    forall i :: 0 <= i < |s| ==> s[i] < 128 as char
  }

  /** Frames a rewrite replaces. */
  predicate Managed(u: Unicode, major: byte, frame: Bytes)
    requires |frame| >= HEADER_BYTES
  {
    || ManagedId(frame[..4])
    || (frame[..4] == COMM && ManagedComment(major, frame))
    || (frame[..4] == TXXX && ManagedUserText(u, major, frame))
  }

  /** A complete frame in its version, as reading yields and printing needs. */
  predicate WellFormedFrame(major: byte, frame: Bytes) {
    |frame| >= HEADER_BYTES && frame[0] != 0 && FrameSize(major, frame[4..8]) == Some(|frame| - HEADER_BYTES)
  }

  ghost predicate WellFormed(tag: Tag) {
    && (tag.major == 3 || tag.major == 4)
    && forall i :: 0 <= i < |tag.frames| ==> WellFormedFrame(tag.major, tag.frames[i])
  }

  ghost predicate Headed(frames: seq<Bytes>) {
    forall i :: 0 <= i < |frames| ==> |frames[i]| >= HEADER_BYTES
  }

  function Frame(major: byte, id: Bytes, body: Bytes): Bytes {
    id + (if major == 3 then PutBE(|body|, 4) else PutSyncsafe(|body|, 4)) + [0, 0] + body
  }

  function TextFrame(major: byte, id: Bytes, value: Bytes): seq<Bytes> {
    if value == [] then [] else [Frame(major, id, EncodeText(major, value))]
  }

  function CommentFrame(major: byte, value: Bytes): seq<Bytes> {
    if value == [] then [] else [Frame(major, COMM, EncodeComment(major, value))]
  }

  function YearId(major: byte): Bytes {
    if major == 3 then TYER else TDRC
  }

  /** The written text frames, in order. */
  function Texts(major: byte, m: Metadata): seq<(Bytes, Bytes)> {
    [(TIT2, m.title), (TPE1, m.artist), (TALB, m.album), (TPE2, m.albumArtist), (TCOM, m.composer),
     (TCON, m.genre), (YearId(major), YearText(m.year)), (TRCK, NumberText(m.trackNumber)),
     (TPOS, NumberText(m.discNumber))]
  }

  function TextFrames(major: byte, texts: seq<(Bytes, Bytes)>): seq<Bytes> {
    if texts == [] then [] else TextFrame(major, texts[0].0, texts[0].1) + TextFrames(major, texts[1..])
  }

  function Kept(u: Unicode, major: byte, frames: seq<Bytes>): seq<Bytes>
    requires forall i :: 0 <= i < |frames| ==> |frames[i]| >= HEADER_BYTES
  {
    if frames == [] then []
    else (if Managed(u, major, frames[0]) then [] else [frames[0]]) + Kept(u, major, frames[1..])
  }

  function VersionOf(tag: Tag): byte {
    if tag.major == 3 then 3 else 4
  }

  /** The tag with its managed frames replaced by m's. */
  function With(u: Unicode, tag: Tag, m: Metadata): Tag
    requires forall i :: 0 <= i < |tag.frames| ==> |tag.frames[i]| >= HEADER_BYTES
  {
    var major := VersionOf(tag);
    Tag(major, TextFrames(major, Texts(major, m)) + CommentFrame(major, m.comment) + Kept(u, tag.major, tag.frames))
  }

  // ----- Reading metadata -----

  /** The fields read so far; the year is kept as text until the end. */
  datatype Fields = Fields(m: Metadata, year: Bytes)

  function OrKeep(seen: Bytes, text: Bytes): Bytes {
    if seen == [] then text else seen
  }

  /** What a text frame sets: the first value of each text and of the year,
      the last of each number. */
  function SetText(u: Unicode, f: Fields, id: Bytes, text: Bytes): Fields {
    if id == TIT2 then f.(m := f.m.(title := OrKeep(f.m.title, text)))
    else if id == TPE1 then f.(m := f.m.(artist := OrKeep(f.m.artist, text)))
    else if id == TALB then f.(m := f.m.(album := OrKeep(f.m.album, text)))
    else if id == TPE2 then f.(m := f.m.(albumArtist := OrKeep(f.m.albumArtist, text)))
    else if id == TCOM then f.(m := f.m.(composer := OrKeep(f.m.composer, text)))
    else if id == TCON then f.(m := f.m.(genre := OrKeep(f.m.genre, text)))
    else if id == TYER || id == TDRC then f.(year := OrKeep(f.year, text))
    else if id == TRCK then f.(m := f.m.(trackNumber := LeadingValue(u, text, 4)))
    else if id == TPOS then f.(m := f.m.(discNumber := LeadingValue(u, text, 4)))
    else f
  }

  function SetComment(f: Fields, split: Split): Fields {
    if split.Split? && split.description == [] && f.m.comment == [] then f.(m := f.m.(comment := split.text)) else f
  }

  function ApplyFrame(u: Unicode, major: byte, f: Fields, frame: Bytes): Fields
    requires |frame| >= HEADER_BYTES
  {
    match FrameBody(major, frame)
    case None => f
    case Some(body) =>
      if frame[..4] == COMM then SetComment(f, SplitComment(body))
      else SetText(u, f, frame[..4], DecodeFrameText(body))
  }

  function ApplyAll(u: Unicode, major: byte, f: Fields, frames: seq<Bytes>): Fields
    requires forall i :: 0 <= i < |frames| ==> |frames[i]| >= HEADER_BYTES
    decreases |frames|
  {
    if frames == [] then f else ApplyAll(u, major, ApplyFrame(u, major, f, frames[0]), frames[1..])
  }

  const NO_FIELDS: Fields := Fields(Metadata([], [], [], [], [], [], [], 0, 0, 0), [])

  /** The metadata a tag carries. */
  function Read(u: Unicode, tag: Tag): Metadata
    requires forall i :: 0 <= i < |tag.frames| ==> |tag.frames[i]| >= HEADER_BYTES
  {
    var f := ApplyAll(u, tag.major, NO_FIELDS, tag.frames);
    f.m.(year := LeadingValue(u, f.year, 4))
  }

  // ----- Printing -----

  function Concat(frames: seq<Bytes>): Bytes {
    if frames == [] then [] else frames[0] + Concat(frames[1..])
  }

  function Print(tag: Tag): Result<Bytes> {
    var body := Concat(tag.frames);
    if |body| >= 0x1000_0000 then Err(Malformed)
    else Ok([73, 68, 51, tag.major, 0, 0] + PutSyncsafe(|body|, 4) + body)
  }

  method ReadTagFrames(major: byte, body: Bytes) returns (r: Result<seq<Bytes>>)
    ensures r == ReadFrames(major, body)
  {
    hide FrameSize;
    var frames: seq<Bytes>, rest := [], body;
    while |rest| >= HEADER_BYTES && rest[0] != 0
      invariant ReadFrames(major, body) == Prepend(frames, ReadFrames(major, rest))
      decreases |rest|
    {
      var n := FrameSize(major, rest[4..8]);
      if n.None? || HEADER_BYTES + n.value > |rest| {
        return Err(Malformed);
      }
      var frame, next := rest[..HEADER_BYTES + n.value], rest[HEADER_BYTES + n.value..];
      PrependMore(frames, frame, ReadFrames(major, next));
      frames, rest := frames + [frame], next;
    }
    assert frames + [] == frames;
    r := Ok(frames);
  }

  function Prepend(frames: seq<Bytes>, r: Result<seq<Bytes>>): Result<seq<Bytes>> {
    if r.Err? then r else if frames == [] then r else Ok(frames + r.value)
  }

  lemma PrependMore(frames: seq<Bytes>, frame: Bytes, r: Result<seq<Bytes>>)
    ensures Prepend(frames + [frame], r) == Prepend(frames, if r.Ok? then Ok([frame] + r.value) else r)
  {
    if r.Ok? {
      assert frames + [frame] + r.value == frames + ([frame] + r.value);
      assert frames == [] ==> frames + [frame] == [frame];
    }
  }

  method PrintTag(tag: Tag) returns (r: Result<Bytes>)
    ensures r == Print(tag)
  {
    var size := 0;
    for i := 0 to |tag.frames|
      invariant size + |Concat(tag.frames[i..])| == |Concat(tag.frames)|
    {
      assert tag.frames[i..][1..] == tag.frames[i + 1..];
      size := size + |tag.frames[i]|;
    }
    assert tag.frames[|tag.frames|..] == [];
    if size >= 0x1000_0000 {
      return Err(Malformed);
    }
    var out := [73, 68, 51, tag.major, 0, 0] + PutSyncsafe(size, 4);
    ghost var header := out;
    for i := 0 to |tag.frames|
      invariant out + Concat(tag.frames[i..]) == header + Concat(tag.frames)
    {
      assert tag.frames[i..][1..] == tag.frames[i + 1..];
      out := out + tag.frames[i];
    }
    assert tag.frames[|tag.frames|..] == [] && out + [] == out;
    r := Ok(out);
  }

  method KeepFrames(u: Unicode, major: byte, added: seq<Bytes>, frames: seq<Bytes>) returns (out: seq<Bytes>)
    requires forall i :: 0 <= i < |frames| ==> |frames[i]| >= HEADER_BYTES
    ensures out == added + Kept(u, major, frames)
  {
    hide Managed;
    out := added;
    for i := 0 to |frames|
      invariant out + Kept(u, major, frames[i..]) == added + Kept(u, major, frames)
    {
      assert frames[i..][1..] == frames[i + 1..];
      assert Kept(u, major, frames[i..]) ==
        (if Managed(u, major, frames[i]) then [] else [frames[i]]) + Kept(u, major, frames[i + 1..]);
      if !Managed(u, major, frames[i]) {
        out := out + [frames[i]];
      }
    }
  }

  method ReplaceFrames(u: Unicode, tag: Tag, m: Metadata) returns (out: Tag)
    requires forall i :: 0 <= i < |tag.frames| ==> |tag.frames[i]| >= HEADER_BYTES
    ensures out == With(u, tag, m)
  {
    var major := VersionOf(tag);
    var texts := Texts(major, m);
    var frames := WriteTexts(major, texts);
    if m.comment != [] {
      frames := frames + [Frame(major, COMM, EncodeComment(major, m.comment))];
    }
    frames := KeepFrames(u, tag.major, frames, tag.frames);
    out := Tag(major, frames);
  }

  lemma TextFramesFrom(major: byte, texts: seq<(Bytes, Bytes)>, i: nat)
    requires i < |texts|
    ensures TextFrames(major, texts[i..]) == TextFrame(major, texts[i].0, texts[i].1) + TextFrames(major, texts[i + 1..])
  {
    hide TextFrame;
    assert texts[i..][1..] == texts[i + 1..];
  }

  method WriteTexts(major: byte, texts: seq<(Bytes, Bytes)>) returns (frames: seq<Bytes>)
    ensures frames == TextFrames(major, texts)
  {
    hide Frame, EncodeText;
    frames := [];
    for i := 0 to |texts|
      invariant frames + TextFrames(major, texts[i..]) == TextFrames(major, texts)
    {
      TextFramesFrom(major, texts, i);
      if texts[i].1 != [] {
        frames := frames + [Frame(major, texts[i].0, EncodeText(major, texts[i].1))];
      }
    }
  }

  method ReadMetadata(u: Unicode, tag: Tag) returns (m: Metadata)
    requires forall i :: 0 <= i < |tag.frames| ==> |tag.frames[i]| >= HEADER_BYTES
    ensures m == Read(u, tag)
  {
    hide ApplyFrame;
    var f := NO_FIELDS;
    for i := 0 to |tag.frames|
      invariant ApplyAll(u, tag.major, f, tag.frames[i..]) == ApplyAll(u, tag.major, NO_FIELDS, tag.frames)
    {
      assert tag.frames[i..][1..] == tag.frames[i + 1..];
      f := ApplyFrame(u, tag.major, f, tag.frames[i]);
    }
    var year := LeadingNumber(u, f.year, 4);
    m := f.m.(year := year);
  }

  // ----- Printed tags are read back -----

  lemma FrameSizeOfPrinted(major: byte, n: nat)
    requires n < 0x1000_0000
    ensures FrameSize(major, if major == 3 then PutBE(n, 4) else PutSyncsafe(n, 4)) == Some(n)
  {
    assert Pow128(4) == 0x1000_0000 && Pow256(4) == 0x1_0000_0000;
    GetPutBE(n, 4);
    GetPutSyncsafe(n, 4);
  }

  lemma FrameParts(major: byte, id: Bytes, body: Bytes)
    requires |id| == 4
    ensures var frame := Frame(major, id, body);
      && |frame| == HEADER_BYTES + |body| && frame[..4] == id && frame[9] == 0
      && frame[4..8] == (if major == 3 then PutBE(|body|, 4) else PutSyncsafe(|body|, 4))
      && frame[HEADER_BYTES..] == body
  {
  }

  lemma FrameIsWellFormed(major: byte, id: Bytes, body: Bytes)
    requires |id| == 4 && id[0] != 0 && |body| < 0x1000_0000
    ensures WellFormedFrame(major, Frame(major, id, body))
  {
    hide Frame, FrameSize;
    FrameParts(major, id, body);
    FrameSizeOfPrinted(major, |body|);
    assert Frame(major, id, body)[0] == id[0] by {
      assert Frame(major, id, body)[..4][0] == id[0];
    }
  }

  lemma {:induction false} ReadIsWellFormed(major: byte, body: Bytes)
    requires ReadFrames(major, body).Ok?
    ensures forall i :: 0 <= i < |ReadFrames(major, body).value| ==> WellFormedFrame(major, ReadFrames(major, body).value[i])
    decreases |body|
  {
    hide FrameSize;
    if |body| >= HEADER_BYTES && body[0] != 0 {
      var n := FrameSize(major, body[4..8]).value;
      var frame := body[..HEADER_BYTES + n];
      assert frame[4..8] == body[4..8];
      ReadIsWellFormed(major, body[HEADER_BYTES + n..]);
    }
  }

  /** Whatever is read is a tag of version 3 or 4 made of complete frames. */
  lemma ReadTagIsWellFormed(b: Bytes)
    requires ReadTag(b).Ok?
    ensures WellFormed(ReadTag(b).value.0)
  {
    hide GetSyncsafe, ReadFrames, SkipExtended, WellFormedFrame;
    if HasTag(b) && (b[3] == 3 || b[3] == 4) {
      var body := b[HEADER_BYTES..HEADER_BYTES + GetSyncsafe(b[6..10])];
      var plain := if b[3] == 3 && b[5] / 128 == 1 then RemoveUnsync(body) else body;
      var rest := if b[5] / 64 % 2 == 1 then SkipExtended(b[3], plain).value else plain;
      ReadIsWellFormed(b[3], rest);
    }
  }

  lemma {:induction false} ReadConcat(major: byte, frames: seq<Bytes>)
    requires forall i :: 0 <= i < |frames| ==> WellFormedFrame(major, frames[i])
    ensures ReadFrames(major, Concat(frames)) == Ok(frames)
  {
    hide FrameSize;
    if frames != [] {
      var rest := Concat(frames[1..]);
      var body := Concat(frames);
      assert body[4..8] == frames[0][4..8];
      assert body[..|frames[0]|] == frames[0] && body[|frames[0]|..] == rest;
      ReadConcat(major, frames[1..]);
      assert [frames[0]] + frames[1..] == frames;
    }
  }

  /** A printed tag is read back with the audio after it left unread, exactly
      while it stays within the limit. */
  lemma ReadPrinted(tag: Tag, audio: Bytes)
    requires WellFormed(tag) && Print(tag).Ok?
    ensures ReadTag(Print(tag).value + audio) ==
      if |Concat(tag.frames)| <= MAX_TAG_BYTES then Ok((tag, audio)) else Err(Malformed)
  {
    hide PutSyncsafe, GetSyncsafe, ReadFrames, Concat, WellFormedFrame;
    var body := Concat(tag.frames);
    var size := PutSyncsafe(|body|, 4);
    assert Pow128(4) == 0x1000_0000;
    GetPutSyncsafe(|body|, 4);
    PrintedHeader([73, 68, 51, tag.major, 0, 0], size, body, audio);
    ReadConcat(tag.major, tag.frames);
  }

  lemma PrintedHeader(head: Bytes, size: Bytes, body: Bytes, audio: Bytes)
    requires |head| == 6 && |size| == 4
    ensures var b := head + size + body + audio;
      && |b| == HEADER_BYTES + |body| + |audio|
      && b[..3] == head[..3] && b[3] == head[3] && b[4] == head[4] && b[5] == head[5] && b[6..10] == size
      && b[HEADER_BYTES..HEADER_BYTES + |body|] == body && b[HEADER_BYTES + |body|..] == audio
  {
  }

  // ----- Written frames -----

  /** Every text of an edit can be encoded in both versions. */
  predicate CleanTexts(m: Metadata) {
    && Clean(m.title) && Clean(m.artist) && Clean(m.album) && Clean(m.albumArtist)
    && Clean(m.composer) && Clean(m.genre) && Clean(m.comment)
  }

  lemma {:induction false} ConcatAppend(a: seq<Bytes>, b: seq<Bytes>)
    ensures Concat(a + b) == Concat(a) + Concat(b)
  {
    if a == [] {
      assert a + b == b;
    } else {
      assert (a + b)[1..] == a[1..] + b;
      ConcatAppend(a[1..], b);
    }
  }

  predicate TextId(id: Bytes) {
    |id| == 4 && id[0] != 0 && id != COMM && ManagedId(id)
  }

  lemma {:induction false} TextFramesAreWellFormed(major: byte, texts: seq<(Bytes, Bytes)>)
    requires forall i :: 0 <= i < |texts| ==> TextId(texts[i].0)
    requires |Concat(TextFrames(major, texts))| < 0x1000_0000
    ensures forall i :: 0 <= i < |TextFrames(major, texts)| ==>
      WellFormedFrame(major, TextFrames(major, texts)[i]) && ManagedId(TextFrames(major, texts)[i][..4])
  {
    hide Frame, WellFormedFrame, EncodeText, ManagedId;
    if texts != [] {
      var first := TextFrame(major, texts[0].0, texts[0].1);
      ConcatAppend(first, TextFrames(major, texts[1..]));
      TextFramesAreWellFormed(major, texts[1..]);
      if first != [] {
        var body := EncodeText(major, texts[0].1);
        FrameParts(major, texts[0].0, body);
        assert Concat(first) == first[0] + Concat(first[1..]);
        FrameIsWellFormed(major, texts[0].0, body);
      }
    }
  }

  lemma TextsAreManaged(major: byte, m: Metadata)
    ensures forall i :: 0 <= i < |Texts(major, m)| ==> TextId(Texts(major, m)[i].0)
  {
  }

  /** The written comment frame is complete, and the next rewrite replaces it. */
  lemma CommentFrameIsManaged(u: Unicode, major: byte, value: Bytes)
    requires (major == 3 || major == 4) && Clean(value) && |Concat(CommentFrame(major, value))| < 0x1000_0000
    ensures forall i :: 0 <= i < |CommentFrame(major, value)| ==>
      WellFormedFrame(major, CommentFrame(major, value)[i]) && Managed(u, major, CommentFrame(major, value)[i])
  {
    hide Frame, WellFormedFrame, EncodeComment, SplitComment;
    if value != [] {
      var body := EncodeComment(major, value);
      var frame := Frame(major, COMM, body);
      FrameParts(major, COMM, body);
      assert CommentFrame(major, value)[1..] == [];
      FrameIsWellFormed(major, COMM, body);
      CommentRoundTrip(major, value);
    }
  }

  lemma {:induction false} KeptIsUnmanaged(u: Unicode, major: byte, frames: seq<Bytes>)
    requires Headed(frames)
    ensures forall i :: 0 <= i < |Kept(u, major, frames)| ==>
      Kept(u, major, frames)[i] in frames && !Managed(u, major, Kept(u, major, frames)[i])
  {
    hide Managed;
    if frames != [] {
      KeptIsUnmanaged(u, major, frames[1..]);
    }
  }

  /** A rewritten tag consists of complete frames. */
  lemma WithIsWellFormed(u: Unicode, tag: Tag, m: Metadata)
    requires WellFormed(tag) && CleanTexts(m) && Print(With(u, tag, m)).Ok?
    ensures WellFormed(With(u, tag, m))
  {
    hide WellFormedFrame, Managed, TextFrames, CommentFrame, Kept, Texts, PutSyncsafe, Clean, TextId;
    var major := tag.major;
    var texts := Texts(major, m);
    assert Headed(tag.frames) by {
      WellFormedIsHeaded(tag);
    }
    var a, b, c := TextFrames(major, texts), CommentFrame(major, m.comment), Kept(u, major, tag.frames);
    ConcatAppend(a + b, c);
    ConcatAppend(a, b);
    TextsAreManaged(major, m);
    TextFramesAreWellFormed(major, texts);
    CommentFrameIsManaged(u, major, m.comment);
    KeptIsUnmanaged(u, major, tag.frames);
  }

  lemma WellFormedIsHeaded(tag: Tag)
    requires WellFormed(tag)
    ensures Headed(tag.frames)
  {
  }

  // ----- What was written is read -----

  lemma {:induction false} ApplyAppend(u: Unicode, major: byte, f: Fields, a: seq<Bytes>, b: seq<Bytes>)
    requires Headed(a) && Headed(b)
    ensures ApplyAll(u, major, f, a + b) == ApplyAll(u, major, ApplyAll(u, major, f, a), b)
    decreases |a|
  {
    hide ApplyFrame;
    if a == [] {
      assert a + b == b;
    } else {
      assert (a + b)[1..] == a[1..] + b;
      ApplyAppend(u, major, ApplyFrame(u, major, f, a[0]), a[1..], b);
    }
  }

  lemma UnmanagedHasNoEffect(u: Unicode, major: byte, f: Fields, frame: Bytes)
    requires |frame| >= HEADER_BYTES && !Managed(u, major, frame)
    ensures ApplyFrame(u, major, f, frame) == f
  {
    hide FrameBody, SplitComment, DecodeFrameText;
  }

  lemma {:induction false} KeptHasNoEffect(u: Unicode, major: byte, f: Fields, frames: seq<Bytes>)
    requires Headed(frames) && forall i :: 0 <= i < |frames| ==> !Managed(u, major, frames[i])
    ensures ApplyAll(u, major, f, frames) == f
    decreases |frames|
  {
    hide ApplyFrame, Managed;
    if frames != [] {
      UnmanagedHasNoEffect(u, major, f, frames[0]);
      KeptHasNoEffect(u, major, f, frames[1..]);
    }
  }

  function ApplyTexts(u: Unicode, f: Fields, texts: seq<(Bytes, Bytes)>): Fields
    decreases |texts|
  {
    if texts == [] then f else ApplyTexts(u, ApplyText(u, f, texts[0].0, texts[0].1), texts[1..])
  }

  function ApplyText(u: Unicode, f: Fields, id: Bytes, value: Bytes): Fields {
    if value == [] then f else SetText(u, f, id, value)
  }

  lemma ApplyTextFrame(u: Unicode, major: byte, f: Fields, id: Bytes, value: Bytes)
    requires (major == 3 || major == 4) && TextId(id) && Clean(value) && |EncodeText(major, value)| < 0x1000_0000
    ensures var frame := Frame(major, id, EncodeText(major, value));
      |frame| >= HEADER_BYTES && ApplyFrame(u, major, f, frame) == SetText(u, f, id, value)
  {
    hide Frame, EncodeText, DecodeFrameText, SetText;
    FrameParts(major, id, EncodeText(major, value));
    TextRoundTrip(major, value);
  }

  lemma {:induction false} ApplyWrittenTexts(u: Unicode, major: byte, f: Fields, texts: seq<(Bytes, Bytes)>)
    requires major == 3 || major == 4
    requires forall i :: 0 <= i < |texts| ==> TextId(texts[i].0) && Clean(texts[i].1)
    requires |Concat(TextFrames(major, texts))| < 0x1000_0000
    ensures Headed(TextFrames(major, texts))
    ensures ApplyAll(u, major, f, TextFrames(major, texts)) == ApplyTexts(u, f, texts)
    decreases |texts|
  {
    hide Frame, EncodeText, SetText, ApplyFrame, Clean, TextId;
    if texts != [] {
      var (id, value) := texts[0];
      var first := TextFrame(major, id, value);
      ConcatAppend(first, TextFrames(major, texts[1..]));
      if value == [] {
        assert TextFrames(major, texts) == TextFrames(major, texts[1..]);
        ApplyWrittenTexts(u, major, f, texts[1..]);
      } else {
        assert |id| == 4 by {
          TextIdLength(id);
        }
        FrameParts(major, id, EncodeText(major, value));
        assert Concat(first) == first[0] + Concat(first[1..]);
        ApplyTextFrame(u, major, f, id, value);
        ApplyWrittenTexts(u, major, SetText(u, f, id, value), texts[1..]);
        assert TextFrames(major, texts)[1..] == TextFrames(major, texts[1..]);
      }
    }
  }

  lemma TextIdLength(id: Bytes)
    requires TextId(id)
    ensures |id| == 4
  {
  }

  /** The written texts fill exactly the fields they were taken from. */
  lemma TextsFillFields(u: Unicode, major: byte, m: Metadata)
    requires u.Agrees() && m.NumbersFit()
    ensures ApplyTexts(u, NO_FIELDS, Texts(major, m)) == Fields(m.(comment := [], year := 0), YearText(m.year))
  {
    NumberReadBack(u, m.trackNumber);
    NumberReadBack(u, m.discNumber);
    FillFields(u, major, m, NumberText(m.trackNumber), NumberText(m.discNumber), YearText(m.year));
  }

  lemma FillFields(u: Unicode, major: byte, m: Metadata, track: Bytes, disc: Bytes, year: Bytes)
    requires if track == [] then m.trackNumber == 0 else LeadingValue(u, track, 4) == m.trackNumber
    requires if disc == [] then m.discNumber == 0 else LeadingValue(u, disc, 4) == m.discNumber
    ensures ApplyTexts(u, NO_FIELDS,
      [(TIT2, m.title), (TPE1, m.artist), (TALB, m.album), (TPE2, m.albumArtist), (TCOM, m.composer),
       (TCON, m.genre), (YearId(major), year), (TRCK, track), (TPOS, disc)]) ==
      Fields(m.(comment := [], year := 0), year)
  {
    hide LeadingValue, ApplyText, ApplyTexts, ApplyThree;
    var t3: seq<(Bytes, Bytes)> := [(YearId(major), year), (TRCK, track), (TPOS, disc)];
    var t2: seq<(Bytes, Bytes)> := [(TPE2, m.albumArtist), (TCOM, m.composer), (TCON, m.genre)];
    var t1: seq<(Bytes, Bytes)> := [(TIT2, m.title), (TPE1, m.artist), (TALB, m.album)];
    var f3 := Fields(NO_FIELDS.m.(title := m.title, artist := m.artist, album := m.album), []);
    var f6 := Fields(f3.m.(albumArtist := m.albumArtist, composer := m.composer, genre := m.genre), []);
    TextsThree(u, NO_FIELDS, t1[0], t1[1], t1[2], t2 + t3);
    FillFirst(u, m);
    TextsThree(u, f3, t2[0], t2[1], t2[2], t3);
    FillSecond(u, m, f3);
    TextsThree(u, f6, t3[0], t3[1], t3[2], []);
    FillLast(u, major, m, f6, track, disc, year);
    assert [t1[0], t1[1], t1[2]] + (t2 + t3) ==
      [(TIT2, m.title), (TPE1, m.artist), (TALB, m.album), (TPE2, m.albumArtist), (TCOM, m.composer),
       (TCON, m.genre), (YearId(major), year), (TRCK, track), (TPOS, disc)];
    assert [t2[0], t2[1], t2[2]] + t3 == t2 + t3;
    assert [t3[0], t3[1], t3[2]] + [] == t3;
    ApplyNone(u, Fields(m.(comment := [], year := 0), year));
  }

  lemma ApplyNone(u: Unicode, f: Fields)
    ensures ApplyTexts(u, f, []) == f
  {
  }

  lemma FillFirst(u: Unicode, m: Metadata)
    ensures ApplyThree(u, NO_FIELDS, (TIT2, m.title), (TPE1, m.artist), (TALB, m.album)) ==
      Fields(NO_FIELDS.m.(title := m.title, artist := m.artist, album := m.album), [])
  {
  }

  lemma FillSecond(u: Unicode, m: Metadata, f: Fields)
    requires f.m.albumArtist == [] && f.m.composer == [] && f.m.genre == []
    ensures ApplyThree(u, f, (TPE2, m.albumArtist), (TCOM, m.composer), (TCON, m.genre)) ==
      f.(m := f.m.(albumArtist := m.albumArtist, composer := m.composer, genre := m.genre))
  {
  }

  lemma FillLast(u: Unicode, major: byte, m: Metadata, f: Fields, track: Bytes, disc: Bytes, year: Bytes)
    requires f.m == m.(comment := [], year := 0, trackNumber := 0, discNumber := 0) && f.year == []
    requires if track == [] then m.trackNumber == 0 else LeadingValue(u, track, 4) == m.trackNumber
    requires if disc == [] then m.discNumber == 0 else LeadingValue(u, disc, 4) == m.discNumber
    ensures ApplyThree(u, f, (YearId(major), year), (TRCK, track), (TPOS, disc)) ==
      Fields(m.(comment := [], year := 0), year)
  {
    hide LeadingValue;
  }

  function ApplyThree(u: Unicode, f: Fields, p: (Bytes, Bytes), q: (Bytes, Bytes), r: (Bytes, Bytes)): Fields {
    ApplyText(u, ApplyText(u, ApplyText(u, f, p.0, p.1), q.0, q.1), r.0, r.1)
  }

  lemma TextsThree(u: Unicode, f: Fields, p: (Bytes, Bytes), q: (Bytes, Bytes), r: (Bytes, Bytes),
                   rest: seq<(Bytes, Bytes)>)
    ensures ApplyTexts(u, f, [p, q, r] + rest) == ApplyTexts(u, ApplyThree(u, f, p, q, r), rest)
  {
    hide ApplyText;
    var t := [p, q, r] + rest;
    ApplyOne(u, f, t);
    var f1 := ApplyText(u, f, p.0, p.1);
    assert t[1..] == [q, r] + rest;
    ApplyOne(u, f1, t[1..]);
    var f2 := ApplyText(u, f1, q.0, q.1);
    assert t[1..][1..] == [r] + rest;
    ApplyOne(u, f2, [r] + rest);
    assert ([r] + rest)[1..] == rest;
  }

  lemma ApplyOne(u: Unicode, f: Fields, t: seq<(Bytes, Bytes)>)
    requires t != []
    ensures ApplyTexts(u, f, t) == ApplyTexts(u, ApplyText(u, f, t[0].0, t[0].1), t[1..])
  {
    hide ApplyText;
  }

  lemma ApplyComment(u: Unicode, major: byte, f: Fields, value: Bytes)
    requires (major == 3 || major == 4) && Clean(value) && f.m.comment == []
    requires |Concat(CommentFrame(major, value))| < 0x1000_0000
    ensures Headed(CommentFrame(major, value))
    ensures ApplyAll(u, major, f, CommentFrame(major, value)) == f.(m := f.m.(comment := value))
  {
    hide Frame, EncodeComment, SplitComment;
    if value != [] {
      var body := EncodeComment(major, value);
      FrameParts(major, COMM, body);
      CommentRoundTrip(major, value);
      assert CommentFrame(major, value)[1..] == [];
    }
  }

  lemma TextsAreClean(major: byte, m: Metadata)
    requires CleanTexts(m)
    ensures forall i :: 0 <= i < |Texts(major, m)| ==> Clean(Texts(major, m)[i].1)
  {
    DigitsAreClean(NumberText(m.trackNumber));
    DigitsAreClean(NumberText(m.discNumber));
    DigitsAreClean(YearText(m.year));
  }

  lemma {:induction false} DigitsAreClean(b: Bytes)
    requires AllDigits(b)
    ensures Clean(b)
  {
    if b != [] {
      DigitsAreClean(b[1..]);
      assert IsDigit(b[0]);
    }
  }

  lemma ApplyParts(u: Unicode, major: byte, f: Fields, g: Fields, h: Fields, a: seq<Bytes>, b: seq<Bytes>, c: seq<Bytes>)
    requires Headed(a) && Headed(b) && Headed(c)
    requires ApplyAll(u, major, f, a) == g && ApplyAll(u, major, g, b) == h && ApplyAll(u, major, h, c) == h
    ensures Headed(a + b + c) && ApplyAll(u, major, f, a + b + c) == h
  {
    hide ApplyFrame;
    ApplyAppend(u, major, f, a + b, c);
    ApplyAppend(u, major, f, a, b);
  }

  /** What the written frames alone amount to. */
  lemma WrittenFramesRead(u: Unicode, major: byte, m: Metadata)
    requires u.Agrees() && (major == 3 || major == 4) && CleanTexts(m) && m.NumbersFit()
    requires |Concat(TextFrames(major, Texts(major, m)))| < 0x1000_0000
    requires |Concat(CommentFrame(major, m.comment))| < 0x1000_0000
    ensures Headed(TextFrames(major, Texts(major, m))) && Headed(CommentFrame(major, m.comment))
    ensures var f := Fields(m.(comment := [], year := 0), YearText(m.year));
      && ApplyAll(u, major, NO_FIELDS, TextFrames(major, Texts(major, m))) == f
      && ApplyAll(u, major, f, CommentFrame(major, m.comment)) == f.(m := f.m.(comment := m.comment))
  {
    hide TextFrames, CommentFrame, Texts, Clean, TextId, ApplyTexts, ApplyFrame, Concat, YearText;
    TextsAreManaged(major, m);
    TextsAreClean(major, m);
    ApplyWrittenTexts(u, major, NO_FIELDS, Texts(major, m));
    TextsFillFields(u, major, m);
    ApplyComment(u, major, Fields(m.(comment := [], year := 0), YearText(m.year)), m.comment);
  }

  lemma PrintedFits(tag: Tag, a: seq<Bytes>, b: seq<Bytes>, c: seq<Bytes>)
    requires tag.frames == a + b + c && Print(tag).Ok?
    ensures |Concat(a)| < 0x1000_0000 && |Concat(b)| < 0x1000_0000
  {
    hide PutSyncsafe;
    ConcatAppend(a + b, c);
    ConcatAppend(a, b);
  }

  /** Whatever a tag held, the metadata written into it is read back, in both
      versions. */
  lemma WrittenIsRead(u: Unicode, tag: Tag, m: Metadata)
    requires u.Agrees() && WellFormed(tag) && CleanTexts(m) && m.NumbersFit() && Print(With(u, tag, m)).Ok?
    ensures Headed(With(u, tag, m).frames) && Read(u, With(u, tag, m)) == m
  {
    hide WellFormedFrame, Managed, TextFrames, CommentFrame, Kept, Texts, Print, Clean, LeadingValue,
      ApplyFrame, ApplyAll, Concat, YearText;
    var major := tag.major;
    assert Headed(tag.frames) by {
      WellFormedIsHeaded(tag);
    }
    var a, b, c := TextFrames(major, Texts(major, m)), CommentFrame(major, m.comment), Kept(u, major, tag.frames);
    PrintedFits(With(u, tag, m), a, b, c);
    WrittenFramesRead(u, major, m);
    KeptIsUnmanaged(u, major, tag.frames);
    var f := Fields(m.(comment := [], year := 0), YearText(m.year));
    var g := f.(m := f.m.(comment := m.comment));
    KeptHasNoEffect(u, major, g, c);
    ApplyParts(u, major, NO_FIELDS, f, g, a, b, c);
    YearReadBack(u, m.year);
  }

  lemma YearReadBack(u: Unicode, year: int)
    requires u.Agrees() && 0 <= year <= 9999
    ensures LeadingValue(u, YearText(year), 4) == year
  {
    hide LeadingValue;
    NumberReadBack(u, year);
  }

  // ----- Rewriting twice -----

  lemma {:induction false} KeptAppend(u: Unicode, major: byte, a: seq<Bytes>, b: seq<Bytes>)
    requires Headed(a) && Headed(b)
    ensures Kept(u, major, a + b) == Kept(u, major, a) + Kept(u, major, b)
  {
    hide Managed;
    if a == [] {
      assert a + b == b;
    } else {
      assert (a + b)[1..] == a[1..] + b;
      KeptAppend(u, major, a[1..], b);
    }
  }

  lemma {:induction false} AllManagedNoneKept(u: Unicode, major: byte, frames: seq<Bytes>)
    requires Headed(frames) && forall i :: 0 <= i < |frames| ==> Managed(u, major, frames[i])
    ensures Kept(u, major, frames) == []
  {
    hide Managed;
    if frames != [] {
      AllManagedNoneKept(u, major, frames[1..]);
    }
  }

  lemma {:induction false} NoneManagedAllKept(u: Unicode, major: byte, frames: seq<Bytes>)
    requires Headed(frames) && forall i :: 0 <= i < |frames| ==> !Managed(u, major, frames[i])
    ensures Kept(u, major, frames) == frames
  {
    hide Managed;
    if frames != [] {
      NoneManagedAllKept(u, major, frames[1..]);
    }
  }

  lemma ManagedById(u: Unicode, major: byte, frame: Bytes)
    requires |frame| >= HEADER_BYTES && ManagedId(frame[..4])
    ensures Managed(u, major, frame)
  {
  }

  /** Only the last rewrite counts, and no unmanaged frame is lost, changed or
      moved by the first. */
  lemma WithTwice(u: Unicode, tag: Tag, m1: Metadata, m2: Metadata)
    requires WellFormed(tag) && CleanTexts(m1) && Print(With(u, tag, m1)).Ok?
    ensures WellFormed(With(u, tag, m1))
    ensures With(u, With(u, tag, m1), m2) == With(u, tag, m2)
  {
    hide WellFormedFrame, Managed, TextFrames, CommentFrame, Kept, Texts, PutSyncsafe, Clean, TextId, ManagedId;
    var major := tag.major;
    WithIsWellFormed(u, tag, m1);
    WellFormedIsHeaded(tag);
    WellFormedIsHeaded(With(u, tag, m1));
    var texts := Texts(major, m1);
    var a, b, c := TextFrames(major, texts), CommentFrame(major, m1.comment), Kept(u, major, tag.frames);
    ConcatAppend(a + b, c);
    ConcatAppend(a, b);
    TextsAreManaged(major, m1);
    TextFramesAreWellFormed(major, texts);
    CommentFrameIsManaged(u, major, m1.comment);
    KeptIsUnmanaged(u, major, tag.frames);
    HeadedParts(a + b, c);
    HeadedParts(a, b);
    forall i | 0 <= i < |a|
      ensures Managed(u, major, a[i])
    {
      ManagedById(u, major, a[i]);
    }
    AllManagedNoneKept(u, major, a);
    AllManagedNoneKept(u, major, b);
    NoneManagedAllKept(u, major, c);
    KeptAppend(u, major, a + b, c);
    KeptAppend(u, major, a, b);
  }

  lemma HeadedParts(a: seq<Bytes>, b: seq<Bytes>)
    requires Headed(a + b)
    ensures Headed(a) && Headed(b)
  {
    assert forall i :: 0 <= i < |a| ==> (a + b)[i] == a[i];
    assert forall i :: 0 <= i < |b| ==> (a + b)[|a| + i] == b[i];
  }
}

/** Files of every format that pass the upload check and inspection, and whose
    rewrite nobody can read: the new tag outgrows what a reader accepts. */
module TagLimits {
  import opened ByteOrder
  import opened TagText
  import Flac
  import I = Id3
  import X = Id3Text
  import Mp3
  import OggMeaning
  import OggPages
  import OggPagination
  import OggStreams
  import Tags
  import V = VorbisComments

  /** The file is accepted and its rewrite succeeds, but what was written is
      refused as malformed. */
  ghost predicate Outgrows(u: Unicode, format: Tags.Format, src: Bytes, m: Metadata) {
    && Tags.LooksRight(format, src) && Tags.Inspect(u, format, src).Ok?
    && Tags.Rewrite(u, format, src, m).Ok?
    && Tags.Inspect(u, format, Tags.Rewrite(u, format, src, m).value) == Err(Malformed)
  }

  function Zeros(n: nat): (z: Bytes)
    ensures |z| == n
  {
    seq(n, _ => 0)
  }

  /** An edit that only sets the title to "a". */
  const TITLE_ONLY: Metadata := Metadata([97], [], [], [], [], [], [], 0, 0, 0)

  lemma TitleIsClean()
    ensures I.CleanTexts(TITLE_ONLY) && TITLE_ONLY.NumbersFit()
  {
    var b: Bytes := [97];
    assert b[1..] == [];
  }

  // ----- MP3 -----

  /** Any tag that fits, and an edit that makes it too large. */
  lemma Mp3Outgrows(u: Unicode, tag: I.Tag, audio: Bytes, m: Metadata)
    requires u.Agrees() && I.CleanTexts(m) && m.NumbersFit()
    requires I.WellFormed(tag) && I.Headed(tag.frames) && I.Print(tag).Ok? && |I.Concat(tag.frames)| <= MAX_TAG_BYTES
    requires I.Print(I.With(u, tag, m)).Ok? && |I.Concat(I.With(u, tag, m).frames)| > MAX_TAG_BYTES
    ensures var src := I.Print(tag).value + audio;
      && Mp3.Inspect(u, src).Ok? && Mp3.Rewrite(u, src, m).Ok?
      && Mp3.Inspect(u, Mp3.Rewrite(u, src, m).value) == Err(Malformed)
  {
    hide I.WellFormed, I.With, I.Concat, I.ReadTag, I.Print, I.CleanTexts, Mp3.Strip, I.Read;
    var src := I.Print(tag).value + audio;
    I.ReadPrinted(tag, audio);
    assert Mp3.Rewrite(u, src, m).Ok?;
    Mp3.RewriteKeepsAudio(u, src, m);
  }

  const APIC: Bytes := [65, 80, 73, 67]

  lemma PictureFrame(u: Unicode, n: nat) returns (frame: Bytes)
    requires I.HEADER_BYTES <= n < 0x1000_0000
    ensures |frame| == n && I.WellFormedFrame(4, frame) && !I.Managed(u, 4, frame)
  {
    hide I.Frame, I.WellFormedFrame, I.ManagedComment, I.ManagedUserText;
    var body := Zeros(n - I.HEADER_BYTES);
    frame := I.Frame(4, APIC, body);
    I.FrameParts(4, APIC, body);
    I.FrameIsWellFormed(4, APIC, body);
  }

  lemma TitleFrame() returns (title: Bytes)
    ensures |title| == 12 && I.TextFrames(4, I.Texts(4, TITLE_ONLY)) == [title]
  {
    hide I.Frame, I.TextFrames;
    var texts := I.Texts(4, TITLE_ONLY);
    Mp3.NoTextNoFrames(4, texts[1..]);
    title := I.Frame(4, I.TIT2, [3, 97]);
    I.FrameParts(4, I.TIT2, [3, 97]);
    FirstTextFrame(texts);
  }

  lemma FirstTextFrame(texts: seq<(Bytes, Bytes)>)
    requires texts != [] && texts[0] == (I.TIT2, [97]) && I.TextFrames(4, texts[1..]) == []
    ensures I.TextFrames(4, texts) == [I.Frame(4, I.TIT2, [3, 97])]
  {
    hide I.Frame;
    var value: Bytes := [97];
    assert X.EncodeText(4, value) == [3, 97];
    assert I.TextFrame(4, I.TIT2, value) == [I.Frame(4, I.TIT2, [3, 97])];
  }

  lemma OneFrame(frame: Bytes)
    ensures I.Concat([frame]) == frame
  {
    assert [frame][1..] == [] && frame + [] == frame;
  }

  /** A tag with one picture, before and after the edit. */
  lemma PictureTag(u: Unicode, picture: Bytes)
    requires I.WellFormedFrame(4, picture) && !I.Managed(u, 4, picture)
    ensures var tag := I.Tag(4, [picture]);
      && I.WellFormed(tag) && I.Headed(tag.frames) && I.Concat(tag.frames) == picture
      && |I.Concat(I.With(u, tag, TITLE_ONLY).frames)| == 12 + |picture|
  {
    hide I.Frame, I.Managed, I.TextFrames, I.Texts;
    var tag := I.Tag(4, [picture]);
    var title := TitleFrame();
    I.NoneManagedAllKept(u, 4, [picture]);
    OneFrame(picture);
    OneFrame(title);
    I.ConcatAppend([title], [picture]);
    assert I.With(u, tag, TITLE_ONLY).frames == [title] + [picture];
  }

  /** An MP3 whose tag is as large as a reader accepts, whatever audio follows. */
  lemma SomeMp3Outgrows(u: Unicode, audio: Bytes) returns (src: Bytes)
    requires u.Agrees()
    ensures Outgrows(u, Tags.Mp3File, src, TITLE_ONLY) && |src| == I.HEADER_BYTES + MAX_TAG_BYTES + |audio|
  {
    hide I.WellFormed, I.With, I.Concat, I.Print, TITLE_ONLY, I.CleanTexts, Mp3.Inspect, Mp3.Rewrite, I.Headed,
      I.WellFormedFrame, I.Managed, Tags.LooksRight, Outgrows;
    var picture := PictureFrame(u, MAX_TAG_BYTES);
    PictureTag(u, picture);
    TitleIsClean();
    var tag := I.Tag(4, [picture]);
    PrintsShort(tag);
    PrintsShort(I.With(u, tag, TITLE_ONLY));
    Mp3Outgrows(u, tag, audio, TITLE_ONLY);
    src := I.Print(tag).value + audio;
    LooksLikeMp3(src);
    OutgrowsAsMp3(u, src, TITLE_ONLY);
  }

  lemma PrintsShort(tag: I.Tag)
    requires |I.Concat(tag.frames)| < 0x1000_0000
    ensures I.Print(tag).Ok? && |I.Print(tag).value| == I.HEADER_BYTES + |I.Concat(tag.frames)|
    ensures I.Print(tag).value[..3] == [73, 68, 51]
  {
    hide I.Concat, PutSyncsafe;
  }

  lemma OutgrowsAsMp3(u: Unicode, src: Bytes, m: Metadata)
    requires Tags.LooksRight(Tags.Mp3File, src) && Mp3.Inspect(u, src).Ok? && Mp3.Rewrite(u, src, m).Ok?
    requires Mp3.Inspect(u, Mp3.Rewrite(u, src, m).value) == Err(Malformed)
    ensures Outgrows(u, Tags.Mp3File, src, m)
  {
    hide Tags.LooksRight, Mp3.Inspect, Mp3.Rewrite;
  }

  lemma LooksLikeMp3(src: Bytes)
    requires |src| >= Tags.LOOKED_AT && src[..3] == [73, 68, 51]
    ensures Tags.LooksRight(Tags.Mp3File, src)
  {
    assert Ascii("ID3") == [73, 68, 51];
    Tags.Prefix(Ascii("ID3"), src, Tags.LOOKED_AT);
  }

  /** The file that loses audio passes the upload check as well. */
  lemma SecondBlockLooksRight()
    ensures Tags.LooksRight(Tags.Mp3File, Mp3.TwoBlocks())
  {
    hide Mp3.OneBlock;
    var src := Mp3.TwoBlocks();
    assert |Mp3.OneBlock()| == Mp3.ID3V1_BYTES by {
      BlockLength();
    }
    assert src[..Tags.LOOKED_AT][0] == 0xFF && src[..Tags.LOOKED_AT][1] == 0xFB;
  }

  lemma BlockLength()
    ensures |Mp3.OneBlock()| == Mp3.ID3V1_BYTES
  {
  }

  // ----- FLAC -----

  /** Any metadata that fits, and an edit that makes it too large. */
  lemma FlacOutgrows(u: Unicode, blocks: seq<Flac.Block>, frames: Bytes, m: Metadata)
    requires u.Agrees() && m.NumbersFit() && Flac.StartsFrame(frames)
    requires Flac.WellFormed(blocks) && Flac.Total(blocks) <= MAX_TAG_BYTES
    requires var comment := V.With(u, Flac.CommentOf(blocks), m);
      |V.Print(comment)| <= Flac.MAX_BLOCK_BYTES && Flac.Total(Flac.NewBlocks(blocks, comment)) > MAX_TAG_BYTES
    ensures var src := Flac.MAGIC + Flac.PrintBlocks(blocks) + frames;
      && Flac.Inspect(u, src).Ok? && Flac.Rewrite(u, src, m).Ok?
      && Flac.Inspect(u, Flac.Rewrite(u, src, m).value) == Err(Malformed)
  {
    hide Flac.PrintBlocks, Flac.ReadMetadata, V.With, V.Print, V.Read, Flac.NewBlocks, Flac.Total, Flac.StartsFrame,
      Flac.CommentOf, Flac.Inspect;
    var src := Flac.MAGIC + Flac.PrintBlocks(blocks) + frames;
    Flac.PrintedReads(blocks, frames);
    assert Flac.Rewrite(u, src, m).Ok?;
    Flac.RewriteKeepsAudio(u, src, m);
  }

  lemma TotalOfTwo(blocks: seq<Flac.Block>)
    requires |blocks| == 2
    ensures Flac.Total(blocks) == |blocks[0].data| + |blocks[1].data|
  {
    assert Flac.Total(blocks[1..]) == |blocks[1].data| + Flac.Total(blocks[1..][1..]);
  }

  /** STREAMINFO and a picture: the edit puts a comment between them. */
  lemma PictureBlocks(comment: V.Comment, n: nat) returns (blocks: seq<Flac.Block>)
    requires n < Pow256(3)
    ensures Flac.WellFormed(blocks) && Flac.Total(blocks) == 34 + n
    ensures Flac.CommentOf(blocks) == Flac.CommentOf([])
    ensures Flac.Total(Flac.NewBlocks(blocks, comment)) == 34 + n + |V.Print(comment)|
  {
    hide V.Print;
    var info, picture := Flac.Block(Flac.STREAMINFO, Zeros(34)), Flac.Block(6, Zeros(n));
    blocks := [info, picture];
    TotalOfTwo(blocks);
    assert blocks[1..] == [picture] && blocks[1..][1..] == [];
    assert Flac.CommentOf(blocks) == Flac.CommentOf(blocks[1..]) == Flac.CommentOf(blocks[1..][1..]);
    var written := Flac.Block(Flac.VORBIS_COMMENT, V.Print(comment));
    assert Flac.Others(blocks[1..]) == [picture];
    var planned := Flac.NewBlocks(blocks, comment);
    assert planned == [info, written, picture];
    assert planned[1..] == [written, picture];
    TotalOfTwo(planned[1..]);
  }

  /** A FLAC file whose picture fills its metadata, before any audio: every edit
      whose comment fits a block outgrows it. */
  lemma SomeFlacOutgrows(u: Unicode, frames: Bytes, m: Metadata) returns (src: Bytes)
    requires u.Agrees() && Flac.StartsFrame(frames) && m.NumbersFit()
    requires |V.Print(V.With(u, Flac.CommentOf([]), m))| <= Flac.MAX_BLOCK_BYTES
    ensures Outgrows(u, Tags.FlacFile, src, m)
  {
    hide Flac.Rewrite, Flac.Inspect, V.With, V.Print, Flac.StartsFrame, Flac.NewBlocks, Flac.Total, Flac.WellFormed,
      Flac.CommentOf, Tags.LooksRight, Flac.PrintBlocks, Outgrows;
    assert Pow256(3) == MAX_TAG_BYTES;
    var comment := V.With(u, Flac.CommentOf([]), m);
    var blocks := PictureBlocks(comment, MAX_TAG_BYTES - 34);
    PrintIsNotEmpty(comment);
    FlacOutgrows(u, blocks, frames, m);
    src := Flac.MAGIC + Flac.PrintBlocks(blocks) + frames;
    LooksLikeFlac(blocks, frames);
    OutgrowsAsFlac(u, src, m);
  }

  /** The title edit is such an edit. */
  lemma TitleFitsBlock(u: Unicode)
    ensures |V.Print(V.With(u, Flac.CommentOf([]), TITLE_ONLY))| <= Flac.MAX_BLOCK_BYTES
  {
    hide V.Print, V.AllAdded, V.Coded, V.KeyBytes;
    var edits := V.Coded(V.Edits(TITLE_ONLY));
    assert edits[0] == (V.KeyBytes(V.Title), [97]);
    assert forall i :: 0 < i < |edits| ==> edits[i].1 == [];
    NothingAdded(edits[1..]);
    OneAdded(edits);
    var field := V.KeyBytes(V.Title) + [61] + [97];
    TitleKey();
    ShortPrint(V.With(u, Flac.CommentOf([]), TITLE_ONLY), field);
  }

  lemma TitleKey()
    ensures |V.KeyBytes(V.Title)| == 5
  {
  }

  lemma {:induction false} NothingAdded(edits: seq<(Bytes, Bytes)>)
    requires forall i :: 0 <= i < |edits| ==> edits[i].1 == []
    ensures V.AllAdded(edits) == []
  {
    if edits != [] {
      NothingAdded(edits[1..]);
    }
  }

  lemma OneAdded(edits: seq<(Bytes, Bytes)>)
    requires edits != [] && edits[0].1 != [] && V.AllAdded(edits[1..]) == []
    ensures V.AllAdded(edits) == [edits[0].0 + [61] + edits[0].1]
  {
  }

  lemma ShortPrint(c: V.Comment, field: Bytes)
    requires c.fields == [field] && |field| == 7 && |c.vendor| == 7
    ensures |V.Print(c)| == 26
  {
    assert c.fields[1..] == [];
    assert V.PrintFields(c.fields) == V.PrintText(field) + [];
  }

  lemma OutgrowsAsFlac(u: Unicode, src: Bytes, m: Metadata)
    requires Tags.LooksRight(Tags.FlacFile, src) && Flac.Inspect(u, src).Ok? && Flac.Rewrite(u, src, m).Ok?
    requires Flac.Inspect(u, Flac.Rewrite(u, src, m).value) == Err(Malformed)
    ensures Outgrows(u, Tags.FlacFile, src, m)
  {
    hide Tags.LooksRight, Flac.Inspect, Flac.Rewrite;
  }

  lemma PrintIsNotEmpty(c: V.Comment)
    ensures |V.Print(c)| >= 8
  {
  }

  lemma LooksLikeFlac(blocks: seq<Flac.Block>, frames: Bytes)
    requires Flac.WellFormed(blocks)
    ensures Tags.LooksRight(Tags.FlacFile, Flac.MAGIC + Flac.PrintBlocks(blocks) + frames)
  {
    hide Flac.PrintBlocks;
    var src := Flac.MAGIC + Flac.PrintBlocks(blocks) + frames;
    assert |Flac.PrintBlocks(blocks)| >= 34 by {
      Tags.UnfoldBlocks(blocks);
    }
    Tags.Prefix(Ascii("fLaC"), src, Tags.LOOKED_AT);
  }

  // ----- Ogg -----

  /** Any headers that fit, and an edit that makes them too large. */
  lemma OggOutgrows(u: Unicode, h: OggStreams.Headers, audio: seq<OggPages.Page>, m: Metadata)
    requires u.Agrees() && m.NumbersFit() && OggMeaning.Accepted(h) && OggMeaning.AllWellFormed(audio)
    requires OggMeaning.HeadersFit(h, h.comment) && !OggMeaning.HeadersFit(h, V.With(u, h.comment, m))
    ensures var src := OggPages.Print(h.first) + OggStreams.PrintAll(OggStreams.HeaderPages(h, h.comment)) +
        OggStreams.PrintAll(audio);
      && OggStreams.Inspect(u, src).Ok? && OggStreams.Rewrite(u, src, m).Ok?
      && OggStreams.Inspect(u, OggStreams.Rewrite(u, src, m).value) == Err(Malformed)
  {
    hide OggPages.Print, OggStreams.PrintAll, OggStreams.HeaderPages, OggStreams.ReadHeaders, OggStreams.AudioPages,
      OggStreams.RewriteParts, V.With, V.Read, OggStreams.Payload, OggMeaning.Accepted;
    var rest := OggStreams.PrintAll(audio);
    var src := OggPages.Print(h.first) + OggStreams.PrintAll(OggStreams.HeaderPages(h, h.comment)) + rest;
    OggMeaning.HeadersPrinted(h, h.comment, rest);
    OggMeaning.PrintedAudioReads(audio);
    var read := OggStreams.ReadHeaders(src).value.0;
    SameParts(h, read, V.With(u, h.comment, m));
    assert OggStreams.Rewrite(u, src, m).Ok?;
    OggMeaning.RewriteKeepsAudio(u, src, m);
  }

  lemma SameParts(h: OggStreams.Headers, read: OggStreams.Headers, comment: V.Comment)
    requires read == h.(comment := h.comment, pages := read.pages)
    ensures OggMeaning.HeadersFit(h, comment) == OggMeaning.HeadersFit(read, comment)
  {
    hide V.Print;
    assert OggStreams.HeaderPackets(h, comment) == OggStreams.HeaderPackets(read, comment);
  }

  // "OpusHead", and a type byte before "vorbis".
  const OPUS_ID: Bytes := [0x4F, 0x70, 0x75, 0x73, 0x48, 0x65, 0x61, 0x64]
  const VORBIS_ID: Bytes := [1, 0x76, 0x6F, 0x72, 0x62, 0x69, 0x73]
  const VORBIS_SETUP: Bytes := [5, 0x76, 0x6F, 0x72, 0x62, 0x69, 0x73]

  /** An identification page, of the size its codec has. */
  function FirstPage(opus: bool): OggPages.Page {
    OggPages.Page(OggPages.BOS, 0, 7, 0, [if opus then 19 else 30], if opus then OPUS_ID + Zeros(11) else VORBIS_ID + Zeros(23))
  }

  /** Headers with an empty comment, and as many bytes after it as fit. */
  function FullHeaders(opus: bool): OggStreams.Headers {
    OggStreams.Headers(FirstPage(opus), opus, V.Comment([], []), Zeros(MAX_TAG_BYTES - (if opus then 16 else 22)),
                       if opus then [] else VORBIS_SETUP, 0)
  }

  lemma FullHeadersFit(opus: bool)
    ensures OggMeaning.Accepted(FullHeaders(opus)) && FullHeaders(opus).comment == V.Comment([], [])
    ensures OggMeaning.HeadersFit(FullHeaders(opus), FullHeaders(opus).comment)
  {
    hide OggMeaning.HeadersFit, OggMeaning.Accepted;
    FullIsAccepted(opus);
    EmptyPrint();
    FitsWithin(opus, V.Comment([], []));
  }

  lemma FullIsAccepted(opus: bool)
    ensures OggMeaning.Accepted(FullHeaders(opus))
  {
    hide FirstPage, OggStreams.Identify;
    FirstPageIsIdentified(opus);
    assert VORBIS_SETUP[..7] == VORBIS_SETUP;
  }

  lemma FirstPageIsIdentified(opus: bool)
    ensures FirstPage(opus).WellFormed() && OggStreams.Identify(FirstPage(opus)) == Ok(opus)
  {
    var page := FirstPage(opus);
    OneSegment(page.segments);
    if opus {
      assert page.data[..8] == OPUS_ID;
    } else {
      assert page.data[..7] == VORBIS_ID && page.data[..8][0] == 1;
    }
  }

  lemma OneSegment(segments: Bytes)
    requires |segments| == 1
    ensures OggPages.Sum(segments) == segments[0]
  {
  }

  lemma EmptyPrint()
    ensures |V.Print(V.Comment([], []))| == 8
  {
  }

  lemma FitsWithin(opus: bool, comment: V.Comment)
    ensures OggMeaning.HeadersFit(FullHeaders(opus), comment) <==> |V.Print(comment)| <= 8
  {
    hide V.Print, FullHeaders, OggStreams.HeaderPackets, OggPagination.Join;
    HeaderSize(opus, comment);
  }

  lemma HeaderSize(opus: bool, comment: V.Comment)
    ensures |OggPagination.Join(OggStreams.HeaderPackets(FullHeaders(opus), comment))| == |V.Print(comment)| + MAX_TAG_BYTES - 8
  {
    hide V.Print, FirstPage;
    var h := FullHeaders(opus);
    var packet := OggStreams.CommentMagic(opus) + V.Print(comment) + h.trailing;
    if opus {
      assert OggStreams.HeaderPackets(h, comment) == [packet];
      OneJoined(packet);
    } else {
      assert OggStreams.HeaderPackets(h, comment) == [packet] + [VORBIS_SETUP];
      OneJoined(VORBIS_SETUP);
      TwoJoined(packet, VORBIS_SETUP);
    }
  }

  lemma OneJoined(packet: Bytes)
    ensures OggPagination.Join([packet]) == packet
  {
    var one: seq<Bytes> := [packet];
    assert one[1..] == [] && packet + [] == packet;
  }

  lemma TwoJoined(a: Bytes, b: Bytes)
    ensures OggPagination.Join([a] + [b]) == a + OggPagination.Join([b])
  {
    assert ([a] + [b])[1..] == [b];
  }

  /** An Opus or Vorbis file whose header packets are as large as a reader
      accepts, before any audio pages. */
  lemma SomeOggOutgrows(u: Unicode, opus: bool, audio: seq<OggPages.Page>) returns (src: Bytes)
    requires u.Agrees() && OggMeaning.AllWellFormed(audio)
    ensures Outgrows(u, Tags.OggFile, src, TITLE_ONLY)
    ensures OggStreams.ReadHeaders(src).Ok? && OggStreams.ReadHeaders(src).value.0.opus == opus
  {
    hide OggPages.Print, OggStreams.PrintAll, OggStreams.HeaderPages, OggStreams.Inspect, OggStreams.Rewrite, V.With, V.Print,
      OggMeaning.Accepted, FullHeaders, OggMeaning.HeadersFit, Tags.LooksRight, Outgrows, TITLE_ONLY, OggMeaning.AllWellFormed,
      OggStreams.ReadHeaders;
    var h := FullHeaders(opus);
    FullHeadersFit(opus);
    assert h.opus == opus by {
      IsFull(opus);
    }
    TitleAddsField(u, h.comment);
    FitsWithin(opus, V.With(u, h.comment, TITLE_ONLY));
    TitleIsClean();
    OggOutgrows(u, h, audio, TITLE_ONLY);
    src := OggPages.Print(h.first) + OggStreams.PrintAll(OggStreams.HeaderPages(h, h.comment)) + OggStreams.PrintAll(audio);
    OggMeaning.HeadersPrinted(h, h.comment, OggStreams.PrintAll(audio));
    LooksLikeOgg(h.first, OggStreams.PrintAll(OggStreams.HeaderPages(h, h.comment)), OggStreams.PrintAll(audio));
    OutgrowsAsOgg(u, src, TITLE_ONLY);
  }

  lemma IsFull(opus: bool)
    ensures FullHeaders(opus).opus == opus
  {
  }

  lemma LooksLikeOgg(first: OggPages.Page, a: Bytes, b: Bytes)
    ensures Tags.LooksRight(Tags.OggFile, OggPages.Print(first) + a + b)
  {
    hide OggPages.Tail;
    var src := OggPages.Print(first) + a + b;
    assert OggPages.Print(first)[..4] == OggPages.CAPTURE;
    Tags.Prefix(Ascii("OggS"), src, Tags.LOOKED_AT);
  }

  lemma OutgrowsAsOgg(u: Unicode, src: Bytes, m: Metadata)
    requires Tags.LooksRight(Tags.OggFile, src) && OggStreams.Inspect(u, src).Ok? && OggStreams.Rewrite(u, src, m).Ok?
    requires OggStreams.Inspect(u, OggStreams.Rewrite(u, src, m).value) == Err(Malformed)
    ensures Outgrows(u, Tags.OggFile, src, m)
  {
    hide Tags.LooksRight, OggStreams.Inspect, OggStreams.Rewrite;
  }

  /** The title's field makes the comment longer than the empty one's 8 bytes. */
  lemma TitleAddsField(u: Unicode, c: V.Comment)
    ensures |V.Print(V.With(u, c, TITLE_ONLY))| > 8
  {
    hide V.Print, V.AllAdded, V.Coded, V.Kept;
    var edits := V.Coded(V.Edits(TITLE_ONLY));
    assert edits[0].1 == [97];
    FirstIsAdded(edits);
    FieldsPrint(V.With(u, c, TITLE_ONLY));
  }

  lemma FirstIsAdded(edits: seq<(Bytes, Bytes)>)
    requires edits != [] && edits[0].1 != []
    ensures V.AllAdded(edits) != []
  {
  }

  lemma FieldsPrint(c: V.Comment)
    requires c.fields != []
    ensures |V.Print(c)| > 8
  {
  }
}

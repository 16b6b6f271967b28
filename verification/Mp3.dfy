/** MP3 files: an optional leading ID3v2 tag, the audio, and an optional
    trailing ID3v1 block, which a rewrite drops. */
module Mp3 {
  import opened ByteOrder
  import opened TagText
  import I = Id3

  const ID3V1_BYTES := 128

  /** The last bytes form an ID3v1 block. */
  predicate EndsInId3v1(b: Bytes) {
    |b| >= ID3V1_BYTES && b[|b| - ID3V1_BYTES..][..3] == Ascii("TAG")
  }

  /** The audio after the leading tag, as the copy is meant to leave it. */
  function Strip(b: Bytes): Bytes {
    if EndsInId3v1(b) then b[..|b| - ID3V1_BYTES] else b
  }

  function Join(chunks: seq<Bytes>): Bytes {
    if chunks == [] then [] else chunks[0] + Join(chunks[1..])
  }

  lemma {:induction false} JoinAppend(chunks: seq<Bytes>, chunk: Bytes)
    ensures Join(chunks + [chunk]) == Join(chunks) + chunk
  {
    if chunks == [] {
      assert [chunk][1..] == [];
    } else {
      assert (chunks + [chunk])[1..] == chunks[1..] + [chunk];
      JoinAppend(chunks[1..], chunk);
    }
  }

  /** Copies the audio as it arrives, in however many reads, holding back as
      many bytes as an ID3v1 block has. */
  method CopyAudio(chunks: seq<Bytes>) returns (out: Bytes)
    ensures out == Strip(Join(chunks))
  {
    out := [];
    var held: Bytes := [];
    assert chunks[..0] == [];
    for i := 0 to |chunks|
      invariant out + held == Join(chunks[..i])
      invariant |held| <= ID3V1_BYTES && (out != [] ==> |held| == ID3V1_BYTES)
    {
      assert chunks[..i + 1] == chunks[..i] + [chunks[i]];
      JoinAppend(chunks[..i], chunks[i]);
      var chunk := held + chunks[i];
      if |chunk| > ID3V1_BYTES {
        var keep := |chunk| - ID3V1_BYTES;
        assert out + chunk == (out + chunk[..keep]) + chunk[keep..];
        out := out + chunk[..keep];
        held := chunk[keep..];
      } else {
        held := chunk;
      }
    }
    assert chunks[..|chunks|] == chunks;
    ghost var all := out + held;
    if |held| == ID3V1_BYTES && held[..3] == Ascii("TAG") {
      assert all[|all| - ID3V1_BYTES..] == held && all[..|all| - ID3V1_BYTES] == out;
      return;
    }
    if |all| >= ID3V1_BYTES {
      assert all[|all| - ID3V1_BYTES..] == held;
    }
    out := out + held;
  }

  function Inspect(u: Unicode, src: Bytes): Result<Info> {
    var (tag, rest) :- I.ReadTag(src);
    I.ReadTagIsWellFormed(src);
    Ok(Info(I.Read(u, tag), Strip(rest)))
  }

  function RewriteTag(u: Unicode, tag: I.Tag, m: Metadata): Result<Bytes>
    requires I.WellFormed(tag)
  {
    I.Print(I.With(u, tag, m))
  }

  function Rewrite(u: Unicode, src: Bytes, m: Metadata): Result<Bytes> {
    var (tag, rest) :- I.ReadTag(src);
    I.ReadTagIsWellFormed(src);
    var encoded :- RewriteTag(u, tag, m);
    Ok(encoded + Strip(rest))
  }

  /** The rewrite as it streams: what follows the tag arrives as chunks. */
  method RewriteMp3(u: Unicode, src: Bytes, chunks: seq<Bytes>, m: Metadata) returns (r: Result<Bytes>)
    requires I.ReadTag(src).Ok? ==> Join(chunks) == I.ReadTag(src).value.1
    ensures r == Rewrite(u, src, m)
  {
    var read := I.ReadTag(src);
    if read.Err? {
      return Err(read.error);
    }
    I.ReadTagIsWellFormed(src);
    I.WellFormedIsHeaded(read.value.0);
    var tag := I.ReplaceFrames(u, read.value.0, m);
    var encoded := I.PrintTag(tag);
    if encoded.Err? {
      return encoded;
    }
    var audio := CopyAudio(chunks);
    r := Ok(encoded.value + audio);
  }

  /** The tag written stays within what a reader accepts. */
  predicate SmallEnough(u: Unicode, src: Bytes, m: Metadata)
    requires I.ReadTag(src).Ok?
  {
    I.ReadTagIsWellFormed(src);
    |I.Concat(I.With(u, I.ReadTag(src).value.0, m).frames)| <= MAX_TAG_BYTES
  }

  /** The audio left after the trailing ID3v1 block ends in another one. */
  predicate HasSecondId3v1(src: Bytes)
    requires I.ReadTag(src).Ok?
  {
    EndsInId3v1(Strip(I.ReadTag(src).value.1))
  }

  /** The rewritten file re-reads as the planned tag and the stripped audio. */
  lemma RewrittenReads(u: Unicode, src: Bytes, m: Metadata)
    requires u.Agrees() && I.CleanTexts(m) && Rewrite(u, src, m).Ok?
    ensures I.ReadTag(src).Ok? && I.WellFormed(I.ReadTag(src).value.0)
    ensures var (tag, rest) := I.ReadTag(src).value;
      I.ReadTag(Rewrite(u, src, m).value) ==
        if SmallEnough(u, src, m) then Ok((I.With(u, tag, m), Strip(rest))) else Err(Malformed)
  {
    hide I.ReadTag, I.With, I.Print, I.CleanTexts, I.Concat, I.WellFormed;
    I.ReadTagIsWellFormed(src);
    var (tag, rest) := I.ReadTag(src).value;
    I.WellFormedIsHeaded(tag);
    I.WithIsWellFormed(u, tag, m);
    I.ReadPrinted(I.With(u, tag, m), Strip(rest));
  }

  /** Inspecting a rewritten file gives exactly the new metadata; its audio is
      what inspecting the source gives, less a second ID3v1 block. */
  lemma RewriteKeepsAudio(u: Unicode, src: Bytes, m: Metadata)
    requires u.Agrees() && I.CleanTexts(m) && m.NumbersFit() && Rewrite(u, src, m).Ok?
    ensures I.ReadTag(src).Ok? && Inspect(u, src).Ok?
    ensures Inspect(u, Rewrite(u, src, m).value) ==
      if SmallEnough(u, src, m) then Ok(Info(m, Strip(Inspect(u, src).value.payload))) else Err(Malformed)
    ensures SmallEnough(u, src, m) ==>
      (Inspect(u, Rewrite(u, src, m).value).value.payload == Inspect(u, src).value.payload <==> !HasSecondId3v1(src))
  {
    hide I.ReadTag, I.With, I.Print, I.CleanTexts, I.Concat, I.WellFormed, I.Read, Rewrite;
    RewrittenReads(u, src, m);
    var tag := I.ReadTag(src).value.0;
    assert I.Print(I.With(u, tag, m)).Ok? by {
      RewritePrints(u, src, m);
    }
    I.WrittenIsRead(u, tag, m);
  }

  lemma RewritePrints(u: Unicode, src: Bytes, m: Metadata)
    requires Rewrite(u, src, m).Ok?
    ensures I.ReadTag(src).Ok? && I.WellFormed(I.ReadTag(src).value.0) && I.Headed(I.ReadTag(src).value.0.frames)
    ensures I.Print(I.With(u, I.ReadTag(src).value.0, m)).Ok?
  {
    hide I.ReadTag, I.With, I.Print;
    I.ReadTagIsWellFormed(src);
  }

  /** Rewriting twice gives byte for byte what the second rewrite alone gives,
      if and only if the intermediate file can be read back and no second
      ID3v1 block was there to be lost. */
  lemma RewritesCompose(u: Unicode, src: Bytes, m1: Metadata, m2: Metadata)
    requires u.Agrees() && I.CleanTexts(m1) && Rewrite(u, src, m1).Ok?
    ensures I.ReadTag(src).Ok?
    ensures SmallEnough(u, src, m1) && !HasSecondId3v1(src) ==>
      Rewrite(u, Rewrite(u, src, m1).value, m2) == Rewrite(u, src, m2)
    ensures Rewrite(u, Rewrite(u, src, m1).value, m2) == Rewrite(u, src, m2) && Rewrite(u, src, m2).Ok? ==>
      SmallEnough(u, src, m1) && !HasSecondId3v1(src)
  {
    hide I.ReadTag, I.With, I.Print, I.CleanTexts, I.Concat, I.WellFormed, I.Headed;
    RewrittenReads(u, src, m1);
    RewritePrints(u, src, m1);
    var (tag, rest) := I.ReadTag(src).value;
    if SmallEnough(u, src, m1) {
      I.WithTwice(u, tag, m1, m2);
      RewriteAgain(u, src, m1, m2, Strip(rest));
    }
  }

  lemma RewriteAgain(u: Unicode, src: Bytes, m1: Metadata, m2: Metadata, audio: Bytes)
    requires Rewrite(u, src, m1).Ok?
    requires I.ReadTag(src).Ok? && I.WellFormed(I.ReadTag(src).value.0) && I.Headed(I.ReadTag(src).value.0.frames)
    requires audio == Strip(I.ReadTag(src).value.1)
    requires var tag := I.ReadTag(src).value.0;
      && I.ReadTag(Rewrite(u, src, m1).value) == Ok((I.With(u, tag, m1), audio))
      && I.WellFormed(I.With(u, tag, m1))
      && I.With(u, I.With(u, tag, m1), m2) == I.With(u, tag, m2)
    ensures Rewrite(u, src, m2).Ok? ==>
      (Rewrite(u, Rewrite(u, src, m1).value, m2) == Rewrite(u, src, m2) <==> !EndsInId3v1(audio))
    ensures Rewrite(u, src, m2).Err? ==> Rewrite(u, Rewrite(u, src, m1).value, m2) == Rewrite(u, src, m2)
  {
    hide I.ReadTag, I.With, I.Print;
    var tag := I.ReadTag(src).value.0;
    if I.Print(I.With(u, tag, m2)).Ok? {
      var encoded := I.Print(I.With(u, tag, m2)).value;
      assert Rewrite(u, src, m2) == Ok(encoded + audio);
      assert Rewrite(u, Rewrite(u, src, m1).value, m2) == Ok(encoded + Strip(audio));
      assert |encoded + audio| == |encoded| + |audio|;
    }
  }

  // ----- A file that loses audio -----

  /** The start of an MPEG audio frame. */
  const SYNC: Bytes := [0xFF, 0xFB]

  /** An audio frame's start and two ID3v1 blocks. */
  function TwoBlocks(): Bytes {
    SYNC + OneBlock() + OneBlock()
  }

  function OneBlock(): Bytes {
    Ascii("TAG") + seq(125, _ => 0)
  }

  lemma NoTextNoFrames(major: byte, texts: seq<(Bytes, Bytes)>)
    requires forall i :: 0 <= i < |texts| ==> texts[i].1 == []
    ensures I.TextFrames(major, texts) == []
  {
  }

  lemma BlocksStrip()
    ensures Strip(TwoBlocks()) == SYNC + OneBlock() && Strip(SYNC + OneBlock()) == SYNC
    ensures TwoBlocks() != [] && TwoBlocks()[0] == 0xFF
  {
    var block := OneBlock();
    assert |block| == ID3V1_BYTES && block[..3] == Ascii("TAG");
    StripLast(SYNC + block, block);
    StripLast(SYNC, block);
  }

  lemma StripLast(audio: Bytes, block: Bytes)
    requires |block| == ID3V1_BYTES && block[..3] == Ascii("TAG")
    ensures Strip(audio + block) == audio
  {
    var b := audio + block;
    assert b[|b| - ID3V1_BYTES..] == block && b[..|b| - ID3V1_BYTES] == audio;
  }

  lemma NoTag(b: Bytes)
    requires b != [] && b[0] != 73
    ensures I.ReadTag(b) == Ok((I.Tag(4, []), b))
  {
  }

  /** Each rewrite of this file drops one of its blocks, so what the source
      counts as audio is not preserved. */
  lemma SecondBlockIsLost(u: Unicode)
    requires u.Agrees()
    ensures Rewrite(u, TwoBlocks(), I.NO_FIELDS.m).Ok?
    ensures var out := Rewrite(u, TwoBlocks(), I.NO_FIELDS.m).value;
      && Inspect(u, TwoBlocks()).Ok? && Inspect(u, TwoBlocks()).value.payload == SYNC + OneBlock()
      && Inspect(u, out).Ok? && Inspect(u, out).value.payload == SYNC
  {
    hide I.Print, I.TextFrames, I.CommentFrame, I.ReadTag, I.With, I.Read, I.Texts, TwoBlocks, OneBlock, Strip;
    var src, m := TwoBlocks(), I.NO_FIELDS.m;
    BlocksStrip();
    NoTag(src);
    NoTextNoFrames(4, I.Texts(4, m)) by {
      EmptyTexts(m);
    }
    EmptyTag(u, m);
    assert I.CleanTexts(m);
    assert m.NumbersFit();
    assert Rewrite(u, src, m).Ok?;
    RewriteKeepsAudio(u, src, m);
  }

  lemma EmptyTexts(m: Metadata)
    requires m == I.NO_FIELDS.m
    ensures forall i :: 0 <= i < |I.Texts(4, m)| ==> I.Texts(4, m)[i].1 == []
  {
  }

  lemma EmptyTag(u: Unicode, m: Metadata)
    requires m == I.NO_FIELDS.m && I.TextFrames(4, I.Texts(4, m)) == []
    ensures I.With(u, I.Tag(4, []), m) == I.Tag(4, []) && I.Print(I.Tag(4, [])).Ok?
  {
    hide I.Texts, I.TextFrames;
  }
}

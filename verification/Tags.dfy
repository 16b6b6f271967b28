/** The three formats behind one interface, what the background writer checks
    before it trusts a rewritten file, and when that check passes. */
module Tags {
  import opened ByteOrder
  import opened TagText
  import Flac
  import I = Id3
  import Mp3
  import OggMeaning
  import OggPages
  import OggPagination
  import OggStreams
  import V = VorbisComments

  datatype Format = Mp3File | FlacFile | OggFile | Other

  // ----- Choosing the format -----

  /** The extension of a slash-separated path, with its dot. */
  function Extension(fileName: string): string {
    if fileName == "" || fileName[|fileName| - 1] == '/' then ""
    else if fileName[|fileName| - 1] == '.' then "."
    else
      var ext := Extension(fileName[..|fileName| - 1]);
      if ext == "" then "" else ext + [fileName[|fileName| - 1]]
  }

  function Lower(s: string): string {
    seq(|s|, i requires 0 <= i < |s| => if 'A' <= s[i] <= 'Z' then s[i] + 32 as char else s[i])
  }

  function FormatOf(fileName: string): Format {
    var ext := Lower(Extension(fileName));
    if ext == ".mp3" then Mp3File
    else if ext == ".flac" then FlacFile
    else if ext == ".ogg" || ext == ".opus" then OggFile
    else Other
  }

  /** The loop behind the extension: from the end back to the last dot. */
  method FindExtension(fileName: string) returns (ext: string)
    ensures ext == Extension(fileName)
  {
    var i := |fileName|;
    assert fileName[..i] == fileName && fileName[i..] == "" && Extension(fileName) + "" == Extension(fileName);
    while i > 0 && fileName[i - 1] != '/'
      invariant 0 <= i <= |fileName|
      invariant Extension(fileName) ==
        if Extension(fileName[..i]) == "" then "" else Extension(fileName[..i]) + fileName[i..]
    {
      assert fileName[..i][..i - 1] == fileName[..i - 1];
      assert [fileName[i - 1]] + fileName[i..] == fileName[i - 1..];
      if fileName[i - 1] == '.' {
        return fileName[i - 1..];
      }
      i := i - 1;
    }
    ext := "";
  }

  /** The extension begins at the last dot of the last path element. */
  lemma {:induction false} ExtensionIs(fileName: string, i: nat)
    requires i <= |fileName| && forall j :: i < j < |fileName| ==> fileName[j] != '.' && fileName[j] != '/'
    requires i < |fileName| ==> fileName[i] == '.' || fileName[i] == '/'
    requires i == |fileName| ==> '.' !in fileName && '/' !in fileName
    ensures Extension(fileName) == if i < |fileName| && fileName[i] == '.' then fileName[i..] else ""
    decreases |fileName|
  {
    if |fileName| > 0 && i != |fileName| - 1 {
      var init := fileName[..|fileName| - 1];
      ExtensionIs(init, if i == |fileName| then |init| else i);
      if i < |fileName| {
        assert init[i..] + [fileName[|fileName| - 1]] == fileName[i..];
      }
    }
  }

  /** The format goes by the extension alone, in any case. */
  lemma FormatIs(stem: string, ext: string)
    requires '.' !in ext && '/' !in ext
    ensures FormatOf(stem + "." + ext) ==
      match Lower(ext)
      case "mp3" => Mp3File
      case "flac" => FlacFile
      case "ogg" => OggFile
      case "opus" => OggFile
      case _ => Other
  {
    var name := stem + "." + ext;
    ExtensionIs(name, |stem|);
    assert name[|stem|..] == "." + ext;
    assert Lower("." + ext) == "." + Lower(ext);
    assert ("." + Lower(ext))[1..] == Lower(ext);
    assert ".mp3"[1..] == "mp3" && ".flac"[1..] == "flac" && ".ogg"[1..] == "ogg" && ".opus"[1..] == "opus";
  }

  function Inspect(u: Unicode, format: Format, src: Bytes): Result<Info> {
    match format
    case Mp3File => Mp3.Inspect(u, src)
    case FlacFile => Flac.Inspect(u, src)
    case OggFile => OggStreams.Inspect(u, src)
    case Other => Err(Unsupported)
  }

  function Rewrite(u: Unicode, format: Format, src: Bytes, m: Metadata): Result<Bytes> {
    match format
    case Mp3File => Mp3.Rewrite(u, src, m)
    case FlacFile => Flac.Rewrite(u, src, m)
    case OggFile => OggStreams.Rewrite(u, src, m)
    case Other => Err(Unsupported)
  }

  // ----- Verification -----

  const LOOKED_AT := 16

  /** Whether the first bytes look like the format. */
  predicate Matches(format: Format, header: Bytes) {
    match format
    case Mp3File => StartsWith(header, Ascii("ID3")) || (|header| >= 2 && header[0] == 0xFF && header[1] >= 0xE0)
    case FlacFile => StartsWith(header, Ascii("fLaC"))
    case OggFile => StartsWith(header, Ascii("OggS"))
    case Other => false
  }

  /** What an upload and a rewritten file are both checked for. */
  predicate LooksRight(format: Format, file: Bytes) {
    |file| >= LOOKED_AT && Matches(format, file[..LOOKED_AT])
  }

  /** The first bytes an upload must have: a tag or an MPEG frame's sync bits,
      the marker of a FLAC file, the capture pattern of an Ogg page. */
  lemma LooksRightIff(format: Format, file: Bytes)
    ensures LooksRight(format, file) <==>
      |file| >= 16 &&
      match format
      case Mp3File => Spells(file[..3], "ID3") || (file[0] == 0xFF && file[1] / 32 == 7)
      case FlacFile => Spells(file[..4], "fLaC")
      case OggFile => Spells(file[..4], "OggS")
      case Other => false
  {
    if |file| >= 16 {
      var header := file[..LOOKED_AT];
      assert header[..3] == file[..3] && header[..4] == file[..4];
    }
  }

  /** The writer's check of a rewritten file against its source. */
  predicate Verified(u: Unicode, format: Format, src: Bytes, out: Bytes, m: Metadata) {
    && LooksRight(format, out)
    && Inspect(u, format, src).Ok?
    && Inspect(u, format, out) == Ok(Info(m, Inspect(u, format, src).value.payload))
  }

  /** Metadata that can be embedded in this format and read back unchanged:
      NUL-free valid UTF-8 for ID3, any bytes for Vorbis comments. */
  predicate Embeddable(format: Format, m: Metadata) {
    m.NumbersFit() && (format == Mp3File ==> I.CleanTexts(m))
  }

  /** What can go wrong, seen from the source alone: the new tag outgrows what
      a reader accepts, or an MP3 is too short or hides a second ID3v1 block. */
  predicate Safe(u: Unicode, format: Format, src: Bytes, m: Metadata)
    requires Rewrite(u, format, src, m).Ok?
  {
    match format
    case Mp3File => Mp3.SmallEnough(u, src, m) && !Mp3.HasSecondId3v1(src) && LongEnough(u, src, m)
    case FlacFile => Flac.SmallEnough(u, src, m)
    case OggFile => OggReadable(u, src, m)
  }

  /** The new tag's frames and the audio fill what is looked at, less the tag's
      header. */
  predicate LongEnough(u: Unicode, src: Bytes, m: Metadata)
    requires I.ReadTag(src).Ok?
  {
    I.ReadTagIsWellFormed(src);
    var (tag, rest) := I.ReadTag(src).value;
    |I.Concat(I.With(u, tag, m).frames)| + |Mp3.Strip(rest)| >= LOOKED_AT - I.HEADER_BYTES
  }

  lemma RewrittenLength(u: Unicode, src: Bytes, m: Metadata)
    requires Mp3.Rewrite(u, src, m).Ok?
    ensures I.ReadTag(src).Ok? && (|Mp3.Rewrite(u, src, m).value| >= LOOKED_AT <==> LongEnough(u, src, m))
  {
    hide I.ReadTag, I.With, I.Concat, PutSyncsafe, Mp3.Strip;
  }

  predicate OggReadable(u: Unicode, src: Bytes, m: Metadata) {
    OggStreams.ReadHeaders(src).Ok? && OggMeaning.SmallEnough(u, src, m)
  }

  lemma Looks(u: Unicode, format: Format, src: Bytes, m: Metadata)
    requires Rewrite(u, format, src, m).Ok?
    ensures var out := Rewrite(u, format, src, m).value;
      && (format != Mp3File ==> |out| >= LOOKED_AT)
      && (|out| >= LOOKED_AT ==> Matches(format, out[..LOOKED_AT]))
  {
    var out := Rewrite(u, format, src, m).value;
    match format
    case Mp3File => LooksMp3(u, src, m);
    case FlacFile => LooksFlac(u, src, m);
    case OggFile => LooksOgg(u, src, m);
  }

  lemma Prefix(prefix: Bytes, out: Bytes, n: nat)
    requires |prefix| <= n <= |out| && prefix <= out
    ensures StartsWith(out[..n], prefix)
  {
  }

  lemma LooksMp3(u: Unicode, src: Bytes, m: Metadata)
    requires Mp3.Rewrite(u, src, m).Ok?
    ensures Ascii("ID3") <= Mp3.Rewrite(u, src, m).value
    ensures var out := Mp3.Rewrite(u, src, m).value; |out| >= LOOKED_AT ==> Matches(Mp3File, out[..LOOKED_AT])
  {
    hide I.ReadTag, I.With, I.Concat, PutSyncsafe;
    var out := Mp3.Rewrite(u, src, m).value;
    assert Ascii("ID3") == [73, 68, 51];
    if |out| >= LOOKED_AT {
      Prefix(Ascii("ID3"), out, LOOKED_AT);
    }
  }

  lemma LooksFlac(u: Unicode, src: Bytes, m: Metadata)
    requires Flac.Rewrite(u, src, m).Ok?
    ensures var out := Flac.Rewrite(u, src, m).value; |out| >= LOOKED_AT && Matches(FlacFile, out[..LOOKED_AT])
  {
    hide Flac.ReadMetadata, V.With, V.Print, Flac.CommentOf, Flac.PrintBlocks;
    var out := Flac.Rewrite(u, src, m).value;
    var (blocks, frames) := Flac.ReadMetadata(src).value;
    Flac.ReadIsWellFormed(src);
    var planned := Flac.NewBlocks(blocks, V.With(u, Flac.CommentOf(blocks), m));
    assert |Flac.PrintBlocks(planned)| >= 34 by {
      assert Flac.PrintBlocks(planned) ==
        Flac.PrintBlock(planned[0], |planned| == 1) + Flac.PrintBlocks(planned[1..]) by {
        UnfoldBlocks(planned);
      }
    }
    Prefix(Ascii("fLaC"), out, LOOKED_AT);
  }

  lemma UnfoldBlocks(blocks: seq<Flac.Block>)
    requires blocks != []
    ensures Flac.PrintBlocks(blocks) ==
      Flac.PrintBlock(blocks[0], |blocks| == 1) + Flac.PrintBlocks(blocks[1..])
  {
  }

  lemma LooksOgg(u: Unicode, src: Bytes, m: Metadata)
    requires OggStreams.Rewrite(u, src, m).Ok?
    ensures var out := OggStreams.Rewrite(u, src, m).value; |out| >= LOOKED_AT && Matches(OggFile, out[..LOOKED_AT])
  {
    hide OggStreams.ReadHeaders, OggStreams.AudioPages, V.With, V.Print, OggStreams.HeaderPages, OggStreams.PrintAll,
      OggStreams.ShiftAll, OggPages.Tail;
    var out := OggStreams.Rewrite(u, src, m).value;
    var first := OggStreams.ReadHeaders(src).value.0.first;
    assert OggPages.Print(first)[..4] == OggPages.CAPTURE;
    assert OggPages.Print(first) <= out;
    Prefix(Ascii("OggS"), out, LOOKED_AT);
  }

  /** The check before a swap passes exactly when none of the listed things go
      wrong. */
  lemma VerificationPasses(u: Unicode, format: Format, src: Bytes, m: Metadata)
    requires u.Agrees() && Embeddable(format, m) && Rewrite(u, format, src, m).Ok?
    ensures Inspect(u, format, src).Ok?
    ensures Verified(u, format, src, Rewrite(u, format, src, m).value, m) <==> Safe(u, format, src, m)
  {
    hide Mp3.Rewrite, Mp3.Inspect, Mp3.SmallEnough, Flac.Rewrite, Flac.Inspect, Flac.SmallEnough,
      OggStreams.Rewrite, OggStreams.Inspect, OggMeaning.SmallEnough, Matches, I.CleanTexts, OggStreams.ReadHeaders,
      Mp3.HasSecondId3v1, I.ReadTag, Mp3.Strip, LongEnough;
    Looks(u, format, src, m);
    match format
    case Mp3File => RewrittenLength(u, src, m); Mp3.RewriteKeepsAudio(u, src, m);
    case FlacFile => Flac.RewriteKeepsAudio(u, src, m);
    case OggFile => OggMeaning.RewriteKeepsAudio(u, src, m);
  }

  // ----- Any number of rewrites -----

  /** One verified rewrite after another, each of the file before it. */
  ghost predicate Chain(u: Unicode, format: Format, files: seq<Bytes>, edits: seq<Metadata>) {
    && |files| == |edits| + 1
    && forall i :: 0 <= i < |edits| ==>
      && Embeddable(format, edits[i])
      && Rewrite(u, format, files[i], edits[i]) == Ok(files[i + 1])
      && Verified(u, format, files[i], files[i + 1], edits[i])
  }

  lemma ComposeVerified(u: Unicode, format: Format, src: Bytes, mid: Bytes, m1: Metadata, m2: Metadata)
    requires u.Agrees() && Embeddable(format, m1)
    requires Rewrite(u, format, src, m1) == Ok(mid) && Verified(u, format, src, mid, m1)
    ensures Rewrite(u, format, mid, m2) == Rewrite(u, format, src, m2)
  {
    hide Mp3.Rewrite, Mp3.Inspect, Mp3.SmallEnough, Flac.Rewrite, Flac.Inspect, Flac.SmallEnough, Verified,
      OggStreams.Rewrite, OggStreams.Inspect, OggMeaning.SmallEnough, Matches, I.CleanTexts, OggStreams.ReadHeaders,
      Mp3.HasSecondId3v1, I.ReadTag;
    VerificationPasses(u, format, src, m1);
    match format
    case Mp3File => Mp3.RewritesCompose(u, src, m1, m2);
    case FlacFile => Flac.RewritesCompose(u, src, m1, m2);
    case OggFile => OggMeaning.RewritesCompose(u, src, m1, m2);
  }

  /** However often a file is rewritten, the result is byte for byte the upload
      rewritten once with the last metadata, and its audio is the upload's. */
  lemma {:induction false} ChainIsOneRewrite(u: Unicode, format: Format, files: seq<Bytes>, edits: seq<Metadata>)
    requires u.Agrees() && Chain(u, format, files, edits) && edits != []
    ensures Rewrite(u, format, files[0], edits[|edits| - 1]) == Ok(files[|edits|])
    ensures Verified(u, format, files[0], files[|edits|], edits[|edits| - 1])
    decreases |edits|
  {
    hide Rewrite, Inspect, Embeddable, Matches;
    var n := |edits| - 1;
    if n > 0 {
      ChainIsOneRewrite(u, format, files[..n + 1], edits[..n]);
      ComposeVerified(u, format, files[0], files[n], edits[n - 1], edits[n]);
    }
  }
}

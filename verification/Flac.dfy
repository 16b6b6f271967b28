/** FLAC metadata blocks: reading them, and rewriting the comment block while
    keeping every other one and the audio frames. */
module Flac {
  import opened ByteOrder
  import opened Filtering
  import opened TagText
  import V = VorbisComments

  const STREAMINFO := 0
  const PADDING := 1
  const VORBIS_COMMENT := 4
  const MAX_BLOCK_BYTES := 0xFF_FFFF

  type Kind = k: int | 0 <= k < 127

  datatype Block = Block(kind: Kind, data: Bytes)

  const MAGIC: Bytes := Ascii("fLaC")

  // ----- Reading -----

  /** One block, whether it is marked last, and what follows it. */
  function ReadBlock(b: Bytes): Result<(Block, bool, Bytes)> {
    if |b| < 4 || b[0] % 128 == 127 || |b| - 4 < GetBE(b[1..4]) then Err(Malformed)
    else
      var n := GetBE(b[1..4]);
      Ok((Block(b[0] % 128, b[4..4 + n]), b[0] >= 128, b[4 + n..]))
  }

  /** Whether a block may come next, after `total` bytes of metadata. */
  predicate Admitted(block: Block, total: nat, first: bool) {
    total + |block.data| <= MAX_TAG_BYTES && (first ==> block.kind == STREAMINFO && |block.data| == 34)
  }

  /** The blocks up to the one marked last, and what follows it. */
  function ReadBlocks(b: Bytes, total: nat, first: bool): Result<(seq<Block>, Bytes)>
    decreases |b|
  {
    var (block, last, rest) :- ReadBlock(b);
    if !Admitted(block, total, first) then Err(Malformed)
    else if last then Ok(([block], rest))
    else
      var (blocks, end) :- ReadBlocks(rest, total + |block.data|, false);
      Ok(([block] + blocks, end))
  }

  function ReadMetadata(b: Bytes): Result<(seq<Block>, Bytes)> {
    if !StartsWith(b, MAGIC) then Err(Malformed) else ReadBlocks(b[4..], 0, true)
  }

  method ReadFlacMetadata(b: Bytes) returns (r: Result<(seq<Block>, Bytes)>)
    ensures r == ReadMetadata(b)
  {
    hide GetBE, ReadBlocks, Prepend;
    if !StartsWith(b, MAGIC) {
      return Err(Malformed);
    }
    var rest := b[4..];
    var blocks: seq<Block> := [];
    var total: nat := 0;
    PrependNone(ReadBlocks(rest, 0, true));
    while true
      invariant ReadMetadata(b) == Prepend(blocks, ReadBlocks(rest, total, |blocks| == 0))
      decreases |rest|
    {
      ReadNext(blocks, rest, total, |blocks| == 0);
      if |rest| < 4 {
        return Err(Malformed);
      }
      var last, kind, n := rest[0] >= 128, rest[0] % 128, GetBE(rest[1..4]);
      if kind == 127 {
        return Err(Malformed);
      }
      total := total + n;
      if total > MAX_TAG_BYTES || |rest| - 4 < n {
        return Err(Malformed);
      }
      if |blocks| == 0 && (kind != STREAMINFO || n != 34) {
        return Err(Malformed);
      }
      blocks := blocks + [Block(kind, rest[4..4 + n])];
      rest := rest[4 + n..];
      if last {
        return Ok((blocks, rest));
      }
    }
  }

  ghost function Prepend(blocks: seq<Block>, r: Result<(seq<Block>, Bytes)>): Result<(seq<Block>, Bytes)> {
    if r.Err? then r else Ok((blocks + r.value.0, r.value.1))
  }

  lemma PrependNone(r: Result<(seq<Block>, Bytes)>)
    ensures Prepend([], r) == r
  {
    assert r.Ok? ==> [] + r.value.0 == r.value.0;
  }

  /** One turn of the loop. */
  lemma ReadNext(blocks: seq<Block>, b: Bytes, total: nat, first: bool)
    ensures Prepend(blocks, ReadBlocks(b, total, first)) ==
      match ReadBlock(b)
      case Err(_) => Err(Malformed)
      case Ok((block, last, rest)) =>
        if !Admitted(block, total, first) then Err(Malformed)
        else if last then Ok((blocks + [block], rest))
        else Prepend(blocks + [block], ReadBlocks(rest, total + |block.data|, false))
  {
    hide GetBE;
    if ReadBlock(b).Ok? {
      var (block, last, rest) := ReadBlock(b).value;
      if !last {
        var more := ReadBlocks(rest, total + |block.data|, false);
        assert more.Ok? ==> blocks + ([block] + more.value.0) == blocks + [block] + more.value.0;
      }
    }
  }

  /** The first comment block that parses, or an empty comment. */
  function CommentOf(blocks: seq<Block>): V.Comment {
    if blocks == [] then V.Comment(Ascii("rhythmo"), [])
    else if blocks[0].kind == VORBIS_COMMENT && V.Parse(blocks[0].data).Ok? then V.Parse(blocks[0].data).value.0
    else CommentOf(blocks[1..])
  }

  /** Audio must start with a frame sync code right after the metadata. */
  predicate StartsFrame(rest: Bytes) {
    |rest| >= 2 && rest[0] == 0xFF && (rest[1] == 0xF8 || rest[1] == 0xF9)
  }

  function Inspect(u: Unicode, src: Bytes): Result<Info> {
    var (blocks, frames) :- ReadMetadata(src);
    if StartsFrame(frames) then Ok(Info(V.Read(u, CommentOf(blocks)), frames)) else Err(Malformed)
  }

  // ----- Rewriting -----

  function PrintBlock(block: Block, last: bool): Bytes {
    [block.kind + (if last then 128 else 0)] + PutBE(|block.data|, 3) + block.data
  }

  function PrintBlocks(blocks: seq<Block>): Bytes {
    if blocks == [] then [] else PrintBlock(blocks[0], |blocks| == 1) + PrintBlocks(blocks[1..])
  }

  function Others(blocks: seq<Block>): seq<Block> {
    if blocks == [] then []
    else
      (if blocks[0].kind == PADDING || blocks[0].kind == VORBIS_COMMENT then [] else [blocks[0]]) + Others(blocks[1..])
  }

  /** The first block, the new comment, then every other block that is neither
      padding nor a comment. */
  function NewBlocks(blocks: seq<Block>, comment: V.Comment): seq<Block>
    requires blocks != []
  {
    [blocks[0], Block(VORBIS_COMMENT, V.Print(comment))] + Others(blocks[1..])
  }

  function RewriteBlocks(u: Unicode, blocks: seq<Block>, frames: Bytes, m: Metadata): Result<Bytes> {
    var comment := V.With(u, CommentOf(blocks), m);
    if blocks == [] || |V.Print(comment)| > MAX_BLOCK_BYTES || !StartsFrame(frames) then Err(Malformed)
    else Ok(MAGIC + PrintBlocks(NewBlocks(blocks, comment)) + frames)
  }

  function Rewrite(u: Unicode, src: Bytes, m: Metadata): Result<Bytes> {
    var (blocks, frames) :- ReadMetadata(src);
    RewriteBlocks(u, blocks, frames, m)
  }

  method RewriteFlac(u: Unicode, src: Bytes, m: Metadata) returns (r: Result<Bytes>)
    ensures r == Rewrite(u, src, m)
  {
    var read := ReadFlacMetadata(src);
    if read.Err? {
      return Err(read.error);
    }
    var (blocks, frames) := read.value;
    ReadIsWellFormed(src);
    var comment := V.ReplaceFields(u, CommentOf(blocks), m);
    var encoded := V.PrintComment(comment);
    if |encoded| > MAX_BLOCK_BYTES {
      return Err(Malformed);
    }
    var out := PlanBlocks(blocks, comment, encoded);
    var header := PrintHeader(out);
    if !StartsFrame(frames) {
      return Err(Malformed);
    }
    r := Ok(header + frames);
  }

  method PlanBlocks(blocks: seq<Block>, comment: V.Comment, encoded: Bytes) returns (out: seq<Block>)
    requires blocks != [] && encoded == V.Print(comment)
    ensures out == NewBlocks(blocks, comment)
  {
    out := [blocks[0], Block(VORBIS_COMMENT, encoded)];
    for i := 1 to |blocks|
      invariant out + Others(blocks[i..]) == NewBlocks(blocks, comment)
    {
      assert blocks[i..][1..] == blocks[i + 1..];
      if blocks[i].kind != PADDING && blocks[i].kind != VORBIS_COMMENT {
        out := out + [blocks[i]];
      }
    }
  }

  method PrintHeader(out: seq<Block>) returns (header: Bytes)
    ensures header == MAGIC + PrintBlocks(out)
  {
    header := MAGIC;
    for i := 0 to |out|
      invariant header + PrintBlocks(out[i..]) == MAGIC + PrintBlocks(out)
    {
      assert out[i..][1..] == out[i + 1..];
      var kind := out[i].kind as int;
      if i == |out| - 1 {
        kind := kind + 128;
      }
      header := header + ([kind] + PutBE(|out[i].data|, 3) + out[i].data);
    }
  }

  // ----- What a rewrite preserves -----

  ghost predicate WellFormed(blocks: seq<Block>) {
    && blocks != []
    && blocks[0].kind == STREAMINFO && |blocks[0].data| == 34
    && forall i :: 0 <= i < |blocks| ==> |blocks[i].data| < Pow256(3)
  }

  function Total(blocks: seq<Block>): nat {
    if blocks == [] then 0 else |blocks[0].data| + Total(blocks[1..])
  }

  lemma {:induction false} ReadBlocksAreSmall(b: Bytes, total: nat, first: bool)
    requires ReadBlocks(b, total, first).Ok?
    ensures var blocks := ReadBlocks(b, total, first).value.0;
      && blocks != []
      && (first ==> blocks[0].kind == STREAMINFO && |blocks[0].data| == 34)
      && forall i :: 0 <= i < |blocks| ==> |blocks[i].data| < Pow256(3)
    decreases |b|
  {
    var (block, last, rest) := ReadBlock(b).value;
    PutGetBE(b[1..4]);
    if !last {
      ReadBlocksAreSmall(rest, total + |block.data|, false);
    }
  }

  lemma ReadIsWellFormed(src: Bytes)
    requires ReadMetadata(src).Ok?
    ensures WellFormed(ReadMetadata(src).value.0)
  {
    ReadBlocksAreSmall(src[4..], 0, true);
  }

  lemma ReadPrintedBlock(block: Block, last: bool, tail: Bytes)
    requires |block.data| < Pow256(3)
    ensures ReadBlock(PrintBlock(block, last) + tail) == Ok((block, last, tail))
  {
    var b, n := PrintBlock(block, last) + tail, |block.data|;
    GetPutBE(n, 3);
    assert b[1..4] == PutBE(n, 3);
    assert b[4..4 + n] == block.data;
    assert b[4 + n..] == tail;
  }

  /** b starts with exactly these blocks, the last one marked, then rest. */
  predicate Holds(b: Bytes, blocks: seq<Block>, rest: Bytes)
    decreases |blocks|
  {
    && blocks != [] && ReadBlock(b).Ok?
    && var (block, last, tail) := ReadBlock(b).value;
    && block == blocks[0] && last == (|blocks| == 1)
    && if last then tail == rest else Holds(tail, blocks[1..], rest)
  }

  lemma {:induction false} PrintHolds(blocks: seq<Block>, rest: Bytes)
    requires blocks != [] && forall i :: 0 <= i < |blocks| ==> |blocks[i].data| < Pow256(3)
    ensures Holds(PrintBlocks(blocks) + rest, blocks, rest)
    decreases |blocks|
  {
    var tail := PrintBlocks(blocks[1..]) + rest;
    assert PrintBlocks(blocks) + rest == PrintBlock(blocks[0], |blocks| == 1) + tail;
    ReadPrintedBlock(blocks[0], |blocks| == 1, tail);
    if |blocks| == 1 {
      assert tail == rest;
    } else {
      PrintHolds(blocks[1..], rest);
    }
  }

  /** Such blocks are read, exactly while they stay within the limit. */
  lemma {:induction false} ReadBlocksHeld(b: Bytes, blocks: seq<Block>, total: nat, first: bool, rest: Bytes)
    requires Holds(b, blocks, rest) && total <= MAX_TAG_BYTES
    requires first ==> blocks[0].kind == STREAMINFO && |blocks[0].data| == 34
    ensures ReadBlocks(b, total, first) ==
      if total + Total(blocks) <= MAX_TAG_BYTES then Ok((blocks, rest)) else Err(Malformed)
    decreases |blocks|
  {
    var (block, last, tail) := ReadBlock(b).value;
    if last {
      assert blocks == [block];
    } else if total + |block.data| <= MAX_TAG_BYTES {
      ReadBlocksHeld(tail, blocks[1..], total + |block.data|, false, rest);
      assert [block] + blocks[1..] == blocks;
    }
  }

  lemma {:induction false} OthersTwice(blocks: seq<Block>)
    ensures Others(Others(blocks)) == Others(blocks)
    ensures forall i :: 0 <= i < |Others(blocks)| ==> Others(blocks)[i] in blocks
  {
    if blocks != [] {
      OthersTwice(blocks[1..]);
      var rest := Others(blocks[1..]);
      if blocks[0].kind == PADDING || blocks[0].kind == VORBIS_COMMENT {
        assert Others(blocks) == rest;
      } else {
        assert Others(blocks)[1..] == rest;
      }
    }
  }

  lemma PlannedIsSmall(blocks: seq<Block>, comment: V.Comment)
    requires WellFormed(blocks) && |V.Print(comment)| <= MAX_BLOCK_BYTES
    ensures WellFormed(NewBlocks(blocks, comment))
  {
    hide V.Print, Others;
    var planned := NewBlocks(blocks, comment);
    assert Pow256(3) == 0x100_0000;
    OthersTwice(blocks[1..]);
    forall i | 0 <= i < |planned|
      ensures |planned[i].data| < Pow256(3)
    {
      if i >= 2 {
        assert planned[i] == Others(blocks[1..])[i - 2];
      }
    }
  }

  lemma PrintedReads(planned: seq<Block>, frames: Bytes)
    requires WellFormed(planned)
    ensures ReadMetadata(MAGIC + PrintBlocks(planned) + frames) ==
      if Total(planned) <= MAX_TAG_BYTES then Ok((planned, frames)) else Err(Malformed)
  {
    hide PrintBlocks, ReadBlocks, Total;
    var out := MAGIC + PrintBlocks(planned) + frames;
    assert out[..4] == MAGIC && out[4..] == PrintBlocks(planned) + frames;
    PrintHolds(planned, frames);
    ReadBlocksHeld(out[4..], planned, 0, true, frames);
  }

  /** The rewritten file re-reads as the planned blocks followed by the same
      frames, exactly when the new metadata stays within the limit. */
  lemma RewrittenReads(u: Unicode, src: Bytes, m: Metadata)
    requires Rewrite(u, src, m).Ok?
    ensures var (blocks, frames) := ReadMetadata(src).value;
      var planned := NewBlocks(blocks, V.With(u, CommentOf(blocks), m));
      ReadMetadata(Rewrite(u, src, m).value) ==
        if Total(planned) <= MAX_TAG_BYTES then Ok((planned, frames)) else Err(Malformed)
  {
    var (blocks, frames) := ReadMetadata(src).value;
    hide V.With, V.Print, PrintBlocks, ReadBlocks, CommentOf, NewBlocks, ReadMetadata, Total;
    var comment := V.With(u, CommentOf(blocks), m);
    ReadIsWellFormed(src);
    PlannedIsSmall(blocks, comment);
    PrintedReads(NewBlocks(blocks, comment), frames);
  }

  /** The comment found in a rewritten file is the one that was written. */
  lemma RewrittenComment(blocks: seq<Block>, comment: V.Comment)
    requires WellFormed(blocks) && |V.Print(comment)| <= MAX_BLOCK_BYTES
    ensures CommentOf(NewBlocks(blocks, comment)) == comment
  {
    var planned := NewBlocks(blocks, comment);
    V.ShortPrintFits(comment);
    V.ParsePrinted(comment, []);
    assert V.Print(comment) + [] == V.Print(comment);
    assert planned[1..][0] == Block(VORBIS_COMMENT, V.Print(comment));
    assert CommentOf(planned[1..]) == comment;
  }

  predicate SmallEnough(u: Unicode, src: Bytes, m: Metadata)
    requires Rewrite(u, src, m).Ok?
  {
    var blocks := ReadMetadata(src).value.0;
    Total(NewBlocks(blocks, V.With(u, CommentOf(blocks), m))) <= MAX_TAG_BYTES
  }

  /** A rewritten file carries exactly the new metadata and the same audio, if
      and only if its metadata stays within the limit. */
  lemma RewriteKeepsAudio(u: Unicode, src: Bytes, m: Metadata)
    requires u.Agrees() && m.NumbersFit() && Rewrite(u, src, m).Ok?
    ensures Inspect(u, src).Ok?
    ensures Inspect(u, Rewrite(u, src, m).value) ==
      if SmallEnough(u, src, m) then Ok(Info(m, Inspect(u, src).value.payload)) else Err(Malformed)
  {
    var blocks := ReadMetadata(src).value.0;
    ReadIsWellFormed(src);
    RewrittenReads(u, src, m);
    RewrittenComment(blocks, V.With(u, CommentOf(blocks), m));
    V.WrittenIsRead(u, CommentOf(blocks), m);
  }

  lemma RewrittenBlocksCompose(u: Unicode, blocks: seq<Block>, frames: Bytes, m1: Metadata, m2: Metadata)
    requires u.Agrees() && WellFormed(blocks)
    requires |V.Print(V.With(u, CommentOf(blocks), m1))| <= MAX_BLOCK_BYTES
    ensures RewriteBlocks(u, NewBlocks(blocks, V.With(u, CommentOf(blocks), m1)), frames, m2) ==
      RewriteBlocks(u, blocks, frames, m2)
  {
    hide V.With, V.Print, PrintBlocks;
    var comment := V.With(u, CommentOf(blocks), m1);
    var planned := NewBlocks(blocks, comment);
    RewrittenComment(blocks, comment);
    V.WithTwice(u, CommentOf(blocks), m1, m2);
    OthersTwice(blocks[1..]);
    assert planned[1..][1..] == Others(blocks[1..]);
    assert Others(planned[1..]) == Others(blocks[1..]);
  }

  /** Rewriting twice gives byte for byte what the second rewrite alone gives,
      if and only if the intermediate file can be read back at all. */
  lemma RewritesCompose(u: Unicode, src: Bytes, m1: Metadata, m2: Metadata)
    requires u.Agrees() && Rewrite(u, src, m1).Ok?
    ensures Rewrite(u, Rewrite(u, src, m1).value, m2) ==
      if SmallEnough(u, src, m1) then Rewrite(u, src, m2) else Err(Malformed)
  {
    var (blocks, frames) := ReadMetadata(src).value;
    ReadIsWellFormed(src);
    RewrittenReads(u, src, m1);
    RewrittenBlocksCompose(u, blocks, frames, m1, m2);
  }

  // ----- Which files are accepted, and which blocks survive -----

  /** The layout of section 6 of RFC 9639, within the limit on metadata: the
      marker, a stream info block of 34 bytes, any other blocks, and a frame's
      sync code right after the last one. */
  ghost predicate IsFlac(b: Bytes, blocks: seq<Block>, frames: Bytes) {
    && b == [0x66, 0x4C, 0x61, 0x43] + PrintBlocks(blocks) + frames
    && blocks != [] && blocks[0].kind == 0 && |blocks[0].data| == 34
    && (forall i :: 0 <= i < |blocks| ==> |blocks[i].data| < 0x100_0000)
    && Total(blocks) <= 0x100_0000
    && |frames| >= 2 && frames[0] == 0xFF && frames[1] / 2 == 0x7C
  }

  lemma {:induction false} ReadBlocksIsPrinted(b: Bytes, total: nat, first: bool)
    requires ReadBlocks(b, total, first).Ok?
    ensures var (blocks, rest) := ReadBlocks(b, total, first).value;
      blocks != [] && b == PrintBlocks(blocks) + rest && total + Total(blocks) <= MAX_TAG_BYTES
    decreases |b|
  {
    hide GetBE, PutBE;
    var (block, last, rest) := ReadBlock(b).value;
    ReadBlockIsPrinted(b);
    if last {
      assert [block][1..] == [];
      assert PrintBlocks([block]) == PrintBlock(block, true) + [];
      assert PrintBlock(block, true) + [] == PrintBlock(block, true);
    } else {
      ReadBlocksIsPrinted(rest, total + |block.data|, false);
      var (blocks, end) := ReadBlocks(rest, total + |block.data|, false).value;
      var all := [block] + blocks;
      assert all[1..] == blocks;
      assert PrintBlocks(all) == PrintBlock(block, false) + PrintBlocks(blocks);
      Regroup(PrintBlock(block, false), PrintBlocks(blocks), end);
    }
  }

  lemma ReadBlockIsPrinted(b: Bytes)
    requires ReadBlock(b).Ok?
    ensures var (block, last, rest) := ReadBlock(b).value; b == PrintBlock(block, last) + rest
  {
    hide GetBE, PutBE;
    PutGetBE(b[1..4]);
    var (block, last, rest) := ReadBlock(b).value;
    assert b == [b[0]] + b[1..4] + b[4..4 + |block.data|] + rest;
  }

  lemma ReadIsPrinted(src: Bytes)
    requires ReadMetadata(src).Ok?
    ensures var (blocks, frames) := ReadMetadata(src).value;
      src == MAGIC + PrintBlocks(blocks) + frames && Total(blocks) <= MAX_TAG_BYTES && WellFormed(blocks)
  {
    hide ReadBlocks, PrintBlocks, Total, WellFormed;
    ReadIsWellFormed(src);
    ReadBlocksIsPrinted(src[4..], 0, true);
    assert src == MAGIC + src[4..];
  }

  /** Exactly these files are accepted, what is found in them is their first
      comment and their frames, and they can be rewritten while the new comment
      fits a block. Everything else is malformed. */
  lemma AcceptedIff(u: Unicode, b: Bytes, m: Metadata)
    ensures Inspect(u, b).Ok? <==> exists blocks, frames :: IsFlac(b, blocks, frames)
    ensures forall blocks, frames :: IsFlac(b, blocks, frames) ==>
      ReadMetadata(b) == Ok((blocks, frames)) && Inspect(u, b) == Ok(Info(V.Read(u, CommentOf(blocks)), frames))
    ensures Rewrite(u, b, m).Ok? <==>
      exists blocks, frames :: IsFlac(b, blocks, frames) && |V.Print(V.With(u, CommentOf(blocks), m))| < 0x100_0000
    ensures Inspect(u, b).Err? ==> Inspect(u, b) == Err(Malformed) && Rewrite(u, b, m) == Err(Malformed)
  {
    hide PrintBlocks, ReadBlocks, Total, V.Read, V.With, V.Print, CommentOf;
    assert Pow256(3) == 0x100_0000 && MAGIC == [0x66, 0x4C, 0x61, 0x43];
    forall blocks, frames | IsFlac(b, blocks, frames)
      ensures ReadMetadata(b) == Ok((blocks, frames)) && StartsFrame(frames)
    {
      PrintedReads(blocks, frames);
    }
    if ReadMetadata(b).Ok? {
      ReadIsPrinted(b);
      var (blocks, frames) := ReadMetadata(b).value;
      assert StartsFrame(frames) ==> IsFlac(b, blocks, frames);
    } else {
      ReadErrs(b);
    }
  }

  lemma ReadErrs(b: Bytes)
    requires ReadMetadata(b).Err?
    ensures ReadMetadata(b) == Err(Malformed)
  {
    if StartsWith(b, MAGIC) {
      BlocksErr(b[4..], 0, true);
    }
  }

  lemma {:induction false} BlocksErr(b: Bytes, total: nat, first: bool)
    requires ReadBlocks(b, total, first).Err?
    ensures ReadBlocks(b, total, first) == Err(Malformed)
    decreases |b|
  {
    if ReadBlock(b).Ok? {
      var (block, last, rest) := ReadBlock(b).value;
      if Admitted(block, total, first) && !last {
        BlocksErr(rest, total + |block.data|, false);
      }
    }
  }

  /** What is found is the first comment block that parses, whatever other
      blocks there are; without one, an empty comment of the program's own. */
  lemma {:induction false} CommentIsFirst(blocks: seq<Block>, i: nat)
    requires i <= |blocks|
    requires forall j :: 0 <= j < i ==> blocks[j].kind == 4 ==> V.Parse(blocks[j].data).Err?
    ensures if i == |blocks| then CommentOf(blocks) == V.Comment([0x72, 0x68, 0x79, 0x74, 0x68, 0x6D, 0x6F], [])
      else blocks[i].kind == 4 && V.Parse(blocks[i].data).Ok? ==> CommentOf(blocks) == V.Parse(blocks[i].data).value.0
  {
    hide V.Parse;
    if i > 0 {
      CommentIsFirst(blocks[1..], i - 1);
    }
  }

  /** Neither padding nor a comment, by the type numbers of section 8 of
      RFC 9639. */
  predicate Stays(block: Block) {
    block.kind != 1 && block.kind != 4
  }

  /** What a rewrite makes of the blocks: the first one as it was, one comment,
      and every other block that is neither padding nor a comment, unchanged
      and in order. */
  ghost predicate Replaced(before: seq<Block>, after: seq<Block>, text: Bytes) {
    && before != [] && |after| >= 2 && after[0] == before[0] && after[1] == Block(4, text)
    && IsFilter(before[1..], Stays, after[2..])
    && forall i :: 2 <= i < |after| ==> Stays(after[i])
  }

  lemma {:induction false} OthersAreFiltered(blocks: seq<Block>)
    ensures IsFilter(blocks, Stays, Others(blocks))
  {
    if blocks == [] {
      FilterNone<Block>(Stays);
    } else {
      OthersAreFiltered(blocks[1..]);
      FilterMore(blocks[0], blocks[1..], Stays, Others(blocks[1..]));
      assert [blocks[0]] + blocks[1..] == blocks;
    }
  }

  lemma PlannedIsReplaced(blocks: seq<Block>, comment: V.Comment)
    requires blocks != []
    ensures Replaced(blocks, NewBlocks(blocks, comment), V.Print(comment))
  {
    hide V.Print, IsFilter;
    var after := NewBlocks(blocks, comment);
    OthersAreFiltered(blocks[1..]);
    FilterHolds(blocks[1..], Stays, Others(blocks[1..]));
    assert after[2..] == Others(blocks[1..]);
    forall i | 2 <= i < |after|
      ensures Stays(after[i])
    {
      assert after[i] == after[2..][i - 2] && after[i] in Others(blocks[1..]);
    }
  }

  /** Cover art, seek tables, cue sheets and everything else survive a rewrite:
      seen on the bytes written, and on what a reader finds in them. */
  lemma RewriteKeepsBlocks(u: Unicode, src: Bytes, m: Metadata)
    requires Rewrite(u, src, m).Ok?
    ensures var (before, frames) := ReadMetadata(src).value; var text := V.Print(V.With(u, CommentOf(before), m));
      exists after :: Replaced(before, after, text)
        && Rewrite(u, src, m).value == [0x66, 0x4C, 0x61, 0x43] + PrintBlocks(after) + frames
        && (Total(after) <= 0x100_0000 ==> ReadMetadata(Rewrite(u, src, m).value) == Ok((after, frames)))
  {
    hide V.Print, V.With, CommentOf, PrintBlocks, Total, Replaced, ReadBlocks;
    assert MAGIC == [0x66, 0x4C, 0x61, 0x43];
    var before := ReadMetadata(src).value.0;
    ReadIsWellFormed(src);
    PlannedIsReplaced(before, V.With(u, CommentOf(before), m));
    RewrittenReads(u, src, m);
  }
}

/** A single Ogg Vorbis or Opus stream: reading its header packets, and
    replacing the comment packet while every later page keeps its contents
    and moves only its sequence number. */
module OggStreams {
  import opened ByteOrder
  import opened TagText
  import opened OggPages
  import opened OggPagination
  import OggCrc
  import V = VorbisComments

  /** What precedes the audio. `trailing` follows the comment in its packet,
      `setup` is the Vorbis setup packet, `pages` counts the header pages. */
  datatype Headers = Headers(
    first: Page, opus: bool, comment: V.Comment, trailing: Bytes, setup: Bytes, pages: nat)

  const OPUS_HEAD: Bytes := Ascii("OpusHead")
  const OPUS_TAGS: Bytes := Ascii("OpusTags")
  const VORBIS_ID: Bytes := [1] + Ascii("vorbis")
  const VORBIS_COMMENT: Bytes := [3] + Ascii("vorbis")
  const VORBIS_SETUP: Bytes := [5] + Ascii("vorbis")

  function CommentMagic(opus: bool): Bytes {
    if opus then OPUS_TAGS else VORBIS_COMMENT
  }

  function Wanted(opus: bool): nat {
    if opus then 1 else 2
  }

  // ----- Gathering header packets -----

  /** Finished packets, the one being read, and the bytes read so far. */
  datatype Gather = Gather(packets: seq<Bytes>, current: Bytes, size: nat)

  /** Once the last wanted packet is complete, no other has been begun. */
  predicate Gathering(g: Gather, want: nat) {
    |g.packets| <= want && (|g.packets| == want ==> g.current == [])
  }

  /** Adds one segment. */
  function TakeSegment(segment: Bytes, g: Gather, want: nat): (r: Result<Gather>)
    requires |segment| <= 255 && Gathering(g, want)
    ensures r.Ok? ==> Gathering(r.value, want)
  {
    if |g.packets| == want then Err(Unsupported)
    else if g.size + |segment| > MAX_TAG_BYTES then Err(Malformed)
    else if |segment| < 255 then Ok(Gather(g.packets + [g.current + segment], [], g.size + |segment|))
    else Ok(Gather(g.packets, g.current + segment, g.size + |segment|))
  }

  function TakeSegments(laces: Bytes, data: Bytes, g: Gather, want: nat): (r: Result<Gather>)
    requires |data| == Sum(laces) && Gathering(g, want)
    ensures r.Ok? ==> Gathering(r.value, want)
    decreases |laces|
  {
    if laces == [] then Ok(g)
    else
      var next :- TakeSegment(data[..laces[0]], g, want);
      TakeSegments(laces[1..], data[laces[0]..], next, want)
  }

  /** Reads pages of the stream until the wanted packets are complete. */
  function ReadPackets(b: Bytes, serial: nat, want: nat, g: Gather, pages: nat): (r: Result<(Gather, nat, Bytes)>)
    requires Gathering(g, want)
    ensures r.Ok? ==> |r.value.0.packets| == want && r.value.0.current == []
    decreases |b|
  {
    if |g.packets| == want then Ok((g, pages, b))
    else
      match ReadPage(b)
      case Eof => Err(Malformed)
      case Bad => Err(Malformed)
      case Read(page, rest) =>
        if page.serial != serial || page.IsBos() then Err(Unsupported)
        else
          var next :- TakeSegments(page.segments, page.data, g, want);
          ReadPackets(rest, serial, want, next, pages + 1)
  }

  /** Whether a page can be the identification header, and of which codec. */
  function Identify(first: Page): Result<bool> {
    if !first.IsBos() || first.segments == [] || first.segments[|first.segments| - 1] == 255 then Err(Malformed)
    else if !StartsWith(first.data, OPUS_HEAD) && !StartsWith(first.data, VORBIS_ID) then Err(Unsupported)
    else if |first.segments| != 1 + |first.data| / 255 then Err(Unsupported)
    else Ok(StartsWith(first.data, OPUS_HEAD))
  }

  /** The headers made of an identification page and the gathered packets. */
  function Interpret(first: Page, opus: bool, g: Gather, pages: nat): (r: Result<Headers>)
    requires |g.packets| == Wanted(opus)
    ensures r.Ok? ==> r.value.first == first && r.value.opus == opus && r.value.pages == pages
  {
    var magic := CommentMagic(opus);
    if g.current != [] then Err(Unsupported)
    else if !opus && !StartsWith(g.packets[1], VORBIS_SETUP) then Err(Malformed)
    else if !StartsWith(g.packets[0], magic) then Err(Malformed)
    else
      var (comment, trailing) :- V.Parse(g.packets[0][|magic|..]);
      Ok(Headers(first, opus, comment, trailing, if opus then [] else g.packets[1], pages))
  }

  /** The headers of a stream and the bytes of its audio pages. */
  function ReadHeaders(src: Bytes): Result<(Headers, Bytes)> {
    match ReadPage(src)
    case Eof => Err(Malformed)
    case Bad => Err(Malformed)
    case Read(first, rest) =>
      var opus :- Identify(first);
      var (g, pages, audio) :- ReadPackets(rest, first.serial, Wanted(opus), Gather([], [], 0), 1);
      var headers :- Interpret(first, opus, g, pages);
      Ok((headers, audio))
  }

  // ----- Audio pages -----

  function AudioPages(b: Bytes): Result<seq<Page>>
    decreases |b|
  {
    match ReadPage(b)
    case Eof => Ok([])
    case Bad => Err(Malformed)
    case Read(page, rest) =>
      var pages :- AudioPages(rest);
      Ok([page] + pages)
  }

  function ShiftPage(page: Page, serial: nat, shift: int): Page {
    if page.serial == serial && shift != 0 then page.(sequence := (page.sequence + shift) % 0x1_0000_0000) else page
  }

  function ShiftAll(pages: seq<Page>, serial: nat, shift: int): seq<Page> {
    if pages == [] then [] else [ShiftPage(pages[0], serial, shift)] + ShiftAll(pages[1..], serial, shift)
  }

  function PrintAll(pages: seq<Page>): Bytes {
    if pages == [] then [] else Print(pages[0]) + PrintAll(pages[1..])
  }

  /** What is fingerprinted: every audio page's segment table and data. */
  function Payload(pages: seq<Page>): Bytes {
    if pages == [] then [] else pages[0].segments + pages[0].data + Payload(pages[1..])
  }

  function Inspect(u: Unicode, src: Bytes): Result<Info> {
    var (headers, audio) :- ReadHeaders(src);
    var pages :- AudioPages(audio);
    Ok(Info(V.Read(u, headers.comment), Payload(pages)))
  }

  // ----- Rewriting -----

  function HeaderPackets(h: Headers, comment: V.Comment): seq<Bytes> {
    [CommentMagic(h.opus) + V.Print(comment) + h.trailing] + (if h.opus then [] else [h.setup])
  }

  function HeaderPages(h: Headers, comment: V.Comment): seq<Page> {
    Pages(HeaderPackets(h, comment), h.first.serial, 1)
  }

  function RewriteParts(h: Headers, comment: V.Comment, audio: seq<Page>): Bytes {
    var pages := HeaderPages(h, comment);
    Print(h.first) + PrintAll(pages) + PrintAll(ShiftAll(audio, h.first.serial, |pages| + 1 - h.pages))
  }

  function RewriteAfter(u: Unicode, h: Headers, rest: Bytes, m: Metadata): Result<Bytes> {
    var audio :- AudioPages(rest);
    Ok(RewriteParts(h, V.With(u, h.comment, m), audio))
  }

  function Rewrite(u: Unicode, src: Bytes, m: Metadata): Result<Bytes> {
    var (headers, rest) :- ReadHeaders(src);
    RewriteAfter(u, headers, rest, m)
  }

  // ----- The loops -----

  method TakePage(page: Page, g: Gather, want: nat) returns (r: Result<Gather>)
    requires page.WellFormed() && Gathering(g, want)
    ensures r == TakeSegments(page.segments, page.data, g, want)
  {
    var next := g;
    var offset := 0;
    for i := 0 to |page.segments|
      invariant offset + Sum(page.segments[i..]) == |page.data| && Gathering(next, want)
      invariant TakeSegments(page.segments[i..], page.data[offset..], next, want) ==
        TakeSegments(page.segments, page.data, g, want)
    {
      var lace: nat := page.segments[i];
      assert page.segments[i..][1..] == page.segments[i + 1..];
      assert page.data[offset..][..lace] == page.data[offset..offset + lace];
      assert page.data[offset..][lace..] == page.data[offset + lace..];
      if |next.packets| == want {
        return Err(Unsupported);
      }
      var current := next.current + page.data[offset..offset + lace];
      offset := offset + lace;
      var size := next.size + lace;
      if size > MAX_TAG_BYTES {
        return Err(Malformed);
      }
      if lace < 255 {
        next := Gather(next.packets + [current], [], size);
      } else {
        next := Gather(next.packets, current, size);
      }
    }
    r := Ok(next);
  }

  method ReadOggHeaders(table: array<OggCrc.Word>, src: Bytes) returns (r: Result<(Headers, Bytes)>)
    requires OggCrc.IsTable(table)
    ensures r == ReadHeaders(src)
  {
    var read := ReadOggPage(table, src);
    if !read.Read? {
      return Err(Malformed);
    }
    var first, rest := read.page, read.rest;
    var opus := Identify(first);
    if opus.Err? {
      return Err(opus.error);
    }
    var want := Wanted(opus.value);
    var g := Gather([], [], 0);
    var pages := 1;
    ghost var expected := ReadPackets(rest, first.serial, want, g, 1);
    while |g.packets| < want
      invariant Gathering(g, want) && ReadPackets(rest, first.serial, want, g, pages) == expected
      decreases |rest|
    {
      var next := ReadOggPage(table, rest);
      if !next.Read? {
        return Err(Malformed);
      }
      if next.page.serial != first.serial || next.page.IsBos() {
        return Err(Unsupported);
      }
      ReadIsPrinted(rest);
      var taken := TakePage(next.page, g, want);
      if taken.Err? {
        return Err(taken.error);
      }
      g, rest, pages := taken.value, next.rest, pages + 1;
    }
    var headers := Interpret(first, opus.value, g, pages);
    if headers.Err? {
      return Err(headers.error);
    }
    r := Ok((headers.value, rest));
  }

  method CopyOggAudio(table: array<OggCrc.Word>, src: Bytes, serial: nat, shift: int)
    returns (r: Result<(Bytes, Bytes)>)
    requires OggCrc.IsTable(table)
    ensures r == Copied([], AudioPages(src), serial, shift)
  {
    hide ReadPage, Print;
    var out, payload: Bytes, rest := [], [], src;
    ghost var done: seq<Page> := [];
    while true
      invariant Copied(done, AudioPages(rest), serial, shift) == Copied([], AudioPages(src), serial, shift)
      invariant out == PrintAll(ShiftAll(done, serial, shift)) && payload == Payload(done)
      decreases |rest|
    {
      var read := ReadOggPage(table, rest);
      if read.Eof? {
        assert done + [] == done;
        return Ok((out, payload));
      }
      if read.Bad? {
        return Err(Malformed);
      }
      var page := read.page;
      if page.serial == serial && shift != 0 {
        page := page.(sequence := (page.sequence + shift) % 0x1_0000_0000);
      }
      payload := payload + page.segments + page.data;
      var printed := PrintPage(table, page);
      out := out + printed;
      AppendPage(done, read.page, serial, shift);
      MovePage(done, read.page, AudioPages(read.rest), serial, shift);
      done, rest := done + [read.page], read.rest;
    }
  }

  /** The copy and the fingerprint once `done` has been copied. */
  function Copied(done: seq<Page>, later: Result<seq<Page>>, serial: nat, shift: int): Result<(Bytes, Bytes)> {
    match later
    case Err(e) => Err(e)
    case Ok(pages) => Ok((PrintAll(ShiftAll(done + pages, serial, shift)), Payload(done + pages)))
  }

  lemma MovePage(done: seq<Page>, page: Page, later: Result<seq<Page>>, serial: nat, shift: int)
    ensures Copied(done + [page], later, serial, shift) ==
      Copied(done, if later.Ok? then Ok([page] + later.value) else later, serial, shift)
  {
    if later.Ok? {
      assert done + [page] + later.value == done + ([page] + later.value);
    }
  }

  lemma {:induction false} PrintAllAppend(a: seq<Page>, b: seq<Page>)
    ensures PrintAll(a + b) == PrintAll(a) + PrintAll(b)
  {
    if a == [] {
      assert a + b == b;
    } else {
      assert (a + b)[1..] == a[1..] + b;
      PrintAllAppend(a[1..], b);
    }
  }

  lemma {:induction false} ShiftAllAt(pages: seq<Page>, serial: nat, shift: int)
    ensures |ShiftAll(pages, serial, shift)| == |pages|
    ensures forall i :: 0 <= i < |pages| ==> ShiftAll(pages, serial, shift)[i] == ShiftPage(pages[i], serial, shift)
  {
    if pages != [] {
      ShiftAllAt(pages[1..], serial, shift);
    }
  }

  lemma {:induction false} PayloadAppend(a: seq<Page>, b: seq<Page>)
    ensures Payload(a + b) == Payload(a) + Payload(b)
  {
    if a == [] {
      assert a + b == b;
    } else {
      assert (a + b)[1..] == a[1..] + b;
      PayloadAppend(a[1..], b);
    }
  }

  lemma AppendPage(pages: seq<Page>, page: Page, serial: nat, shift: int)
    ensures PrintAll(ShiftAll(pages + [page], serial, shift)) ==
      PrintAll(ShiftAll(pages, serial, shift)) + Print(ShiftPage(page, serial, shift))
    ensures Payload(pages + [page]) == Payload(pages) + page.segments + page.data
  {
    var shifted := ShiftPage(page, serial, shift);
    ShiftAllAt(pages, serial, shift);
    ShiftAllAt(pages + [page], serial, shift);
    assert ShiftAll(pages + [page], serial, shift) == ShiftAll(pages, serial, shift) + [shifted];
    PrintAllAppend(ShiftAll(pages, serial, shift), [shifted]);
    assert PrintAll([shifted]) == Print(shifted);
    PayloadAppend(pages, [page]);
    assert Payload([page]) == page.segments + page.data;
  }

  lemma PrintAllEnd(pages: seq<Page>)
    ensures PrintAll(pages[|pages|..]) == []
  {
  }

  lemma PrintAllAt(pages: seq<Page>, i: nat)
    requires i < |pages|
    ensures PrintAll(pages[i..]) == Print(pages[i]) + PrintAll(pages[i + 1..])
  {
    hide Print;
    assert pages[i..][1..] == pages[i + 1..];
  }

  method PrintHeaderPages(table: array<OggCrc.Word>, first: Page, pages: seq<Page>) returns (out: Bytes)
    requires OggCrc.IsTable(table)
    ensures out == Print(first) + PrintAll(pages)
  {
    hide Print, PrintAll, OggCrc.IsTable;
    out := PrintPage(table, first);
    assert pages[0..] == pages;
    for i := 0 to |pages|
      invariant out + PrintAll(pages[i..]) == Print(first) + PrintAll(pages)
    {
      PrintAllAt(pages, i);
      var printed := PrintPage(table, pages[i]);
      Regroup(out, printed, PrintAll(pages[i + 1..]));
      out := out + printed;
    }
    PrintAllEnd(pages);
    assert out + [] == out;
  }

  method RewriteAfterHeaders(table: array<OggCrc.Word>, u: Unicode, h: Headers, rest: Bytes, m: Metadata)
    returns (r: Result<Bytes>)
    requires OggCrc.IsTable(table)
    ensures r == RewriteAfter(u, h, rest, m)
  {
    hide Print, ReadPage, AudioPages, PrintAll, ShiftAll, Payload, Pages, V.Print, V.With, CommentMagic, OggCrc.IsTable;
    var comment := V.ReplaceFields(u, h.comment, m);
    var printed := V.PrintComment(comment);
    var packets := [CommentMagic(h.opus) + printed + h.trailing];
    if !h.opus {
      packets := packets + [h.setup];
    }
    assert packets == HeaderPackets(h, comment);
    var pages := Paginate(packets, h.first.serial, 1);
    var out := PrintHeaderPages(table, h.first, pages);
    var copied := CopyOggAudio(table, rest, h.first.serial, |pages| + 1 - h.pages);
    if copied.Err? {
      return Err(copied.error);
    }
    assert [] + AudioPages(rest).value == AudioPages(rest).value;
    r := Ok(out + copied.value.0);
  }

  method RewriteOgg(table: array<OggCrc.Word>, u: Unicode, src: Bytes, m: Metadata) returns (r: Result<Bytes>)
    requires OggCrc.IsTable(table)
    ensures r == Rewrite(u, src, m)
  {
    var read := ReadOggHeaders(table, src);
    if read.Err? {
      return Err(read.error);
    }
    var (h, rest) := read.value;
    r := RewriteAfterHeaders(table, u, h, rest, m);
  }
}

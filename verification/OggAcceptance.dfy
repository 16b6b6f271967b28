/** Which Ogg streams are read, in which way the others are refused, and what
    is found in those that are: stated on the pages and packets of a stream. */
module OggAcceptance {
  import opened ByteOrder
  import opened TagText
  import opened OggPages
  import opened OggPagination
  import opened OggStreams
  import opened OggMeaning
  import V = VorbisComments

  // ----- Streams, by their bytes -----

  /** A stream up to its audio. The comment packet ends in `trailing`; a Vorbis
      stream has a setup packet after it. */
  datatype Stream = Stream(first: Page, opus: bool, comment: V.Comment, trailing: Bytes, setup: Bytes, header: seq<Page>)

  // "OpusHead" and "OpusTags" of section 5 of RFC 7845; a type byte and
  // "vorbis" of section 4.2.1 of the Vorbis I specification.
  const OPUS_ID: Bytes := [0x4F, 0x70, 0x75, 0x73, 0x48, 0x65, 0x61, 0x64]
  const OPUS_COMMENT: Bytes := [0x4F, 0x70, 0x75, 0x73, 0x54, 0x61, 0x67, 0x73]
  const VORBIS_NAME: Bytes := [0x76, 0x6F, 0x72, 0x62, 0x69, 0x73]

  function PacketsOf(s: Stream): seq<Bytes> {
    if s.opus then [OPUS_COMMENT + V.Print(s.comment) + s.trailing]
    else [[3] + VORBIS_NAME + V.Print(s.comment) + s.trailing, s.setup]
  }

  predicate BeginsStream(page: Page) {
    page.flags / 2 % 2 == 1
  }

  /** A first page that ends its last packet and has as many segments as one
      packet of that length. */
  predicate OnePacket(page: Page) {
    page.segments != [] && page.segments[|page.segments| - 1] < 255 && |page.segments| == 1 + |page.data| / 255
  }

  predicate Identifies(page: Page, opus: bool) {
    && page.WellFormed() && BeginsStream(page) && OnePacket(page)
    && StartsWith(page.data, if opus then OPUS_ID else [1] + VORBIS_NAME)
  }

  /** Pages of one stream after its first. */
  ghost predicate Ordinary(pages: seq<Page>, serial: nat) {
    AllWellFormed(pages) && forall i :: 0 <= i < |pages| ==> pages[i].serial == serial && !BeginsStream(pages[i])
  }

  /** The pages hold exactly these packets, however they are cut into pages,
      and the last page has a part of them. */
  ghost predicate Spreads(pages: seq<Page>, packets: seq<Bytes>, serial: nat) {
    && Ordinary(pages, serial)
    && AllLaces(pages) == LacingAll(packets) && AllData(pages) == Join(packets)
    && pages != [] && pages[|pages| - 1].segments != []
  }

  /** src is this stream, and `rest` is where its audio begins. */
  ghost predicate IsStream(s: Stream, src: Bytes, rest: Bytes) {
    && Identifies(s.first, s.opus)
    && (if s.opus then s.setup == [] else StartsWith(s.setup, [5] + VORBIS_NAME))
    && Spreads(s.header, PacketsOf(s), s.first.serial)
    && |Join(PacketsOf(s))| <= 0x100_0000
    && src == Print(s.first) + PrintAll(s.header) + rest
  }

  // ----- Gathering packets from any pages -----

  lemma {:induction false} LacesFill(pages: seq<Page>)
    requires AllWellFormed(pages)
    ensures Sum(AllLaces(pages)) == |AllData(pages)|
  {
    if pages != [] {
      LacesFill(pages[1..]);
      SumAppend(pages[0].segments, AllLaces(pages[1..]));
    }
  }

  lemma {:induction false} LacesAppend(a: seq<Page>, b: seq<Page>)
    ensures AllLaces(a + b) == AllLaces(a) + AllLaces(b) && AllData(a + b) == AllData(a) + AllData(b)
  {
    if a == [] {
      assert a + b == b;
    } else {
      assert (a + b)[1..] == a[1..] + b;
      LacesAppend(a[1..], b);
    }
  }

  /** The packets are not complete before the last page. */
  ghost predicate GoesOn(pages: seq<Page>, found: nat, want: nat) {
    pages != [] ==> found + Ends(AllLaces(pages[..|pages| - 1])) < want
  }

  lemma GoesOnAfter(pages: seq<Page>, found: nat, want: nat)
    requires pages != [] && GoesOn(pages, found, want)
    ensures found < want && GoesOn(pages[1..], found + Ends(pages[0].segments), want)
  {
    hide Ends, AllLaces;
    if |pages| > 1 {
      var init := pages[..|pages| - 1];
      assert init == [pages[0]] + pages[1..][..|pages| - 2];
      LacesAppend([pages[0]], pages[1..][..|pages| - 2]);
      OnePage(pages[0]);
      EndsAppend(pages[0].segments, AllLaces(pages[1..][..|pages| - 2]));
    }
  }

  lemma OnePage(page: Page)
    ensures AllLaces([page]) == page.segments && AllData([page]) == page.data
  {
    assert page.segments + [] == page.segments && page.data + [] == page.data;
  }

  lemma {:induction false} GatherPages(b: Bytes, pages: seq<Page>, rest: Bytes, serial: nat, want: nat, g: Gather, n: nat)
    requires Holds(b, pages, rest) && Ordinary(pages, serial) && Gathering(g, want) && GoesOn(pages, |g.packets|, want)
    ensures Sum(AllLaces(pages)) == |AllData(pages)|
    ensures ReadPackets(b, serial, want, g, n) ==
      match TakeSegments(AllLaces(pages), AllData(pages), g, want)
      case Err(e) => Err(e)
      case Ok(all) => ReadPackets(rest, serial, want, all, n + |pages|)
    decreases |pages|
  {
    hide ReadPage, ReadPackets, TakeSegments, Ends, GoesOn;
    LacesFill(pages);
    if pages == [] {
      TakeNone(g, want);
    } else {
      var page, later := pages[0], pages[1..];
      GoesOnAfter(pages, |g.packets|, want);
      ReadOnePage(b, serial, want, g, n);
      LacesFill(later);
      TakeAppend(page.segments, page.data, AllLaces(later), AllData(later), g, want);
      var next := TakeSegments(page.segments, page.data, g, want);
      if next.Ok? {
        TakeCounts(page.segments, page.data, g, want);
        GatherPages(ReadPage(b).rest, later, rest, serial, want, next.value, n + 1);
      }
    }
  }

  lemma TakeNone(g: Gather, want: nat)
    requires Gathering(g, want)
    ensures TakeSegments([], [], g, want) == Ok(g)
  {
  }

  // ----- Reading a stream -----

  lemma Literals()
    ensures OPUS_HEAD == OPUS_ID && OPUS_TAGS == OPUS_COMMENT
    ensures VORBIS_ID == [1] + VORBIS_NAME && VORBIS_COMMENT == [3] + VORBIS_NAME && VORBIS_SETUP == [5] + VORBIS_NAME
  {
  }

  lemma IdentifyIs(page: Page)
    requires page.WellFormed()
    ensures Identify(page) ==
      if !BeginsStream(page) || page.segments == [] || page.segments[|page.segments| - 1] == 255 then Err(Malformed)
      else if Identifies(page, true) then Ok(true)
      else if Identifies(page, false) then Ok(false)
      else Err(Unsupported)
  {
    Literals();
    OneCodec(page.data);
  }

  lemma OneCodec(data: Bytes)
    ensures !StartsWith(data, OPUS_ID) || !StartsWith(data, [1] + VORBIS_NAME)
  {
    assert StartsWith(data, OPUS_ID) ==> data[0] == data[..8][0] == 0x4F;
    assert StartsWith(data, [1] + VORBIS_NAME) ==> data[0] == data[..7][0] == 1;
  }

  /** A page that starts its stream and whose one packet fills its lacing. */
  lemma {:induction false} LacedIsOnePacket(packet: Bytes)
    ensures var laces := Lacing(packet);
      laces != [] && laces[|laces| - 1] < 255 && |laces| == 1 + |packet| / 255
    decreases |packet|
  {
    if |packet| >= 255 {
      LacedIsOnePacket(packet[255..]);
    }
  }

  // ----- How the one identification packet is recognised -----

  /** Each lacing value that ends a packet is at least one short of 255. */
  lemma {:induction false} EndsFallShort(laces: Bytes)
    ensures Sum(laces) + Ends(laces) <= 255 * |laces|
  {
    if laces != [] {
      EndsFallShort(laces[1..]);
    }
  }

  /** A page of two packets with as many segments as one of that length. */
  lemma TwoPacketsPass(n: nat) returns (page: Page)
    requires 255 <= n < 255 * 255 && n % 255 != 254
    ensures page.WellFormed() && OnePacket(page) && |page.data| == n && Ends(page.segments) == 2
  {
    var first, second := Lacing(Fulls(n - n % 255 - 1)), [n % 255 + 1];
    page := Page(BOS, 0, 0, 0, first + second, Fulls(n));
    LacedIsOnePacket(Fulls(n - n % 255 - 1));
    LacingEnds(Fulls(n - n % 255 - 1));
    SumOfLacing(Fulls(n - n % 255 - 1));
    SumAppend(first, second);
    EndsAppend(first, second);
    assert second[1..] == [];
  }

  /** Counting segments tells one packet from several exactly at these lengths
      of a page's data. Identification packets are far below 255 bytes, and no
      page has 255 * 255. */
  lemma SegmentCountIsExactIff(n: nat)
    ensures (forall page: Page :: page.WellFormed() && OnePacket(page) && |page.data| == n ==> Ends(page.segments) == 1)
      <==> n < 255 || n % 255 == 254 || n >= 255 * 255
  {
    forall page: Page | page.WellFormed() && OnePacket(page) && |page.data| == n && (n < 255 || n % 255 == 254 || n >= 255 * 255)
      ensures Ends(page.segments) == 1
    {
      EndsOfLast(page.segments);
      EndsFallShort(page.segments);
      if n < 255 {
        assert page.segments[1..] == [];
      }
    }
    if 255 <= n < 255 * 255 && n % 255 != 254 {
      var page := TwoPacketsPass(n);
    }
  }

  lemma PacketsAre(s: Stream)
    requires if s.opus then s.setup == [] else StartsWith(s.setup, [5] + VORBIS_NAME)
    ensures |PacketsOf(s)| == Wanted(s.opus)
    ensures HeaderPackets(Headers(s.first, s.opus, s.comment, s.trailing, s.setup, 0), s.comment) == PacketsOf(s)
  {
    hide V.Print;
    Literals();
  }

  lemma SpreadGoesOn(pages: seq<Page>, packets: seq<Bytes>, serial: nat)
    requires Spreads(pages, packets, serial) && packets != []
    ensures GoesOn(pages, 0, |packets|)
  {
    hide Ends, AllLaces, LacingAll;
    var init, last := pages[..|pages| - 1], pages[|pages| - 1];
    assert pages == init + [last];
    LacesAppend(init, [last]);
    OnePage(last);
    LacingAllEnds(packets);
    EndsAppend(AllLaces(init), last.segments);
    EndsOfLast(last.segments);
  }

  /** Such a stream is read, whatever pages its header packets are cut into. */
  lemma StreamIsRead(s: Stream, src: Bytes, rest: Bytes)
    requires IsStream(s, src, rest)
    ensures ReadHeaders(src) == Ok((Headers(s.first, s.opus, s.comment, s.trailing, s.setup, 1 + |s.header|), rest))
  {
    hide ReadPage, Print, ReadPackets, Interpret, TakeSegments, Spreads, Identifies, Identify, PacketsOf, LacingAll, Join, AllLaces,
      GoesOn, BeginsStream, HeaderPackets;
    var packets, b := PacketsOf(s), PrintAll(s.header) + rest;
    var h := Headers(s.first, s.opus, s.comment, s.trailing, s.setup, 0);
    assert src == Print(s.first) + b;
    assert s.first.WellFormed() && Identify(s.first) == Ok(s.opus) by {
      IdentifiedIs(s.first, s.opus);
    }
    ReadPrinted(s.first, b);
    PacketsAre(s);
    GatherSpread(s.header, packets, s.first.serial, rest);
    AcceptedStream(s);
    InterpretPackets(h, s.comment, |Join(packets)|, 1 + |s.header|);
  }

  lemma IdentifiedIs(page: Page, opus: bool)
    requires Identifies(page, opus)
    ensures page.WellFormed() && Identify(page) == Ok(opus)
  {
    IdentifyIs(page);
    OneCodec(page.data);
  }

  lemma AcceptedStream(s: Stream)
    requires Identifies(s.first, s.opus) && if s.opus then s.setup == [] else StartsWith(s.setup, [5] + VORBIS_NAME)
    requires |Join(PacketsOf(s))| <= 0x100_0000
    ensures var h := Headers(s.first, s.opus, s.comment, s.trailing, s.setup, 0); Accepted(h) && HeadersFit(h, s.comment)
  {
    hide V.Print, Identifies, Identify, Join, PacketsOf, HeaderPackets;
    Literals();
    IdentifiedIs(s.first, s.opus);
    PacketsAre(s);
  }

  /** Spread packets are gathered again, exactly while they fit. */
  lemma GatherSpread(pages: seq<Page>, packets: seq<Bytes>, serial: nat, rest: Bytes)
    requires Spreads(pages, packets, serial) && packets != []
    ensures ReadPackets(PrintAll(pages) + rest, serial, |packets|, Gather([], [], 0), 1) ==
      if |Join(packets)| <= MAX_TAG_BYTES then Ok((Gather(packets, [], |Join(packets)|), 1 + |pages|, rest)) else Err(Malformed)
  {
    hide ReadPage, Print, ReadPackets, TakeSegments, LacingAll, Join, AllLaces, AllData, GoesOn, BeginsStream;
    var g := Gather([], [], 0);
    PrintHolds(pages, rest);
    SpreadGoesOn(pages, packets, serial);
    GatherPages(PrintAll(pages) + rest, pages, rest, serial, |packets|, g, 1);
    TakeLaced(packets, g, |packets|);
    assert [] + packets == packets;
    if |Join(packets)| <= MAX_TAG_BYTES {
      ReadDone(rest, serial, |packets|, Gather(packets, [], |Join(packets)|), 1 + |pages|);
    }
  }

  // ----- Whatever is read is such a stream -----

  lemma {:induction false} ReadPacketsArePages(b: Bytes, serial: nat, want: nat, g: Gather, n: nat) returns (pages: seq<Page>)
    requires Gathering(g, want) && |g.packets| < want && g.size <= MAX_TAG_BYTES && ReadPackets(b, serial, want, g, n).Ok?
    ensures var (all, m, rest) := ReadPackets(b, serial, want, g, n).value;
      && b == PrintAll(pages) + rest && Ordinary(pages, serial) && m == n + |pages|
      && pages != [] && pages[|pages| - 1].segments != []
      && Sum(AllLaces(pages)) == |AllData(pages)| && TakeSegments(AllLaces(pages), AllData(pages), g, want) == Ok(all)
      && |all.packets| == want && all.current == [] && all.size <= MAX_TAG_BYTES
    decreases |b|
  {
    hide ReadPage, Print, TakeSegments;
    ReadIsPrinted(b);
    var Read(page, after) := ReadPage(b);
    var next := TakeSegments(page.segments, page.data, g, want).value;
    TakeStays(page.segments, page.data, g, want);
    var (all, m, rest) := ReadPackets(b, serial, want, g, n).value;
    if |next.packets| == want {
      pages := [page];
      OnePage(page);
      TakeSome(page.segments, page.data, g, want);
      assert PrintAll(pages) == Print(page) + PrintAll([]);
      assert Print(page) + [] == Print(page);
    } else {
      var later := ReadPacketsArePages(after, serial, want, next, n + 1);
      pages := [page] + later;
      assert pages[1..] == later;
      TakeAppend(page.segments, page.data, AllLaces(later), AllData(later), g, want);
      Regroup(Print(page), PrintAll(later), rest);
    }
  }

  lemma {:induction false} TakeStays(laces: Bytes, data: Bytes, g: Gather, want: nat)
    requires |data| == Sum(laces) && Gathering(g, want) && g.size <= MAX_TAG_BYTES && TakeSegments(laces, data, g, want).Ok?
    ensures TakeSegments(laces, data, g, want).value.size <= MAX_TAG_BYTES
    decreases |laces|
  {
    if laces != [] {
      TakeStays(laces[1..], data[laces[0]..], TakeSegment(data[..laces[0]], g, want).value, want);
    }
  }

  lemma TakeSome(laces: Bytes, data: Bytes, g: Gather, want: nat)
    requires |data| == Sum(laces) && Gathering(g, want) && TakeSegments(laces, data, g, want).Ok?
    ensures |TakeSegments(laces, data, g, want).value.packets| > |g.packets| ==> laces != []
  {
  }

  /** So many full segments. */
  function Fulls(k: nat): Bytes {
    seq(k, _ => 255)
  }

  lemma {:induction false} LacingOfFulls(packet: Bytes, k: nat, n: nat)
    requires |packet| == 255 * k + n && n < 255
    ensures Lacing(packet) == Fulls(k) + [n]
    decreases k
  {
    if k > 0 {
      LacingOfFulls(packet[255..], k - 1, n);
      assert [255] + Fulls(k - 1) == Fulls(k);
    }
  }

  /** Whatever segments were taken are the lacing of the packets they became. */
  lemma {:induction false} TakenAreLaced(laces: Bytes, data: Bytes, g: Gather, want: nat, k: nat, packets: seq<Bytes>)
    requires |data| == Sum(laces) && Gathering(g, want) && |g.current| == 255 * k
    requires TakeSegments(laces, data, g, want).Ok?
    requires var all := TakeSegments(laces, data, g, want).value; all.current == [] && all.packets == g.packets + packets
    ensures Fulls(k) + laces == LacingAll(packets) && g.current + data == Join(packets)
    decreases |laces|
  {
    hide LacingAll, Join;
    if laces == [] {
      assert packets == [] && k == 0;
      NothingLaced();
    } else {
      var n := laces[0];
      var chunk, rest := data[..n], data[n..];
      var next := TakeSegment(chunk, g, want).value;
      hide TakeSegments;
      TakeUnfolds(laces, data, g, want);
      assert data == chunk + rest && laces == [n] + laces[1..];
      if n == 255 {
        TakenAreLaced(laces[1..], rest, next, want, k + 1, packets);
        assert Fulls(k + 1) == Fulls(k) + [255];
        Regroup(Fulls(k), [255], laces[1..]);
        Regroup(g.current, chunk, rest);
      } else {
        TakenMore(laces[1..], rest, next, want);
        PacketEnds(g.packets, g.current + chunk, packets, TakeSegments(laces, data, g, want).value.packets);
        TakenAreLaced(laces[1..], rest, next, want, 0, packets[1..]);
        OnePacketLaced(g.current, k, chunk, laces[1..], rest, packets);
      }
    }
  }

  lemma NothingLaced()
    ensures LacingAll([]) == [] && Join([]) == [] && Fulls(0) == []
  {
  }

  lemma TakeUnfolds(laces: Bytes, data: Bytes, g: Gather, want: nat)
    requires |data| == Sum(laces) && Gathering(g, want) && laces != [] && TakeSegments(laces, data, g, want).Ok?
    ensures TakeSegment(data[..laces[0]], g, want).Ok?
    ensures TakeSegments(laces, data, g, want) ==
      TakeSegments(laces[1..], data[laces[0]..], TakeSegment(data[..laces[0]], g, want).value, want)
  {
  }

  lemma PacketEnds(before: seq<Bytes>, packet: Bytes, packets: seq<Bytes>, all: seq<Bytes>)
    requires all == before + packets && before + [packet] <= all
    ensures packets != [] && packets[0] == packet && all == (before + [packet]) + packets[1..]
  {
    assert all[|before|] == (before + [packet])[|before|];
    assert packets == [packet] + packets[1..];
  }

  lemma OnePacketLaced(current: Bytes, k: nat, chunk: Bytes, laces: Bytes, rest: Bytes, packets: seq<Bytes>)
    requires |current| == 255 * k && |chunk| < 255 && packets != [] && packets[0] == current + chunk
    requires Fulls(0) + laces == LacingAll(packets[1..]) && [] + rest == Join(packets[1..])
    ensures Fulls(k) + ([|chunk|] + laces) == LacingAll(packets) && current + (chunk + rest) == Join(packets)
  {
    LacingOfFulls(packets[0], k, |chunk|);
    hide Lacing;
    assert Fulls(0) + laces == laces && [] + rest == rest;
    Regroup(Fulls(k), [|chunk|], laces);
    Regroup(current, chunk, rest);
  }

  lemma {:induction false} TakenMore(laces: Bytes, data: Bytes, g: Gather, want: nat)
    requires |data| == Sum(laces) && Gathering(g, want) && TakeSegments(laces, data, g, want).Ok?
    ensures g.packets <= TakeSegments(laces, data, g, want).value.packets
    decreases |laces|
  {
    if laces != [] {
      TakenMore(laces[1..], data[laces[0]..], TakeSegment(data[..laces[0]], g, want).value, want);
    }
  }

  /** What reading found makes up the input. */
  lemma ReadIsStream(src: Bytes) returns (s: Stream, rest: Bytes)
    requires ReadHeaders(src).Ok?
    ensures IsStream(s, src, rest)
  {
    hide ReadPage, Print, V.Parse, V.Print, Identify, Identifies, LacingAll, Join, TakeSegments, AllLaces, AllData, BeginsStream;
    ReadIsPrinted(src);
    var Read(first, b) := ReadPage(src);
    var opus := Identify(first).value;
    IdentifyIs(first);
    var (all, pages, end) := ReadPackets(b, first.serial, Wanted(opus), Gather([], [], 0), 1).value;
    var header := ReadPacketsArePages(b, first.serial, Wanted(opus), Gather([], [], 0), 1);
    var h := ReadHeaders(src).value.0;
    rest := end;
    s := Stream(first, opus, h.comment, h.trailing, h.setup, header);
    assert [] + all.packets == all.packets;
    TakenAreLaced(AllLaces(header), AllData(header), Gather([], [], 0), Wanted(opus), 0, all.packets);
    assert Fulls(0) + AllLaces(header) == AllLaces(header) && [] + AllData(header) == AllData(header);
    InterpretIs(first, opus, all, pages);
    TakeCounts(AllLaces(header), AllData(header), Gather([], [], 0), Wanted(opus));
    assert src == Print(first) + PrintAll(header) + rest;
  }

  lemma InterpretIs(first: Page, opus: bool, g: Gather, pages: nat)
    requires |g.packets| == Wanted(opus) && Interpret(first, opus, g, pages).Ok?
    ensures var h := Interpret(first, opus, g, pages).value;
      && h.first == first && h.opus == opus
      && (if opus then h.setup == [] else StartsWith(h.setup, [5] + VORBIS_NAME))
      && g.packets == PacketsOf(Stream(first, opus, h.comment, h.trailing, h.setup, []))
  {
    hide V.Parse, V.Print;
    Literals();
    var magic := CommentMagic(opus);
    var packet := g.packets[0];
    V.ParsedIsPrinted(packet[|magic|..]);
    var h := Interpret(first, opus, g, pages).value;
    assert packet == magic + packet[|magic|..];
    assert packet == magic + V.Print(h.comment) + h.trailing;
  }

  lemma {:induction false} AudioIsPrinted(b: Bytes)
    requires AudioPages(b).Ok?
    ensures b == PrintAll(AudioPages(b).value)
    decreases |b|
  {
    hide ReadPage, Print;
    EndIsEmpty(b);
    if ReadPage(b).Read? {
      ReadIsPrinted(b);
      AudioIsPrinted(ReadPage(b).rest);
      var pages := AudioPages(ReadPage(b).rest).value;
      assert ([ReadPage(b).page] + pages)[1..] == pages;
    }
  }

  lemma EndIsEmpty(b: Bytes)
    ensures ReadPage(b).Eof? <==> b == []
  {
  }

  /** What is fingerprinted is every page's segment table and data, in order. */
  lemma PayloadIs(a: seq<Page>, page: Page, b: seq<Page>)
    ensures Payload(a + [page] + b) == Payload(a) + page.segments + page.data + Payload(b)
  {
    hide Payload, ShiftAll;
    PayloadAppend(a + [page], b);
    AppendPage(a, page, 0, 0);
  }

  /** src is this stream with these audio pages. */
  ghost predicate IsFile(s: Stream, audio: seq<Page>, src: Bytes) {
    AllWellFormed(audio) && IsStream(s, src, PrintAll(audio))
  }

  /** Exactly these files are accepted: an identification page of either codec,
      header packets of at most 16 MiB on any pages, then well-formed pages to
      the end. What is found is the stream's comment and the segment tables
      and data of its audio pages. Exactly these can be rewritten. */
  lemma AcceptedIff(u: Unicode, src: Bytes, m: Metadata)
    ensures Inspect(u, src).Ok? <==> exists s, audio :: IsFile(s, audio, src)
    ensures Rewrite(u, src, m).Ok? <==> exists s, audio :: IsFile(s, audio, src)
    ensures forall s, audio :: IsFile(s, audio, src) ==> Inspect(u, src) == Ok(Info(V.Read(u, s.comment), Payload(audio)))
  {
    hide IsFile, AudioPages, ReadHeaders, V.Read, V.With, V.Print, RewriteParts;
    forall s, audio | IsFile(s, audio, src)
      ensures Inspect(u, src) == Ok(Info(V.Read(u, s.comment), Payload(audio)))
    {
      FileIsRead(u, s, audio, src);
    }
    if Inspect(u, src).Ok? {
      var s, audio := InspectedIsFile(u, src);
    }
  }

  lemma FileIsRead(u: Unicode, s: Stream, audio: seq<Page>, src: Bytes)
    requires IsFile(s, audio, src)
    ensures Inspect(u, src) == Ok(Info(V.Read(u, s.comment), Payload(audio)))
  {
    hide IsStream, AudioPages, ReadHeaders, AllWellFormed, V.Read;
    StreamIsRead(s, src, PrintAll(audio));
    PrintedAudioReads(audio);
  }

  lemma InspectedIsFile(u: Unicode, src: Bytes) returns (s: Stream, audio: seq<Page>)
    requires Inspect(u, src).Ok?
    ensures IsFile(s, audio, src)
  {
    hide IsStream, AudioPages, ReadHeaders, AllWellFormed, V.Read;
    var rest;
    s, rest := ReadIsStream(src);
    StreamIsRead(s, src, rest);
    audio := AudioPages(rest).value;
    AudioIsPrinted(rest);
    AudioIsWellFormed(rest);
  }

  // ----- Refusals -----

  /** What a first page is refused for. */
  lemma FirstPageRefusals(src: Bytes)
    ensures !ReadPage(src).Read? ==> ReadHeaders(src) == Err(Malformed)
    ensures forall first: Page, rest: Bytes :: first.WellFormed() && src == Print(first) + rest ==>
      if !BeginsStream(first) || first.segments == [] || first.segments[|first.segments| - 1] == 255
      then ReadHeaders(src) == Err(Malformed)
      else !Identifies(first, true) && !Identifies(first, false) ==> ReadHeaders(src) == Err(Unsupported)
  {
    hide ReadPage, Print, ReadPackets, Interpret, Identify, Identifies, BeginsStream;
    forall first: Page, rest: Bytes | first.WellFormed() && src == Print(first) + rest
      ensures ReadPage(src) == Read(first, rest) && first.WellFormed()
      ensures Identify(first) ==
        if !BeginsStream(first) || first.segments == [] || first.segments[|first.segments| - 1] == 255 then Err(Malformed)
        else if Identifies(first, true) then Ok(true)
        else if Identifies(first, false) then Ok(false)
        else Err(Unsupported)
    {
      ReadPrinted(first, rest);
      IdentifyIs(first);
    }
  }

  /** While header packets are missing: the end of the input or what is no page
      is malformed, a page of another stream unsupported. */
  lemma UnfinishedRefusals(first: Page, opus: bool, header: seq<Page>, rest: Bytes)
    requires Identifies(first, opus) && Ordinary(header, first.serial)
    requires Ends(AllLaces(header)) < Wanted(opus) && |AllData(header)| <= MAX_TAG_BYTES
    ensures var src := Print(first) + PrintAll(header) + rest;
      && (!ReadPage(rest).Read? ==> ReadHeaders(src) == Err(Malformed))
      && (ReadPage(rest).Read? && (ReadPage(rest).page.serial != first.serial || BeginsStream(ReadPage(rest).page)) ==>
            ReadHeaders(src) == Err(Unsupported))
  {
    hide ReadPage, Print, Interpret, Identify, Identifies, TakeSegments, Ends, AllLaces, AllData;
    var g, b := Gather([], [], 0), PrintAll(header) + rest;
    assert Print(first) + PrintAll(header) + rest == Print(first) + b;
    IdentifiedIs(first, opus);
    ReadPrinted(first, b);
    PrintHolds(header, rest);
    StillGoesOn(header, Wanted(opus));
    GatherPages(b, header, rest, first.serial, Wanted(opus), g, 1);
    TakenWhole(AllLaces(header), AllData(header), g, Wanted(opus));
    hide ReadPackets;
    NextRefused(rest, first.serial, Wanted(opus), TakeSegments(AllLaces(header), AllData(header), g, Wanted(opus)).value, 1 + |header|);
  }

  lemma NextRefused(b: Bytes, serial: nat, want: nat, g: Gather, n: nat)
    requires Gathering(g, want) && |g.packets| < want
    ensures !ReadPage(b).Read? ==> ReadPackets(b, serial, want, g, n) == Err(Malformed)
    ensures ReadPage(b).Read? && (ReadPage(b).page.serial != serial || BeginsStream(ReadPage(b).page)) ==>
      ReadPackets(b, serial, want, g, n) == Err(Unsupported)
  {
    hide ReadPage, TakeSegments;
  }

  lemma StillGoesOn(pages: seq<Page>, want: nat)
    requires Ends(AllLaces(pages)) < want
    ensures GoesOn(pages, 0, want)
  {
    hide Ends, AllLaces;
    if pages != [] {
      var init, last := pages[..|pages| - 1], pages[|pages| - 1];
      assert pages == init + [last];
      LacesAppend(init, [last]);
      OnePage(last);
      EndsAppend(AllLaces(init), last.segments);
    }
  }

  /** Segments that do not complete the packets are taken, within the limit. */
  lemma {:induction false} TakenWhole(laces: Bytes, data: Bytes, g: Gather, want: nat)
    requires |data| == Sum(laces) && Gathering(g, want) && |g.packets| + Ends(laces) < want && g.size + |data| <= MAX_TAG_BYTES
    ensures TakeSegments(laces, data, g, want).Ok?
    ensures |TakeSegments(laces, data, g, want).value.packets| < want
    decreases |laces|
  {
    if laces != [] {
      TakenWhole(laces[1..], data[laces[0]..], TakeSegment(data[..laces[0]], g, want).value, want);
    }
  }

  /** Header packets that end inside a page are refused: audio shares it. More
      than 16 MiB of them are malformed. */
  lemma HeaderPageRefusals(first: Page, opus: bool, packets: seq<Bytes>, header: seq<Page>, more: Bytes, moreData: Bytes, rest: Bytes)
    requires Identifies(first, opus) && Ordinary(header, first.serial) && |packets| == Wanted(opus)
    requires GoesOn(header, 0, Wanted(opus)) && |moreData| == Sum(more)
    requires AllLaces(header) == LacingAll(packets) + more && AllData(header) == Join(packets) + moreData
    ensures var src := Print(first) + PrintAll(header) + rest;
      && (|Join(packets)| > 0x100_0000 ==> ReadHeaders(src) == Err(Malformed))
      && (|Join(packets)| <= 0x100_0000 && more != [] ==> ReadHeaders(src) == Err(Unsupported))
  {
    hide ReadPage, Print, Interpret, Identify, Identifies, TakeSegments, Ends, AllLaces, AllData, ReadPackets, GoesOn, LacingAll, Join;
    var g, b, want := Gather([], [], 0), PrintAll(header) + rest, Wanted(opus);
    assert Print(first) + PrintAll(header) + rest == Print(first) + b;
    IdentifiedIs(first, opus);
    ReadPrinted(first, b);
    PrintHolds(header, rest);
    GatherPages(b, header, rest, first.serial, want, g, 1);
    SumOfLacingAll(packets);
    TakeLaced(packets, g, want);
    assert [] + packets == packets;
    TakeAppend(LacingAll(packets), Join(packets), more, moreData, g, want);
    if |Join(packets)| <= MAX_TAG_BYTES && more != [] {
      TakeOneTooMany(more, moreData, Gather(packets, [], |Join(packets)|), want);
    }
  }

  lemma TakeOneTooMany(laces: Bytes, data: Bytes, g: Gather, want: nat)
    requires |data| == Sum(laces) && laces != [] && Gathering(g, want) && |g.packets| == want
    ensures TakeSegments(laces, data, g, want) == Err(Unsupported)
  {
  }

  /** Complete header packets are malformed unless the comment packet begins as
      its codec's does and parses, and a Vorbis setup packet follows. */
  lemma PacketRefusals(first: Page, opus: bool, packets: seq<Bytes>, header: seq<Page>, rest: Bytes)
    requires Identifies(first, opus) && |packets| == Wanted(opus) && Spreads(header, packets, first.serial)
    requires |Join(packets)| <= 0x100_0000
    ensures var src := Print(first) + PrintAll(header) + rest;
      var magic := if opus then OPUS_COMMENT else [3] + VORBIS_NAME;
      ReadHeaders(src) ==
        if (!opus && !StartsWith(packets[1], [5] + VORBIS_NAME)) || !StartsWith(packets[0], magic)
          || V.Parse(packets[0][|magic|..]).Err? then Err(Malformed)
        else
          var (comment, trailing) := V.Parse(packets[0][|magic|..]).value;
          Ok((Headers(first, opus, comment, trailing, if opus then [] else packets[1], 1 + |header|), rest))
  {
    hide ReadPage, Print, Identify, Identifies, TakeSegments, ReadPackets, LacingAll, Join, AllLaces, AllData, V.Parse, Spreads;
    var b := PrintAll(header) + rest;
    Literals();
    assert Print(first) + PrintAll(header) + rest == Print(first) + b;
    IdentifiedIs(first, opus);
    ReadPrinted(first, b);
    GatherSpread(header, packets, first.serial, rest);
    var magic := CommentMagic(opus);
    if StartsWith(packets[0], magic) && V.Parse(packets[0][|magic|..]).Err? {
      V.ParseErrs(packets[0][|magic|..]);
    }
  }
}

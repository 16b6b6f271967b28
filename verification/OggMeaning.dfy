/** What rewriting an Ogg stream preserves: the rewritten stream is accepted
    again, carries the new metadata and the same audio, and rewriting twice is
    rewriting once. */
module OggMeaning {
  import opened ByteOrder
  import opened TagText
  import opened OggPages
  import opened OggPagination
  import opened OggStreams
  import V = VorbisComments

  // ----- Bytes that hold given pages -----

  /** b is exactly these printed pages, then rest. */
  ghost predicate Holds(b: Bytes, pages: seq<Page>, rest: Bytes)
    decreases |pages|
  {
    if pages == [] then b == rest
    else ReadPage(b).Read? && ReadPage(b).page == pages[0] && Holds(ReadPage(b).rest, pages[1..], rest)
  }

  ghost predicate AllWellFormed(pages: seq<Page>) {
    forall i :: 0 <= i < |pages| ==> pages[i].WellFormed()
  }

  lemma {:induction false} PrintHolds(pages: seq<Page>, rest: Bytes)
    requires AllWellFormed(pages)
    ensures Holds(PrintAll(pages) + rest, pages, rest)
    decreases |pages|
  {
    hide Print, ReadPage;
    if pages == [] {
      assert PrintAll(pages) + rest == rest;
    } else {
      var tail := PrintAll(pages[1..]) + rest;
      assert PrintAll(pages) + rest == Print(pages[0]) + tail;
      ReadPrinted(pages[0], tail);
      PrintHolds(pages[1..], rest);
    }
  }

  lemma {:induction false} HeldPagesRead(b: Bytes, pages: seq<Page>, rest: Bytes)
    requires Holds(b, pages, rest)
    ensures AudioPages(b) == match AudioPages(rest) case Err(e) => Err(e) case Ok(more) => Ok(pages + more)
    decreases |pages|
  {
    hide ReadPage;
    if pages == [] {
      assert AudioPages(rest).Ok? ==> [] + AudioPages(rest).value == AudioPages(rest).value;
    } else {
      HeldPagesRead(ReadPage(b).rest, pages[1..], rest);
      if AudioPages(rest).Ok? {
        assert [pages[0]] + (pages[1..] + AudioPages(rest).value) == pages + AudioPages(rest).value;
      }
    }
  }

  lemma {:induction false} AudioIsWellFormed(b: Bytes)
    requires AudioPages(b).Ok?
    ensures AllWellFormed(AudioPages(b).value)
    decreases |b|
  {
    hide ReadPage, Print;
    if ReadPage(b).Read? {
      ReadIsPrinted(b);
      AudioIsWellFormed(ReadPage(b).rest);
    }
  }

  /** Printed pages are read back, to the end of the input. */
  lemma PrintedAudioReads(pages: seq<Page>)
    requires AllWellFormed(pages)
    ensures AudioPages(PrintAll(pages)) == Ok(pages)
  {
    PrintHolds(pages, []);
    assert PrintAll(pages) + [] == PrintAll(pages);
    HeldPagesRead(PrintAll(pages), pages, []);
    assert pages + [] == pages;
  }

  // ----- Gathering the packets of a layout -----

  function Ends(laces: Bytes): nat {
    if laces == [] then 0 else (if laces[0] < 255 then 1 else 0) + Ends(laces[1..])
  }

  lemma {:induction false} EndsAppend(a: Bytes, b: Bytes)
    ensures Ends(a + b) == Ends(a) + Ends(b)
  {
    if a == [] {
      assert a + b == b;
    } else {
      assert (a + b)[1..] == a[1..] + b;
      EndsAppend(a[1..], b);
    }
  }

  lemma {:induction false} TakeCounts(laces: Bytes, data: Bytes, g: Gather, want: nat)
    requires |data| == Sum(laces) && Gathering(g, want)
    ensures var r := TakeSegments(laces, data, g, want);
      r.Ok? ==> |r.value.packets| == |g.packets| + Ends(laces) && r.value.size == g.size + |data|
    decreases |laces|
  {
    if laces != [] {
      var next := TakeSegment(data[..laces[0]], g, want);
      if next.Ok? {
        TakeCounts(laces[1..], data[laces[0]..], next.value, want);
      }
    }
  }

  function Then(r: Result<Gather>, laces: Bytes, data: Bytes, want: nat): Result<Gather>
    requires |data| == Sum(laces) && (r.Ok? ==> Gathering(r.value, want))
  {
    if r.Err? then r else TakeSegments(laces, data, r.value, want)
  }

  /** Segments may be taken page by page. */
  lemma {:induction false} TakeAppend(a: Bytes, aData: Bytes, b: Bytes, bData: Bytes, g: Gather, want: nat)
    requires |aData| == Sum(a) && |bData| == Sum(b) && Gathering(g, want)
    ensures Sum(a + b) == |aData + bData|
    ensures TakeSegments(a + b, aData + bData, g, want) == Then(TakeSegments(a, aData, g, want), b, bData, want)
    decreases |a|
  {
    SumAppend(a, b);
    if a == [] {
      assert a + b == b && aData + bData == bData;
    } else {
      var n := a[0];
      assert (a + b)[1..] == a[1..] + b;
      assert (aData + bData)[..n] == aData[..n] && (aData + bData)[n..] == aData[n..] + bData;
      var next := TakeSegment(aData[..n], g, want);
      if next.Ok? {
        TakeAppend(a[1..], aData[n..], b, bData, next.value, want);
      }
    }
  }

  lemma TakeOne(chunk: Bytes, laces: Bytes, data: Bytes, g: Gather, want: nat)
    requires |chunk| <= 255 && |data| == Sum(laces) && Gathering(g, want)
    ensures Sum([|chunk|] + laces) == |chunk + data|
    ensures TakeSegments([|chunk|] + laces, chunk + data, g, want) == Then(TakeSegment(chunk, g, want), laces, data, want)
  {
    SumAppend([|chunk|], laces);
    assert ([|chunk|] + laces)[1..] == laces;
    assert (chunk + data)[..|chunk|] == chunk && (chunk + data)[|chunk|..] == data;
  }

  lemma {:induction false} TakePacket(packet: Bytes, laces: Bytes, data: Bytes, g: Gather, want: nat)
    requires |data| == Sum(laces) && Gathering(g, want) && |g.packets| < want && g.size <= MAX_TAG_BYTES
    ensures Sum(Lacing(packet) + laces) == |packet + data|
    ensures TakeSegments(Lacing(packet) + laces, packet + data, g, want) ==
      if g.size + |packet| <= MAX_TAG_BYTES
      then TakeSegments(laces, data, Gather(g.packets + [g.current + packet], [], g.size + |packet|), want)
      else Err(Malformed)
    decreases |packet|
  {
    hide TakeSegments, Lacing;
    LacingStep(packet, laces, data);
    if |packet| < 255 {
      assert packet[..|packet|] == packet;
      TakeOne(packet, laces, data, g, want);
    } else {
      var rest := packet[255..];
      LacingStep(rest, laces, data);
      TakeOne(packet[..255], Lacing(rest) + laces, rest + data, g, want);
      if g.size + 255 <= MAX_TAG_BYTES {
        TakePacket(rest, laces, data, Gather(g.packets, g.current + packet[..255], g.size + 255), want);
        assert g.current + packet[..255] + rest == g.current + packet;
      }
    }
  }

  /** All the wanted packets are gathered, exactly while they stay within the
      limit on headers. */
  lemma {:induction false} TakeLaced(packets: seq<Bytes>, g: Gather, want: nat)
    requires |g.packets| + |packets| == want && g.current == [] && g.size <= MAX_TAG_BYTES
    ensures Sum(LacingAll(packets)) == |Join(packets)|
    ensures TakeSegments(LacingAll(packets), Join(packets), g, want) ==
      if g.size + |Join(packets)| <= MAX_TAG_BYTES
      then Ok(Gather(g.packets + packets, [], g.size + |Join(packets)|))
      else Err(Malformed)
    decreases |packets|
  {
    hide Lacing;
    SumOfLacingAll(packets);
    if packets == [] {
      assert g.packets + packets == g.packets;
    } else {
      SumOfLacingAll(packets[1..]);
      TakePacket(packets[0], LacingAll(packets[1..]), Join(packets[1..]), g, want);
      if g.size + |packets[0]| <= MAX_TAG_BYTES {
        assert [] + packets[0] == packets[0];
        TakeLaced(packets[1..], Gather(g.packets + [packets[0]], [], g.size + |packets[0]|), want);
        assert g.packets + [packets[0]] + packets[1..] == g.packets + packets;
      }
    }
  }

  lemma ReadOnePage(b: Bytes, serial: nat, want: nat, g: Gather, n: nat)
    requires Gathering(g, want) && |g.packets| < want
    requires ReadPage(b).Read? && ReadPage(b).page.serial == serial && !ReadPage(b).page.IsBos()
    requires ReadPage(b).page.WellFormed()
    ensures var Read(page, rest) := ReadPage(b);
      ReadPackets(b, serial, want, g, n) ==
        match TakeSegments(page.segments, page.data, g, want)
        case Err(e) => Err(e)
        case Ok(next) => ReadPackets(rest, serial, want, next, n + 1)
  {
    hide ReadPage, TakeSegments;
  }

  lemma ReadDone(b: Bytes, serial: nat, want: nat, g: Gather, n: nat)
    requires Gathering(g, want) && |g.packets| == want
    ensures ReadPackets(b, serial, want, g, n) == Ok((g, n, b))
  {
  }

  lemma PageOfIsOrdinary(laces: Bytes, data: Bytes, serial: nat, sequence: nat, continued: bool)
    ensures var page := PageOf(laces, data, serial, sequence, continued);
      page.serial == serial && !page.IsBos() && page.segments == laces && page.data == data
  {
  }

  /** Reading the pages of a layout gathers all its segments, when its last
      segment ends the last wanted packet. */
  lemma {:induction false} ReadLaidOut(b: Bytes, laces: Bytes, data: Bytes, serial: nat, sequence: nat,
        continued: bool, rest: Bytes, want: nat, g: Gather, n: nat)
    requires |data| == Sum(laces) && Gathering(g, want)
    requires laces != [] && laces[|laces| - 1] < 255 && |g.packets| + Ends(laces) == want
    requires Holds(b, Layout(laces, data, serial, sequence, continued), rest)
    requires AllWellFormed(Layout(laces, data, serial, sequence, continued))
    ensures ReadPackets(b, serial, want, g, n) ==
      match TakeSegments(laces, data, g, want)
      case Err(e) => Err(e)
      case Ok(all) => Ok((all, n + |Layout(laces, data, serial, sequence, continued)|, rest))
    decreases |laces|
  {
    hide ReadPage, ReadPackets, TakeSegments, Ends, PageOf;
    var pages := Layout(laces, data, serial, sequence, continued);
    EndsOfLast(laces);
    TakeCounts(laces, data, g, want);
    if |laces| <= MAX_SEGMENTS {
      assert pages[1..] == [];
      PageOfIsOrdinary(laces, data, serial, sequence, continued);
      ReadOnePage(b, serial, want, g, n);
      var all := TakeSegments(laces, data, g, want);
      if all.Ok? {
        ReadDone(rest, serial, want, all.value, n + 1);
      }
    } else {
      var here, later := laces[..MAX_SEGMENTS], laces[MAX_SEGMENTS..];
      assert laces == here + later;
      SumAppend(here, later);
      var hereData, laterData := data[..Sum(here)], data[Sum(here)..];
      assert data == hereData + laterData;
      LayoutFull(here, hereData, later, laterData, serial, sequence, continued);
      PageOfIsOrdinary(here, hereData, serial, sequence, continued);
      ReadOnePage(b, serial, want, g, n) by {
        EndsAppend(here, later);
        EndsOfLast(later);
      }
      TakeAppend(here, hereData, later, laterData, g, want);
      var next := TakeSegments(here, hereData, g, want);
      if next.Ok? {
        EndsAppend(here, later);
        TakeCounts(here, hereData, g, want);
        var more := Layout(later, laterData, serial, Next(sequence), here[MAX_SEGMENTS - 1] == 255);
        assert pages[1..] == more;
        ReadLaidOut(ReadPage(b).rest, later, laterData, serial, Next(sequence), here[MAX_SEGMENTS - 1] == 255,
                    rest, want, next.value, n + 1);
      }
    }
  }

  lemma EndsOfLast(laces: Bytes)
    requires laces != [] && laces[|laces| - 1] < 255
    ensures Ends(laces) > 0
  {
    var init := laces[..|laces| - 1];
    assert laces == init + [laces[|laces| - 1]];
    EndsAppend(init, [laces[|laces| - 1]]);
  }

  lemma {:induction false} LacingEnds(packet: Bytes)
    ensures Ends(Lacing(packet)) == 1 && Lacing(packet) != [] && Lacing(packet)[|Lacing(packet)| - 1] < 255
    decreases |packet|
  {
    if |packet| >= 255 {
      LacingEnds(packet[255..]);
      assert Lacing(packet)[1..] == Lacing(packet[255..]);
    } else {
      assert Lacing(packet)[1..] == [];
    }
  }

  lemma {:induction false} LacingAllEnds(packets: seq<Bytes>)
    ensures Ends(LacingAll(packets)) == |packets|
    ensures packets != [] ==> LacingAll(packets) != [] && LacingAll(packets)[|LacingAll(packets)| - 1] < 255
  {
    if packets != [] {
      LacingEnds(packets[0]);
      LacingAllEnds(packets[1..]);
      EndsAppend(Lacing(packets[0]), LacingAll(packets[1..]));
    }
  }

  lemma {:induction false} LayoutIsWellFormed(pages: seq<Page>, serial: nat, sequence: nat, continued: bool)
    requires WellLaid(pages, serial, sequence, continued)
    ensures AllWellFormed(pages)
    decreases |pages|
  {
    if pages != [] {
      LayoutIsWellFormed(pages[1..], serial, Next(sequence), pages[0].segments[|pages[0].segments| - 1] == 255);
    }
  }

  /** The wanted packets, laid out and printed, are gathered again. */
  lemma ReadPaginated(packets: seq<Bytes>, serial: nat, rest: Bytes)
    requires packets != [] && serial < Pow256(4)
    ensures ReadPackets(PrintAll(Pages(packets, serial, 1)) + rest, serial, |packets|, Gather([], [], 0), 1) ==
      if |Join(packets)| <= MAX_TAG_BYTES
      then Ok((Gather(packets, [], |Join(packets)|), 1 + |Pages(packets, serial, 1)|, rest))
      else Err(Malformed)
  {
    hide Print, ReadPage, ReadPackets, TakeSegments, LacingAll, Join, Layout, Ends;
    var laces, data := LacingAll(packets), Join(packets);
    SumOfLacingAll(packets);
    LayoutIsWellLaid(laces, data, serial, 1, false);
    LayoutIsWellFormed(Pages(packets, serial, 1), serial, 1, false);
    PrintHolds(Pages(packets, serial, 1), rest);
    LacingAllEnds(packets);
    ReadLaidOut(PrintAll(Pages(packets, serial, 1)) + rest, laces, data, serial, 1, false, rest,
                |packets|, Gather([], [], 0), 1);
    TakeLaced(packets, Gather([], [], 0), |packets|);
    assert [] + packets == packets;
  }

  // ----- Headers -----

  /** What reading checks about the parts a rewrite keeps. */
  ghost predicate Accepted(h: Headers) {
    && h.first.WellFormed() && Identify(h.first) == Ok(h.opus)
    && if h.opus then h.setup == [] else StartsWith(h.setup, VORBIS_SETUP)
  }

  lemma ReadIsAccepted(src: Bytes)
    requires ReadHeaders(src).Ok?
    ensures Accepted(ReadHeaders(src).value.0)
  {
    hide ReadPage, Print, ReadPackets, V.Parse;
    ReadIsPrinted(src);
  }

  predicate HeadersFit(h: Headers, comment: V.Comment) {
    |Join(HeaderPackets(h, comment))| <= MAX_TAG_BYTES
  }

  lemma InterpretPackets(h: Headers, comment: V.Comment, size: nat, pages: nat)
    requires Accepted(h) && HeadersFit(h, comment)
    ensures Interpret(h.first, h.opus, Gather(HeaderPackets(h, comment), [], size), pages) ==
      Ok(h.(comment := comment, pages := pages))
  {
    hide V.Parse, V.Print, Identify, Join, CommentMagic;
    var packets := HeaderPackets(h, comment);
    var magic := CommentMagic(h.opus);
    AfterMagic(magic, V.Print(comment), h.trailing);
    assert |packets[0]| <= |Join(packets)| by {
      JoinCovers(packets);
    }
    assert Pow256(4) == 0x1_0000_0000;
    V.ShortPrintFits(comment);
    V.ParsePrinted(comment, h.trailing);
    hide Pow256;
  }

  lemma AfterMagic(magic: Bytes, printed: Bytes, trailing: Bytes)
    ensures StartsWith(magic + printed + trailing, magic)
    ensures (magic + printed + trailing)[|magic|..] == printed + trailing
  {
    assert (magic + printed + trailing)[..|magic|] == magic;
  }

  lemma JoinCovers(packets: seq<Bytes>)
    requires packets != []
    ensures |packets[0]| <= |Join(packets)|
  {
  }

  /** Printed headers are read back with everything kept but the comment,
      exactly while they stay within the limit. */
  lemma HeadersPrinted(h: Headers, comment: V.Comment, rest: Bytes)
    requires Accepted(h)
    ensures ReadHeaders(Print(h.first) + PrintAll(HeaderPages(h, comment)) + rest) ==
      if HeadersFit(h, comment)
      then Ok((h.(comment := comment, pages := 1 + |HeaderPages(h, comment)|), rest))
      else Err(Malformed)
  {
    hide ReadPage, Print, ReadPackets, HeaderPackets, Interpret, Identify, Pages;
    var packets := HeaderPackets(h, comment);
    var b := PrintAll(HeaderPages(h, comment)) + rest;
    assert Print(h.first) + PrintAll(HeaderPages(h, comment)) + rest == Print(h.first) + b;
    ReadPrinted(h.first, b);
    assert packets != [] && |packets| == Wanted(h.opus) by {
      WantedPackets(h, comment);
    }
    ReadPaginated(packets, h.first.serial, rest);
    if HeadersFit(h, comment) {
      InterpretPackets(h, comment, |Join(packets)|, 1 + |HeaderPages(h, comment)|);
    }
  }

  lemma WantedPackets(h: Headers, comment: V.Comment)
    ensures HeaderPackets(h, comment) != [] && |HeaderPackets(h, comment)| == Wanted(h.opus)
  {
  }

  // ----- Audio -----

  /** The same page but for the sequence number, and for that too when it
      belongs to another stream. */
  predicate SameButNumber(page: Page, was: Page, serial: nat) {
    && page.flags == was.flags && page.granule == was.granule && page.serial == was.serial
    && page.segments == was.segments && page.data == was.data
    && (was.serial != serial ==> page.sequence == was.sequence)
  }

  lemma {:induction false} ShiftKeeps(pages: seq<Page>, serial: nat, shift: int)
    requires AllWellFormed(pages)
    ensures AllWellFormed(ShiftAll(pages, serial, shift))
    ensures Payload(ShiftAll(pages, serial, shift)) == Payload(pages)
    ensures |ShiftAll(pages, serial, shift)| == |pages|
    ensures forall i :: 0 <= i < |pages| ==> SameButNumber(ShiftAll(pages, serial, shift)[i], pages[i], serial)
  {
    if pages != [] {
      ShiftKeeps(pages[1..], serial, shift);
    }
  }

  lemma ShiftTwice(page: Page, serial: nat, a: int, b: int)
    requires page.WellFormed()
    ensures ShiftPage(ShiftPage(page, serial, a), serial, b) == ShiftPage(page, serial, a + b)
  {
    AddModulo(page.sequence, a, b);
  }

  lemma AddModulo(n: int, a: int, b: int)
    ensures ((n + a) % 0x1_0000_0000 + b) % 0x1_0000_0000 == (n + a + b) % 0x1_0000_0000
  {
  }

  /** Sequence shifts add up, modulo 2 to the 32. */
  lemma {:induction false} ShiftsAdd(pages: seq<Page>, serial: nat, a: int, b: int)
    requires AllWellFormed(pages)
    ensures ShiftAll(ShiftAll(pages, serial, a), serial, b) == ShiftAll(pages, serial, a + b)
  {
    if pages != [] {
      ShiftTwice(pages[0], serial, a, b);
      ShiftsAdd(pages[1..], serial, a, b);
      assert ShiftAll(pages, serial, a)[1..] == ShiftAll(pages[1..], serial, a);
    }
  }

  // ----- Rewriting -----

  /** The headers of a rewritten stream. */
  function NewHeaders(u: Unicode, h: Headers, m: Metadata): Headers {
    var comment := V.With(u, h.comment, m);
    h.(comment := comment, pages := 1 + |HeaderPages(h, comment)|)
  }

  function Shift(u: Unicode, h: Headers, m: Metadata): int {
    NewHeaders(u, h, m).pages - h.pages
  }

  /** Whether the rewritten headers can be read back. */
  predicate SmallEnough(u: Unicode, src: Bytes, m: Metadata)
    requires ReadHeaders(src).Ok?
  {
    var h := ReadHeaders(src).value.0;
    HeadersFit(h, V.With(u, h.comment, m))
  }

  /** The rewritten stream is accepted again with the same identification
      page, setup packet and trailing bytes, exactly while its headers stay
      within the limit; its audio pages differ only in sequence number. */
  lemma RewrittenReads(u: Unicode, src: Bytes, m: Metadata)
    requires Rewrite(u, src, m).Ok?
    ensures ReadHeaders(src).Ok? && AudioPages(ReadHeaders(src).value.1).Ok?
    ensures var (h, rest) := ReadHeaders(src).value;
      var shifted := ShiftAll(AudioPages(rest).value, h.first.serial, Shift(u, h, m));
      && ReadHeaders(Rewrite(u, src, m).value) ==
           (if SmallEnough(u, src, m) then Ok((NewHeaders(u, h, m), PrintAll(shifted))) else Err(Malformed))
      && AudioPages(PrintAll(shifted)) == Ok(shifted)
  {
    hide ReadHeaders, AudioPages, Print, V.With, HeaderPages, HeaderPackets;
    var (h, rest) := ReadHeaders(src).value;
    var audio := AudioPages(rest).value;
    var shifted := ShiftAll(audio, h.first.serial, Shift(u, h, m));
    ReadIsAccepted(src);
    AudioIsWellFormed(rest);
    ShiftKeeps(audio, h.first.serial, Shift(u, h, m));
    PrintedAudioReads(shifted);
    HeadersPrinted(h, V.With(u, h.comment, m), PrintAll(shifted));
  }

  /** Inspecting the rewritten stream gives exactly the new metadata and the
      audio there was, if and only if the headers stay within the limit. */
  lemma RewriteKeepsAudio(u: Unicode, src: Bytes, m: Metadata)
    requires u.Agrees() && m.NumbersFit() && Rewrite(u, src, m).Ok?
    ensures ReadHeaders(src).Ok? && Inspect(u, src).Ok?
    ensures Inspect(u, Rewrite(u, src, m).value) ==
      if SmallEnough(u, src, m) then Ok(Info(m, Inspect(u, src).value.payload)) else Err(Malformed)
  {
    hide ReadHeaders, AudioPages, Rewrite, V.With, V.Read, SmallEnough, ShiftAll, Payload;
    RewrittenReads(u, src, m);
    var (h, rest) := ReadHeaders(src).value;
    AudioIsWellFormed(rest);
    ShiftKeeps(AudioPages(rest).value, h.first.serial, Shift(u, h, m));
    V.WrittenIsRead(u, h.comment, m);
  }

  /** The headers planned from a rewritten stream's headers are those planned
      from the original's. */
  lemma RewrittenHeadersCompose(u: Unicode, h: Headers, m1: Metadata, m2: Metadata)
    requires u.Agrees()
    ensures var h1 := NewHeaders(u, h, m1);
      && V.With(u, h1.comment, m2) == V.With(u, h.comment, m2)
      && HeaderPages(h1, V.With(u, h.comment, m2)) == HeaderPages(h, V.With(u, h.comment, m2))
  {
    hide V.With, V.Print, Pages;
    var h1 := NewHeaders(u, h, m1);
    V.WithTwice(u, h.comment, m1, m2);
    assert HeaderPackets(h1, V.With(u, h.comment, m2)) == HeaderPackets(h, V.With(u, h.comment, m2));
  }

  lemma RewrittenPartsCompose(u: Unicode, h: Headers, audio: seq<Page>, m1: Metadata, m2: Metadata)
    requires u.Agrees() && AllWellFormed(audio)
    ensures var h1 := NewHeaders(u, h, m1);
      RewriteParts(h1, V.With(u, h1.comment, m2), ShiftAll(audio, h.first.serial, Shift(u, h, m1))) ==
      RewriteParts(h, V.With(u, h.comment, m2), audio)
  {
    hide Print, PrintAll, V.With, V.Print, ShiftAll, Pages, HeaderPages, AllWellFormed;
    var h1 := NewHeaders(u, h, m1);
    var n := |HeaderPages(h, V.With(u, h.comment, m2))|;
    RewrittenHeadersCompose(u, h, m1, m2);
    ShiftsAdd(audio, h.first.serial, Shift(u, h, m1), n + 1 - h1.pages);
  }

  /** Rewriting twice gives byte for byte what the second rewrite alone gives,
      if and only if the intermediate headers can be read back. */
  lemma RewritesCompose(u: Unicode, src: Bytes, m1: Metadata, m2: Metadata)
    requires u.Agrees() && Rewrite(u, src, m1).Ok?
    ensures ReadHeaders(src).Ok?
    ensures Rewrite(u, Rewrite(u, src, m1).value, m2) ==
      if SmallEnough(u, src, m1) then Rewrite(u, src, m2) else Err(Malformed)
  {
    hide ReadHeaders, AudioPages, V.With, SmallEnough, ShiftAll, PrintAll, RewriteParts, NewHeaders, Shift;
    RewrittenReads(u, src, m1);
    var (h, rest) := ReadHeaders(src).value;
    AudioIsWellFormed(rest);
    RewrittenPartsCompose(u, h, AudioPages(rest).value, m1, m2);
  }

  // ----- Numbering -----

  /** The pages of the stream are numbered n, n+1, ... in order; pages of
      other streams may lie between them. */
  ghost predicate Numbered(pages: seq<Page>, serial: nat, n: nat)
    decreases |pages|
  {
    if pages == [] then true
    else if pages[0].serial != serial then Numbered(pages[1..], serial, n)
    else pages[0].sequence == n % 0x1_0000_0000 && Numbered(pages[1..], serial, n + 1)
  }

  lemma {:induction false} NumberedAppend(a: seq<Page>, b: seq<Page>, serial: nat, n: nat)
    requires forall i :: 0 <= i < |a| ==> a[i].serial == serial
    ensures Numbered(a + b, serial, n) <==> Numbered(a, serial, n) && Numbered(b, serial, n + |a|)
  {
    if a == [] {
      assert a + b == b;
    } else {
      assert (a + b)[1..] == a[1..] + b;
      NumberedAppend(a[1..], b, serial, n + 1);
    }
  }

  lemma {:induction false} ShiftNumbered(pages: seq<Page>, serial: nat, n: nat, shift: int)
    requires Numbered(pages, serial, n) && n + shift >= 0 && AllWellFormed(pages)
    ensures Numbered(ShiftAll(pages, serial, shift), serial, n + shift)
  {
    if pages != [] {
      if pages[0].serial == serial {
        ShiftNumbered(pages[1..], serial, n + 1, shift);
        AddModulo(n, 0, shift);
      } else {
        ShiftNumbered(pages[1..], serial, n, shift);
      }
      assert ShiftAll(pages, serial, shift)[1..] == ShiftAll(pages[1..], serial, shift);
    }
  }

  lemma {:induction false} LaidOutNumbered(pages: seq<Page>, serial: nat, n: nat, continued: bool)
    requires WellLaid(pages, serial, n % 0x1_0000_0000, continued)
    ensures Numbered(pages, serial, n)
    ensures forall i :: 0 <= i < |pages| ==> pages[i].serial == serial
  {
    if pages != [] {
      AddModulo(n, 0, 1);
      LaidOutNumbered(pages[1..], serial, n + 1, pages[0].segments[|pages[0].segments| - 1] == 255);
    }
  }

  /** Reading packets consumes exactly the counted pages, all of the stream. */
  lemma {:induction false} HeaderPagesRead(b: Bytes, serial: nat, want: nat, g: Gather, n: nat) returns (pages: seq<Page>)
    requires Gathering(g, want) && ReadPackets(b, serial, want, g, n).Ok?
    ensures var (_, count, rest) := ReadPackets(b, serial, want, g, n).value;
      Holds(b, pages, rest) && n + |pages| == count && forall i :: 0 <= i < |pages| ==> pages[i].serial == serial
    decreases |b|
  {
    hide ReadPage, TakeSegments, Print;
    if |g.packets| == want {
      pages := [];
    } else {
      ReadIsPrinted(b);
      var Read(page, rest) := ReadPage(b);
      var next := TakeSegments(page.segments, page.data, g, want).value;
      var later := HeaderPagesRead(rest, serial, want, next, n + 1);
      pages := [page] + later;
      assert pages[1..] == later;
    }
  }

  /** A stream numbered 0, 1, 2, ... stays so, whatever the number of header
      pages becomes. */
  lemma RewriteKeepsNumbering(u: Unicode, src: Bytes, m: Metadata)
    requires Rewrite(u, src, m).Ok? && AudioPages(src).Ok?
    requires Numbered(AudioPages(src).value, ReadHeaders(src).value.0.first.serial, 0)
    ensures AudioPages(Rewrite(u, src, m).value).Ok?
    ensures Numbered(AudioPages(Rewrite(u, src, m).value).value, ReadHeaders(src).value.0.first.serial, 0)
  {
    hide AudioPages, ReadHeaders, Print, PrintAll, ShiftAll, Numbered, V.With, HeaderPages;
    var (h, rest) := ReadHeaders(src).value;
    AudioNumbered(src);
    var serial := h.first.serial;
    var audio := AudioPages(rest).value;
    var comment := V.With(u, h.comment, m);
    var shift := |HeaderPages(h, comment)| + 1 - h.pages;
    ReadIsAccepted(src);
    AudioIsWellFormed(rest);
    ShiftKeeps(audio, serial, shift);
    ShiftNumbered(audio, serial, h.pages, shift);
    RewrittenNumbered(h, comment, ShiftAll(audio, serial, shift));
  }

  lemma AudioNumbered(src: Bytes)
    requires ReadHeaders(src).Ok? && AudioPages(src).Ok?
    requires Numbered(AudioPages(src).value, ReadHeaders(src).value.0.first.serial, 0)
    ensures var (h, rest) := ReadHeaders(src).value;
      && AudioPages(rest).Ok? && h.first.sequence == 0 && Numbered(AudioPages(rest).value, h.first.serial, h.pages)
  {
    hide ReadPage, ReadPackets, Interpret, Identify;
    var (h, rest) := ReadHeaders(src).value;
    var afterFirst := ReadPage(src).rest;
    var opus := Identify(h.first).value;
    var pages := HeaderPagesRead(afterFirst, h.first.serial, Wanted(opus), Gather([], [], 0), 1);
    HeldPagesRead(afterFirst, pages, rest);
    var all := AudioPages(src).value;
    assert all[1..] == pages + AudioPages(rest).value;
    NumberedAppend(pages, AudioPages(rest).value, h.first.serial, 1);
  }

  lemma RewrittenNumbered(h: Headers, comment: V.Comment, shifted: seq<Page>)
    requires Accepted(h) && h.first.sequence == 0 && AllWellFormed(shifted)
    requires Numbered(shifted, h.first.serial, |HeaderPages(h, comment)| + 1)
    ensures var b := Print(h.first) + PrintAll(HeaderPages(h, comment)) + PrintAll(shifted);
      AudioPages(b).Ok? && Numbered(AudioPages(b).value, h.first.serial, 0)
  {
    hide Layout, HeaderPackets, LacingAll, Join, Print, ReadPage, WellLaid, AudioPages;
    var pages, serial := HeaderPages(h, comment), h.first.serial;
    var packets := HeaderPackets(h, comment);
    SumOfLacingAll(packets);
    LayoutIsWellLaid(LacingAll(packets), Join(packets), serial, 1, false);
    LayoutIsWellFormed(pages, serial, 1, false);
    LaidOutNumbered(pages, serial, 1, false);
    NumberedAppend(pages, shifted, serial, 1);
    var all := [h.first] + (pages + shifted);
    PrintAllAppend(pages, shifted);
    assert PrintAll(all) == Print(h.first) + PrintAll(pages + shifted) by {
      assert all[1..] == pages + shifted;
    }
    PrintedAudioReads(all);
    assert PrintAll(all) == Print(h.first) + PrintAll(pages) + PrintAll(shifted);
    assert all[0] == h.first && all[1..] == pages + shifted;
    assert Numbered(all, serial, 0);
  }
}

/** Laying packets out on Ogg pages (section 5 of RFC 3533), and the
    reassembly that undoes it. */
module OggPagination {
  import opened ByteOrder
  import opened OggPages

  const MAX_SEGMENTS := 255

  // ----- Lacing -----

  /** A packet's lacing values: 255 for each full segment, then one below. */
  function Lacing(packet: Bytes): Bytes {
    if |packet| < 255 then [|packet|] else [255] + Lacing(packet[255..])
  }

  function LacingAll(packets: seq<Bytes>): Bytes {
    if packets == [] then [] else Lacing(packets[0]) + LacingAll(packets[1..])
  }

  function Join(packets: seq<Bytes>): Bytes {
    if packets == [] then [] else packets[0] + Join(packets[1..])
  }

  /** The packets a run of segments holds: data up to each lacing value below
      255. What an unfinished packet leaves over is dropped. */
  function Reassemble(laces: Bytes, data: Bytes, current: Bytes): seq<Bytes>
    requires |data| == Sum(laces)
    decreases |laces|
  {
    if laces == [] then []
    else
      var grown, rest := current + data[..laces[0]], data[laces[0]..];
      if laces[0] < 255 then [grown] + Reassemble(laces[1..], rest, []) else Reassemble(laces[1..], rest, grown)
  }

  lemma {:induction false} SumOfLacing(packet: Bytes)
    ensures Sum(Lacing(packet)) == |packet|
    decreases |packet|
  {
    if |packet| < 255 {
      assert Lacing(packet)[1..] == [];
    } else {
      SumOfLacing(packet[255..]);
      assert Lacing(packet)[1..] == Lacing(packet[255..]);
    }
  }

  lemma {:induction false} SumOfLacingAll(packets: seq<Bytes>)
    ensures Sum(LacingAll(packets)) == |Join(packets)|
  {
    if packets != [] {
      SumOfLacing(packets[0]);
      SumAppend(Lacing(packets[0]), LacingAll(packets[1..]));
      SumOfLacingAll(packets[1..]);
    }
  }

  lemma ReassembleChunk(chunk: Bytes, laces: Bytes, data: Bytes, current: Bytes)
    requires |chunk| <= 255 && |data| == Sum(laces)
    ensures Sum([|chunk|] + laces) == |chunk + data|
    ensures Reassemble([|chunk|] + laces, chunk + data, current) ==
      if |chunk| < 255 then [current + chunk] + Reassemble(laces, data, [])
      else Reassemble(laces, data, current + chunk)
  {
    SumAppend([|chunk|], laces);
    assert ([|chunk|] + laces)[1..] == laces;
    assert (chunk + data)[..|chunk|] == chunk && (chunk + data)[|chunk|..] == data;
  }

  /** The first lacing value of a packet, and what is laced after it. */
  lemma LacingStep(packet: Bytes, laces: Bytes, data: Bytes)
    requires |data| == Sum(laces)
    ensures Sum(Lacing(packet) + laces) == |packet + data|
    ensures var n := if |packet| < 255 then |packet| else 255;
      var moreLaces, moreData := if n < 255 then laces else Lacing(packet[n..]) + laces, packet[n..] + data;
      && |moreData| == Sum(moreLaces)
      && Lacing(packet) + laces == [n] + moreLaces && packet + data == packet[..n] + moreData
      && (n < 255 ==> moreData == data)
  {
    var n := if |packet| < 255 then |packet| else 255;
    SumOfLacing(packet);
    SumAppend(Lacing(packet), laces);
    SumOfLacing(packet[n..]);
    SumAppend(Lacing(packet[n..]), laces);
  }

  lemma {:induction false} ReassembleOne(packet: Bytes, laces: Bytes, data: Bytes, current: Bytes)
    requires |data| == Sum(laces)
    ensures Sum(Lacing(packet) + laces) == |packet + data|
    ensures Reassemble(Lacing(packet) + laces, packet + data, current) == [current + packet] + Reassemble(laces, data, [])
    decreases |packet|
  {
    hide Lacing, Sum, Reassemble;
    LacingStep(packet, laces, data);
    if |packet| < 255 {
      assert packet[..|packet|] == packet;
      ReassembleChunk(packet, laces, data, current);
    } else {
      var chunk, rest := packet[..255], packet[255..];
      ReassembleChunk(chunk, Lacing(rest) + laces, rest + data, current);
      ReassembleOne(rest, laces, data, current + chunk);
      assert current + chunk + rest == current + packet by {
        assert packet == chunk + rest;
      }
    }
  }

  /** Splitting at the lacing values below 255 gives the packets back. */
  lemma {:induction false} ReassembleLaced(packets: seq<Bytes>)
    ensures Sum(LacingAll(packets)) == |Join(packets)|
    ensures Reassemble(LacingAll(packets), Join(packets), []) == packets
  {
    SumOfLacingAll(packets);
    if packets != [] {
      ReassembleLaced(packets[1..]);
      ReassembleOne(packets[0], LacingAll(packets[1..]), Join(packets[1..]), []);
      assert [] + packets[0] == packets[0];
      assert [packets[0]] + packets[1..] == packets;
    }
  }

  // ----- The layout, stated without a loop -----

  /** Granule position 0 where a packet ends on the page, none elsewhere. */
  function GranuleOf(laces: Bytes): nat {
    if exists i :: 0 <= i < |laces| && laces[i] < 255 then 0 else NO_PACKET_ENDS
  }

  function PageOf(laces: Bytes, data: Bytes, serial: nat, sequence: nat, continued: bool): Page {
    Page(if continued then CONTINUED else 0, GranuleOf(laces), serial, sequence, laces, data)
  }

  function Next(sequence: nat): nat {
    (sequence + 1) % 0x1_0000_0000
  }

  /** Cuts segments into pages of 255, and the data with them. A page is
      continued when the segment before it was full. */
  function Layout(laces: Bytes, data: Bytes, serial: nat, sequence: nat, continued: bool): seq<Page>
    requires |data| == Sum(laces)
    decreases |laces|
  {
    if laces == [] then []
    else if |laces| <= MAX_SEGMENTS then [PageOf(laces, data, serial, sequence, continued)]
    else
      var here, later := laces[..MAX_SEGMENTS], laces[MAX_SEGMENTS..];
      assert laces == here + later;
      SumAppend(here, later);
      [PageOf(here, data[..Sum(here)], serial, sequence, continued)] +
      Layout(later, data[Sum(here)..], serial, Next(sequence), here[MAX_SEGMENTS - 1] == 255)
  }

  /** A full page goes out and the rest starts the next one. */
  lemma LayoutFull(here: Bytes, hereData: Bytes, later: Bytes, laterData: Bytes, serial: nat, sequence: nat, continued: bool)
    requires |here| == MAX_SEGMENTS && |hereData| == Sum(here) && |laterData| == Sum(later)
    ensures Sum(here + later) == |hereData + laterData|
    ensures Layout(here + later, hereData + laterData, serial, sequence, continued) ==
      [PageOf(here, hereData, serial, sequence, continued)] +
      Layout(later, laterData, serial, Next(sequence), here[MAX_SEGMENTS - 1] == 255)
  {
    SumAppend(here, later);
    var laces, data := here + later, hereData + laterData;
    if later == [] {
      assert laces == here && data == hereData;
      assert [PageOf(here, hereData, serial, sequence, continued)] + [] ==
        [PageOf(here, hereData, serial, sequence, continued)];
    } else {
      assert laces[..MAX_SEGMENTS] == here && laces[MAX_SEGMENTS..] == later;
      assert data[..Sum(here)] == hereData && data[Sum(here)..] == laterData;
    }
  }

  /** The pages for some packets. */
  function Pages(packets: seq<Bytes>, serial: nat, sequence: nat): seq<Page> {
    SumOfLacingAll(packets);
    Layout(LacingAll(packets), Join(packets), serial, sequence, false)
  }

  // ----- The loop -----

  /** A page as the loop fills it. */
  ghost predicate Filling(page: Page, serial: nat) {
    && (page.flags == 0 || page.flags == CONTINUED)
    && page == PageOf(page.segments, page.data, serial, page.sequence, page.flags == CONTINUED)
    && |page.segments| <= MAX_SEGMENTS && |page.data| == Sum(page.segments)
  }

  /** The layout still to come when a page is being filled. */
  ghost function Remaining(page: Page, laces: Bytes, data: Bytes): seq<Page>
    requires |page.data| == Sum(page.segments) && |data| == Sum(laces)
  {
    SumAppend(page.segments, laces);
    Layout(page.segments + laces, page.data + data, page.serial, page.sequence, page.flags == CONTINUED)
  }

  function FreshPage(serial: nat, sequence: nat, continued: bool): Page {
    Page(if continued then CONTINUED else 0, NO_PACKET_ENDS, serial, sequence, [], [])
  }

  lemma FreshRemaining(laces: Bytes, data: Bytes, serial: nat, sequence: nat, continued: bool)
    requires |data| == Sum(laces)
    ensures Filling(FreshPage(serial, sequence, continued), serial)
    ensures Remaining(FreshPage(serial, sequence, continued), laces, data) ==
      Layout(laces, data, serial, sequence, continued)
  {
    assert [] + laces == laces && [] + data == data;
  }

  lemma FlushRemaining(page: Page, laces: Bytes, data: Bytes)
    requires Filling(page, page.serial) && |page.segments| == MAX_SEGMENTS && |data| == Sum(laces)
    ensures var next := FreshPage(page.serial, Next(page.sequence), page.segments[MAX_SEGMENTS - 1] == 255);
      Filling(next, page.serial) && Remaining(page, laces, data) == [page] + Remaining(next, laces, data)
  {
    LayoutFull(page.segments, page.data, laces, data, page.serial, page.sequence, page.flags == CONTINUED);
    FreshRemaining(laces, data, page.serial, Next(page.sequence), page.segments[MAX_SEGMENTS - 1] == 255);
  }

  function AddSegment(page: Page, chunk: Bytes): Page
    requires |chunk| <= 255
  {
    var grown := page.(segments := page.segments + [|chunk|], data := page.data + chunk);
    if |chunk| < 255 then grown.(granule := 0) else grown
  }

  lemma AddedRemaining(page: Page, chunk: Bytes, laces: Bytes, data: Bytes)
    requires Filling(page, page.serial) && |page.segments| < MAX_SEGMENTS && |chunk| <= 255 && |data| == Sum(laces)
    ensures Sum([|chunk|] + laces) == |chunk + data|
    ensures var grown := AddSegment(page, chunk);
      && Filling(grown, page.serial)
      && Remaining(page, [|chunk|] + laces, chunk + data) == Remaining(grown, laces, data)
  {
    var grown := AddSegment(page, chunk);
    SumAppend(page.segments, [|chunk|]);
    SumAppend([|chunk|], laces);
    assert forall i :: 0 <= i < |page.segments| ==> grown.segments[i] == page.segments[i];
    assert grown.segments[|page.segments|] == |chunk|;
    assert page.segments + ([|chunk|] + laces) == grown.segments + laces;
    assert page.data + (chunk + data) == grown.data + data;
  }

  lemma LastRemaining(page: Page)
    requires Filling(page, page.serial)
    ensures Remaining(page, [], []) == if page.segments == [] then [] else [page]
  {
    assert page.segments + [] == page.segments && page.data + [] == page.data;
  }

  /** Lays one packet's segments on the current page, sending full pages out
      while the packet goes on. */
  method AddPacket(packet: Bytes, pages0: seq<Page>, page0: Page, ghost later: Bytes, ghost laterData: Bytes)
    returns (pages: seq<Page>, page: Page)
    requires Filling(page0, page0.serial) && |page0.segments| < MAX_SEGMENTS && |laterData| == Sum(later)
    ensures Filling(page, page0.serial)
    ensures |page.segments| > 0 && page.segments[|page.segments| - 1] < 255
    ensures Sum(Lacing(packet) + later) == |packet + laterData|
    ensures pages0 + Remaining(page0, Lacing(packet) + later, packet + laterData) ==
      pages + Remaining(page, later, laterData)
  {
    hide Remaining, AddSegment, Lacing;
    pages, page := pages0, page0;
    var rest := packet;
    LacingStep(packet, later, laterData);
    ghost var all := pages + Remaining(page, Lacing(packet) + later, packet + laterData);
    while true
      invariant Filling(page, page0.serial)
      invariant |page.segments| == MAX_SEGMENTS ==> page.segments[MAX_SEGMENTS - 1] == 255
      invariant Sum(Lacing(rest) + later) == |rest + laterData|
      invariant pages + Remaining(page, Lacing(rest) + later, rest + laterData) == all
      decreases |rest|
    {
      if |page.segments| == MAX_SEGMENTS {
        FlushRemaining(page, Lacing(rest) + later, rest + laterData);
        pages := pages + [page];
        page := FreshPage(page.serial, Next(page.sequence), true);
      }
      var n := if |rest| < 255 then |rest| else 255;
      SegmentRemaining(page, rest, later, laterData);
      page := AddSegment(page, rest[..n]);
      rest := rest[n..];
      if n < 255 {
        return;
      }
    }
  }

  lemma SegmentRemaining(page: Page, rest: Bytes, later: Bytes, laterData: Bytes)
    requires Filling(page, page.serial) && |page.segments| < MAX_SEGMENTS && |laterData| == Sum(later)
    ensures Sum(Lacing(rest) + later) == |rest + laterData|
    ensures var n := if |rest| < 255 then |rest| else 255;
      var grown := AddSegment(page, rest[..n]);
      && Filling(grown, page.serial) && grown.segments == page.segments + [n]
      && Sum(Lacing(rest[n..]) + later) == |rest[n..] + laterData|
      && Remaining(page, Lacing(rest) + later, rest + laterData) ==
        if n < 255 then Remaining(grown, later, laterData)
        else Remaining(grown, Lacing(rest[n..]) + later, rest[n..] + laterData)
  {
    var n := if |rest| < 255 then |rest| else 255;
    LacingStep(rest, later, laterData);
    LacingStep(rest[n..], later, laterData);
    AddedRemaining(page, rest[..n], if n < 255 then later else Lacing(rest[n..]) + later, rest[n..] + laterData);
  }

  /** Fills the current page segment by segment, sending it out when another
      segment is due on a full one and after a packet that just filled it. */
  method Paginate(packets: seq<Bytes>, serial: nat, firstSequence: nat) returns (pages: seq<Page>)
    ensures pages == Pages(packets, serial, firstSequence)
  {
    hide Remaining, Layout, Lacing;
    pages := [];
    var page := FreshPage(serial, firstSequence, false);
    SumOfLacingAll(packets);
    FreshRemaining(LacingAll(packets), Join(packets), serial, firstSequence, false);
    ghost var all := Pages(packets, serial, firstSequence);
    for i := 0 to |packets|
      invariant Filling(page, serial) && |page.segments| < MAX_SEGMENTS
      invariant Sum(LacingAll(packets[i..])) == |Join(packets[i..])|
      invariant pages + Remaining(page, LacingAll(packets[i..]), Join(packets[i..])) == all
    {
      ghost var later := packets[i + 1..];
      SumOfLacingAll(later);
      assert packets[i..][0] == packets[i] && packets[i..][1..] == later;
      pages, page := AddPacket(packets[i], pages, page, LacingAll(later), Join(later));
      if |page.segments| == MAX_SEGMENTS {
        FlushRemaining(page, LacingAll(later), Join(later));
        pages := pages + [page];
        page := FreshPage(serial, Next(page.sequence), false);
      }
    }
    assert packets[|packets|..] == [];
    LastRemaining(page);
    if |page.segments| > 0 {
      pages := pages + [page];
    }
  }

  // ----- What the layout guarantees -----

  function AllLaces(pages: seq<Page>): Bytes {
    if pages == [] then [] else pages[0].segments + AllLaces(pages[1..])
  }

  function AllData(pages: seq<Page>): Bytes {
    if pages == [] then [] else pages[0].data + AllData(pages[1..])
  }

  ghost predicate WellLaidPage(page: Page, serial: nat, sequence: nat) {
    && page.WellFormed()
    && page.serial == serial && page.sequence == sequence
    && 0 < |page.segments| <= MAX_SEGMENTS
    && page.granule == if exists k :: 0 <= k < |page.segments| && page.segments[k] < 255 then 0 else NO_PACKET_ENDS
  }

  function Flag(continued: bool): byte {
    if continued then CONTINUED else 0
  }

  /** Consecutive pages, full up to the last, each continued exactly when the
      one before it (or what came before the first) broke off a packet. */
  ghost predicate WellLaid(pages: seq<Page>, serial: nat, sequence: nat, continued: bool) {
    pages != [] ==>
      && WellLaidPage(pages[0], serial, sequence)
      && pages[0].flags == Flag(continued)
      && (|pages| > 1 ==> |pages[0].segments| == MAX_SEGMENTS)
      && WellLaid(pages[1..], serial, Next(sequence), pages[0].segments[|pages[0].segments| - 1] == 255)
  }

  lemma PageOfIsWellLaid(laces: Bytes, data: Bytes, serial: nat, sequence: nat, continued: bool)
    requires 0 < |laces| <= MAX_SEGMENTS && |data| == Sum(laces) && serial < Pow256(4) && sequence < Pow256(4)
    ensures WellLaidPage(PageOf(laces, data, serial, sequence, continued), serial, sequence)
    ensures PageOf(laces, data, serial, sequence, continued).flags == Flag(continued)
    ensures PageOf(laces, data, serial, sequence, continued).segments == laces
    ensures PageOf(laces, data, serial, sequence, continued).data == data
  {
    assert Pow256(8) == Pow256(4) * Pow256(4);
  }

  lemma {:induction false} LayoutIsWellLaid(laces: Bytes, data: Bytes, serial: nat, sequence: nat, continued: bool)
    requires |data| == Sum(laces) && serial < Pow256(4) && sequence < Pow256(4)
    ensures var pages := Layout(laces, data, serial, sequence, continued);
      WellLaid(pages, serial, sequence, continued) && AllLaces(pages) == laces && AllData(pages) == data
    decreases |laces|
  {
    hide WellLaidPage, PageOf;
    var pages := Layout(laces, data, serial, sequence, continued);
    if laces == [] {
    } else if |laces| <= MAX_SEGMENTS {
      PageOfIsWellLaid(laces, data, serial, sequence, continued);
      assert pages[1..] == [];
    } else {
      var here, later := laces[..MAX_SEGMENTS], laces[MAX_SEGMENTS..];
      assert laces == here + later;
      SumAppend(here, later);
      var hereData, laterData := data[..Sum(here)], data[Sum(here)..];
      assert data == hereData + laterData;
      LayoutFull(here, hereData, later, laterData, serial, sequence, continued);
      PageOfIsWellLaid(here, hereData, serial, sequence, continued);
      assert Next(sequence) < Pow256(4) && |later| < |laces|;
      LayoutIsWellLaid(later, laterData, serial, Next(sequence), here[MAX_SEGMENTS - 1] == 255);
      assert pages[1..] == Layout(later, laterData, serial, Next(sequence), here[MAX_SEGMENTS - 1] == 255);
    }
  }

  /** Pages are consecutive and full up to the last, continued exactly where a
      packet spills over, without a granule position exactly where no packet
      ends; and reassembling them gives the packets back. */
  lemma PaginationReassembles(packets: seq<Bytes>, serial: nat, sequence: nat)
    requires serial < Pow256(4) && sequence < Pow256(4)
    ensures var pages := Pages(packets, serial, sequence);
      && WellLaid(pages, serial, sequence, false)
      && Sum(AllLaces(pages)) == |AllData(pages)|
      && Reassemble(AllLaces(pages), AllData(pages), []) == packets
  {
    SumOfLacingAll(packets);
    LayoutIsWellLaid(LacingAll(packets), Join(packets), serial, sequence, false);
    ReassembleLaced(packets);
  }
}

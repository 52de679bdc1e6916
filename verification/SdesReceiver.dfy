/** The receiver's reading of a source description, and that it finds what the sender wrote. */
module SdesReceiver {
  import opened Common
  import opened RtcpWire
  import opened Sdes

  /** The item loop from rsp on: the items it stores, and where it leaves off. An item that would
      reach the end of the packet is dropped, so the length octet behind the end never matters. */
  function ReadItems(b: seq<Byte>, rsp: nat, end: nat): (r: (seq<Item>, nat))
    requires rsp < end <= |b|
    ensures r.1 >= rsp
    decreases end - rsp
  {
    if b[rsp] == 0 then ([], rsp)
    else if rsp + 1 == end then ([], rsp + 2)
    else
      var length: nat := b[rsp + 1];
      var rspn := rsp + length + 2;
      if rspn >= end then ([], rspn)
      else
        var (rest, last) := ReadItems(b, rspn, end);
        ([Item(b[rsp], b[rsp + 2..rspn])] + rest, last)
  }

  /** The chunk loop from sd on, for count chunks: the chunks, and whether all were there. */
  function ReadChunks(b: seq<Byte>, sd: nat, count: nat, end: nat): (r: (seq<Chunk>, bool))
    requires end <= |b|
    decreases count
  {
    if count == 0 then ([], true)
    else if sd + 4 >= end then ([], false)
    else
      var (items, rsp) := ReadItems(b, sd + 4, end);
      var (rest, ok) := ReadChunks(b, sd + ((rsp - sd) / 4 + 1) * 4, count - 1, end);
      ([Chunk(b[sd..sd + 4], items)] + rest, ok)
  }

  /** sdes_update_member_info on a packet whose length field is right. */
  function Received(b: seq<Byte>): (seq<Chunk>, bool)
    requires 4 <= |b| && 4 * Words(b, 0) <= |b|
  {
    ReadChunks(b, 4, Count(b, 0), 4 * Words(b, 0))
  }

  /** One round of the item loop, behind the items read so far. */
  lemma ItemStep(b: seq<Byte>, rsp: nat, end: nat, sofar: seq<Item>)
    requires rsp < end <= |b|
    ensures b[rsp] == 0 ==> ReadItems(b, rsp, end) == ([], rsp)
    ensures b[rsp] != 0 ==>
              var rspn := rsp + 2 + if rsp + 1 < end then b[rsp + 1] else 0;
              if rspn >= end then ReadItems(b, rsp, end) == ([], rspn)
              else
                var item, rest := Item(b[rsp], b[rsp + 2..rspn]), ReadItems(b, rspn, end);
                && sofar + ReadItems(b, rsp, end).0 == sofar + [item] + rest.0
                && ReadItems(b, rsp, end).1 == rest.1
    ensures sofar + [] == sofar
  {
  }

  method ReceiveItems(buf: array<Byte>, start: nat, end: nat) returns (items: seq<Item>, rsp: nat)
    requires start < end <= buf.Length
    ensures (items, rsp) == ReadItems(buf[..], start, end)
  {
    hide ReadItems;
    ghost var b := buf[..];
    items, rsp := [], start;
    ghost var want := ReadItems(b, start, end);
    assert [] + want.0 == want.0;
    var more := true;
    ItemStep(b, rsp, end, items);
    while more && buf[rsp] != 0
      invariant rsp >= start && (more ==> rsp < end)
      invariant more ==> items + ReadItems(b, rsp, end).0 == want.0 && ReadItems(b, rsp, end).1 == want.1
      invariant more && b[rsp] == 0 ==> (items, rsp) == want
      invariant !more ==> (items, rsp) == want
      decreases end - rsp, more
    {
      ItemStep(b, rsp, end, items);
      var rspn := rsp + 2;
      if rsp + 1 < end {
        rspn := rspn + buf[rsp + 1];
      }
      if rspn >= end {
        rsp, more := rspn, false;
      } else {
        var item := Item(buf[rsp], buf[rsp + 2..rspn]);
        assert buf[rsp + 2..rspn] == b[rsp + 2..rspn];
        items, rsp := items + [item], rspn;
        ItemStep(b, rsp, end, items);
      }
    }
  }

  /** One round of the chunk loop, behind the chunks read so far. */
  lemma ChunkStep(b: seq<Byte>, sd: nat, count: nat, end: nat, sofar: seq<Chunk>)
    requires end <= |b| && count > 0
    ensures sd + 4 >= end ==> ReadChunks(b, sd, count, end) == ([], false)
    ensures sd + 4 < end ==>
              var (items, rsp) := ReadItems(b, sd + 4, end);
              var rest := ReadChunks(b, sd + ((rsp - sd) / 4 + 1) * 4, count - 1, end);
              && sofar + ReadChunks(b, sd, count, end).0 == sofar + [Chunk(b[sd..sd + 4], items)] + rest.0
              && ReadChunks(b, sd, count, end).1 == rest.1
  {
  }

  method ReceiveChunks(buf: array<Byte>, start: nat, total: nat, end: nat) returns (chunks: seq<Chunk>, ok: bool)
    requires end <= buf.Length
    ensures (chunks, ok) == ReadChunks(buf[..], start, total, end)
  {
    hide ReadItems, ReadChunks;
    ghost var b := buf[..];
    var sd: nat, count: nat := start, total;
    chunks, ok := [], true;
    ghost var want := ReadChunks(b, start, total, end);
    assert [] + want.0 == want.0;
    while count > 0 && ok
      invariant ok ==> chunks + ReadChunks(b, sd, count, end).0 == want.0 && ReadChunks(b, sd, count, end).1 == want.1
      invariant !ok ==> chunks == want.0 && !want.1
      decreases count
    {
      ChunkStep(b, sd, count, end, chunks);
      if sd + 4 >= end {
        assert chunks + [] == chunks;
        ok := false;
      } else {
        var items, rsp := ReceiveItems(buf, sd + 4, end);
        var source := buf[sd..sd + 4];
        assert source == b[sd..sd + 4];
        chunks := chunks + [Chunk(source, items)];
        sd := sd + ((rsp - sd) / 4 + 1) * 4;
      }
      count := count - 1;
    }
    if ok {
      NoChunks(b, sd, end);
      assert chunks + [] == chunks;
    }
  }

  method ReceiveSdes(buf: array<Byte>) returns (chunks: seq<Chunk>, ok: bool)
    requires 4 <= buf.Length && 4 * Words(buf[..], 0) <= buf.Length
    ensures (chunks, ok) == Received(buf[..])
  {
    var low: nat, high: nat := buf[2], buf[3];
    chunks, ok := ReceiveChunks(buf, 4, buf[0] / 8, 4 * (low + 256 * high + 1));
  }

  lemma NoChunks(b: seq<Byte>, sd: nat, end: nat)
    requires end <= |b|
    ensures ReadChunks(b, sd, 0, end) == ([], true)
  {
  }

  // ---------- The round trip ----------

  lemma {:induction false} ItemsBytesGrow(items: seq<Item>, k: nat, n: nat)
    requires k <= n <= |items| && forall j :: 0 <= j < |items| ==> |items[j].text| < 256
    ensures ItemsBytes(items, k) <= ItemsBytes(items, n)
    decreases n - k
  {
    if k < n { ItemsBytesGrow(items, k, n - 1); }
  }

  lemma {:induction false} ChunksBytesPrefix(cs: seq<Chunk>, k: nat, n: nat)
    requires k <= n <= |cs| && forall j :: 0 <= j < |cs| ==> Writable(cs[j])
    ensures ChunksBytes(cs, k) <= ChunksBytes(cs, n)
    decreases n - k
  {
    hide ChunkBytes, Writable;
    if k < n { ChunksBytesPrefix(cs, k, n - 1); }
  }

  /** b holds the bytes s at p. */
  ghost predicate HoldsAt(b: seq<Byte>, p: nat, s: seq<Byte>) {
    p + |s| <= |b| && forall j :: 0 <= j < |s| ==> b[p + j] == s[j]
  }

  lemma HoldsPart(b: seq<Byte>, p: nat, s: seq<Byte>, x: seq<Byte>, y: seq<Byte>)
    requires HoldsAt(b, p, s) && x + y <= s
    ensures HoldsAt(b, p, x) && HoldsAt(b, p + |x|, y)
  {
    assert forall j :: 0 <= j < |x| ==> s[j] == (x + y)[j] == x[j];
    assert forall j :: 0 <= j < |y| ==> s[|x| + j] == (x + y)[|x| + j] == y[j];
  }

  /** One item, and the rest as read from behind it. */
  lemma ItemReadBack(b: seq<Byte>, q: nat, i: Item, end: nat)
    requires i.kind != 0 && |i.text| < 256 && HoldsAt(b, q, ItemBytes(i)) && q + |ItemBytes(i)| < end <= |b|
    ensures var (rest, last) := ReadItems(b, q + |ItemBytes(i)|, end);
            ReadItems(b, q, end) == ([i] + rest, last)
  {
    ItemHeld(b, q, i);
  }

  lemma ItemsStep(items: seq<Item>, k: nat)
    requires k < |items| && forall j :: 0 <= j < |items| ==> |items[j].text| < 256
    ensures ItemsBytes(items, k) + ItemBytes(items[k]) == ItemsBytes(items, k + 1) <= ItemsBytes(items, |items|)
    ensures items[k..] == [items[k]] + items[k + 1..]
  {
    ItemsBytesGrow(items, k + 1, |items|);
  }

  /** The items written at p, with a null octet behind, are read back from item k on. */
  lemma {:induction false} ItemsReadBack(b: seq<Byte>, p: nat, items: seq<Item>, k: nat, end: nat)
    requires forall j :: 0 <= j < |items| ==> items[j].kind != 0 && |items[j].text| < 256
    requires k <= |items| && end <= |b|
    requires HoldsAt(b, p, ItemsBytes(items, |items|)) && p + |ItemsBytes(items, |items|)| < end
    requires b[p + |ItemsBytes(items, |items|)|] == 0
    ensures |ItemsBytes(items, k)| <= |ItemsBytes(items, |items|)|
    ensures ReadItems(b, p + |ItemsBytes(items, k)|, end) == (items[k..], p + |ItemsBytes(items, |items|)|)
    decreases |items| - k
  {
    hide ItemBytes, ItemsBytes, HoldsAt;
    if k == |items| {
      assert items[k..] == [];
    } else {
      hide ReadItems;
      ItemsStep(items, k);
      ItemsReadBack(b, p, items, k + 1, end);
      HoldsPart(b, p, ItemsBytes(items, |items|), ItemsBytes(items, k), ItemBytes(items[k]));
      ItemReadBack(b, p + |ItemsBytes(items, k)|, items[k], end);
    }
  }

  lemma ItemHeld(b: seq<Byte>, q: nat, i: Item)
    requires |i.text| < 256 && HoldsAt(b, q, ItemBytes(i))
    ensures b[q] == i.kind && b[q + 1] == |i.text| && b[q + 2..q + 2 + |i.text|] == i.text
  {
    var s := ItemBytes(i);
    assert b[q + 0] == s[0] && b[q + 1] == s[1];
    assert forall j :: 0 <= j < |i.text| ==> s[2 + j] == i.text[j] && b[q + (2 + j)] == s[2 + j];
  }

  lemma ChunkParts(b: seq<Byte>, sd: nat, c: Chunk)
    requires Writable(c) && HoldsAt(b, sd, ChunkBytes(c))
    ensures var w := ItemsBytes(c.items, |c.items|);
            && HoldsAt(b, sd, c.source) && HoldsAt(b, sd + 4, w)
            && sd + 4 + |w| < sd + |ChunkBytes(c)| && b[sd + 4 + |w|] == 0
            && |ChunkBytes(c)| == 4 + |w| + (4 - (4 + |w|) % 4)
  {
    hide ItemsBytes, HoldsAt;
    var w := ItemsBytes(c.items, |c.items|);
    var body := c.source + w;
    var nulls := Zeros(4 - |body| % 4);
    HoldsPart(b, sd, ChunkBytes(c), body, nulls);
    HoldsPart(b, sd, body, c.source, w);
    HoldsFirst(b, sd + |body|, nulls);
  }

  lemma HoldsFirst(b: seq<Byte>, p: nat, s: seq<Byte>)
    requires HoldsAt(b, p, s) && s != []
    ensures p < |b| && b[p] == s[0]
  {
    assert b[p + 0] == s[0];
  }

  lemma HoldsIs(b: seq<Byte>, p: nat, s: seq<Byte>)
    requires HoldsAt(b, p, s)
    ensures p + |s| <= |b| && b[p..p + |s|] == s
  {
  }

  /** A chunk written at a word boundary is read back, and the next one is looked for behind it. */
  lemma ChunkReadBack(b: seq<Byte>, sd: nat, c: Chunk, end: nat)
    requires Writable(c) && HoldsAt(b, sd, ChunkBytes(c)) && sd + |ChunkBytes(c)| <= end <= |b|
    ensures sd + 4 < end
    ensures var (items, rsp) := ReadItems(b, sd + 4, end);
            && Chunk(b[sd..sd + 4], items) == c
            && sd + ((rsp - sd) / 4 + 1) * 4 == sd + |ChunkBytes(c)|
  {
    ChunkParts(b, sd, c);
    hide ItemsBytes, HoldsAt, ChunkBytes, ReadItems;
    var w := ItemsBytes(c.items, |c.items|);
    HoldsIs(b, sd, c.source);
    ItemsFromStart(b, sd + 4, c.items, end);
    PadEnds(4 + |w|);
  }

  lemma ItemsFromStart(b: seq<Byte>, p: nat, items: seq<Item>, end: nat)
    requires forall j :: 0 <= j < |items| ==> items[j].kind != 0 && |items[j].text| < 256
    requires end <= |b|
    requires HoldsAt(b, p, ItemsBytes(items, |items|)) && p + |ItemsBytes(items, |items|)| < end
    requires b[p + |ItemsBytes(items, |items|)|] == 0
    ensures ReadItems(b, p, end) == (items, p + |ItemsBytes(items, |items|)|)
  {
    assert ItemsBytes(items, 0) == [];
    ItemsReadBack(b, p, items, 0, end);
  }

  lemma PadEnds(n: nat)
    ensures (n / 4 + 1) * 4 == n + (4 - n % 4)
  {
  }

  lemma NextChunk(b: seq<Byte>, sd: nat, count: nat, end: nat)
    requires end <= |b| && count > 0 && sd + 4 < end
    ensures var (items, rsp) := ReadItems(b, sd + 4, end);
            var (rest, ok) := ReadChunks(b, sd + ((rsp - sd) / 4 + 1) * 4, count - 1, end);
            ReadChunks(b, sd, count, end) == ([Chunk(b[sd..sd + 4], items)] + rest, ok)
  {
  }

  lemma ChunkHeld(b: seq<Byte>, cs: seq<Chunk>, k: nat)
    requires forall j :: 0 <= j < |cs| ==> Writable(cs[j])
    requires k < |cs| && HoldsAt(b, 4, ChunksBytes(cs, |cs|))
    ensures HoldsAt(b, 4 + |ChunksBytes(cs, k)|, ChunkBytes(cs[k]))
    ensures |ChunksBytes(cs, k)| + |ChunkBytes(cs[k])| == |ChunksBytes(cs, k + 1)| <= |ChunksBytes(cs, |cs|)|
  {
    ChunksStep(cs, k);
    ChunksBytesPrefix(cs, k + 1, |cs|);
    hide ChunksBytes, ChunkBytes, HoldsAt;
    HoldsPart(b, 4, ChunksBytes(cs, |cs|), ChunksBytes(cs, k), ChunkBytes(cs[k]));
  }

  /** The chunks written are read back, from chunk k up to chunk m. */
  lemma {:induction false} ChunksReadBack(b: seq<Byte>, cs: seq<Chunk>, k: nat, m: nat, sd: nat)
    requires forall j :: 0 <= j < |cs| ==> Writable(cs[j])
    requires k <= m <= |cs| && HoldsAt(b, 4, ChunksBytes(cs, |cs|))
    requires 4 + |ChunksBytes(cs, |cs|)| <= |b| && sd == 4 + |ChunksBytes(cs, k)|
    ensures ReadChunks(b, sd, m - k, |b|) == (cs[k..m], true)
    decreases m - k
  {
    hide ReadItems, ReadChunks, ChunkBytes, ChunksBytes, HoldsAt, Writable;
    if k < m {
      ChunkHeld(b, cs, k);
      ChunkReadBack(b, sd, cs[k], |b|);
      NextChunk(b, sd, m - k, |b|);
      ChunksReadBack(b, cs, k + 1, m, sd + |ChunkBytes(cs[k])|);
      assert cs[k..m] == [cs[k]] + cs[k + 1..m];
    } else {
      NoChunks(b, sd, |b|);
      assert cs[k..m] == [];
    }
  }

  lemma PacketFields(cs: seq<Chunk>)
    requires forall j :: 0 <= j < |cs| ==> Writable(cs[j])
    requires |Packet(cs)| <= 4 * 0x1_0000
    ensures var b := Packet(cs);
            && |b| == 4 + |ChunksBytes(cs, |cs|)| == 4 * Words(b, 0)
            && Count(b, 0) == |cs| % 32 && Version(b, 0) == VERSION
            && HoldsAt(b, 4, ChunksBytes(cs, |cs|))
  {
    hide ChunksBytes;
    HeaderFields(false, |cs|, SDES, |ChunksBytes(cs, |cs|)| / 4);
  }

  lemma ReadBack(b: seq<Byte>, cs: seq<Chunk>)
    requires forall j :: 0 <= j < |cs| ==> Writable(cs[j])
    requires HoldsAt(b, 4, ChunksBytes(cs, |cs|)) && 4 + |ChunksBytes(cs, |cs|)| == |b|
    ensures ReadChunks(b, 4, |cs| % 32, |b|) == (cs[..|cs| % 32], true)
  {
    assert |ChunksBytes(cs, 0)| == 0;
    hide ChunksBytes, ReadChunks, HoldsAt, Writable;
    var n := |cs| % 32;
    ChunksReadBack(b, cs, 0, n, 4);
    assert cs[..n] == cs[0..n];
  }

  lemma WholeIff(cs: seq<Chunk>)
    ensures cs[..|cs| % 32] == cs <==> |cs| <= 31
  {
    assert |cs[..|cs| % 32]| == |cs| % 32;
  }

  /** Whatever chunks fit a packet, the receiver finds them as they were, but only as many as the
      five bits of the count field say: all of them exactly when there are at most 31. */
  lemma ReceiverFindsChunks(cs: seq<Chunk>)
    requires forall j :: 0 <= j < |cs| ==> Writable(cs[j])
    requires |Packet(cs)| <= 4 * 0x1_0000
    ensures 4 * Words(Packet(cs), 0) == |Packet(cs)|
    ensures Received(Packet(cs)) == (cs[..|cs| % 32], true)
    ensures Received(Packet(cs)) == (cs, true) <==> |cs| <= 31
  {
    PacketFields(cs);
    hide Packet, ChunksBytes, ReadChunks, Words, Count, Version, HoldsAt, Writable;
    ReadBack(Packet(cs), cs);
    WholeIff(cs);
  }

  lemma {:induction false} BareChunks(cs: seq<Chunk>, n: nat)
    requires n <= |cs| && forall j :: 0 <= j < |cs| ==> cs[j] == Chunk([0, 0, 0, 0], [])
    ensures |ChunksBytes(cs, n)| == 8 * n
  {
    if n != 0 {
      BareChunks(cs, n - 1);
      assert |ChunkBytes(Chunk([0, 0, 0, 0], []))| == 8;
    }
  }

  /** Of 32 chunks without items the receiver finds none. */
  lemma AllChunksLost()
    ensures exists cs: seq<Chunk> ::
              && |cs| == 32 && (forall j :: 0 <= j < |cs| ==> Writable(cs[j]))
              && |Packet(cs)| == 260 && 4 * Words(Packet(cs), 0) == 260 && Received(Packet(cs)) == ([], true)
  {
    var cs := seq(32, i => Chunk([0, 0, 0, 0], []));
    BareChunks(cs, 32);
    PacketIs(cs);
    hide Packet, ChunksBytes;
    ReceiverFindsChunks(cs);
    assert cs[..0] == [];
  }

  // ---------- The check accepts what is sent ----------

  /** build_sr and build_rr: the fixed part and n report blocks. */
  predicate IsReport(sender: bool, n: nat, body: seq<Byte>) {
    n <= 31 && |body| == (if sender then 24 else 4) + 24 * n
  }

  function Report(sender: bool, n: nat, body: seq<Byte>): seq<Byte> {
    Header(false, n, if sender then SR else RR, |body| / 4) + body
  }

  lemma ReportWellFormed(sender: bool, n: nat, body: seq<Byte>)
    requires IsReport(sender, n, body)
    ensures WellFormed(Report(sender, n, body)) && FirstHeader(Report(sender, n, body))
  {
    var h := Header(false, n, if sender then SR else RR, |body| / 4);
    HeaderFields(false, n, if sender then SR else RR, |body| / 4);
    SameFields(Report(sender, n, body), 0, h);
  }

  ghost predicate IsReportPacket(p: seq<Byte>) {
    exists sender, n, body :: IsReport(sender, n, body) && p == Report(sender, n, body)
  }

  lemma ReportsWellFormed(reports: seq<seq<Byte>>)
    requires forall j :: 0 <= j < |reports| ==> IsReportPacket(reports[j])
    ensures forall j :: 0 <= j < |reports| ==> WellFormed(reports[j]) && FirstHeader(reports[j])
  {
    forall j | 0 <= j < |reports| ensures WellFormed(reports[j]) && FirstHeader(reports[j]) {
      assert IsReportPacket(reports[j]);
      var sender, n, body :| IsReport(sender, n, body) && reports[j] == Report(sender, n, body);
      ReportWellFormed(sender, n, body);
    }
  }

  lemma SdesWellFormed(cs: seq<Chunk>)
    requires forall j :: 0 <= j < |cs| ==> Writable(cs[j])
    requires |Packet(cs)| <= 4 * 0x1_0000
    ensures WellFormed(Packet(cs))
  {
    PacketFields(cs);
  }

  lemma AllWellFormed(reports: seq<seq<Byte>>, sdes: seq<Byte>)
    requires reports != [] && forall j :: 0 <= j < |reports| ==> IsReportPacket(reports[j])
    requires WellFormed(sdes)
    ensures var packets := reports + [sdes];
            (forall k :: 0 <= k < |packets| ==> WellFormed(packets[k])) && 4 <= |packets[0]| && FirstHeader(packets[0])
  {
    ReportsWellFormed(reports);
  }

  /** Any reports, the first a sender's or a receiver's like the others, followed by a source
      description of any chunks that fits its length field, pass the header check. */
  lemma SentIsAccepted(reports: seq<seq<Byte>>, cs: seq<Chunk>)
    requires reports != [] && forall j :: 0 <= j < |reports| ==> IsReportPacket(reports[j])
    requires forall j :: 0 <= j < |cs| ==> Writable(cs[j])
    requires |Packet(cs)| <= 4 * 0x1_0000
    ensures Accepted(Joined(reports, |reports|) + Packet(cs))
  {
    SdesWellFormed(cs);
    AcceptedTogether(reports, Packet(cs));
  }

  lemma AcceptedTogether(reports: seq<seq<Byte>>, sdes: seq<Byte>)
    requires reports != [] && forall j :: 0 <= j < |reports| ==> IsReportPacket(reports[j])
    requires WellFormed(sdes)
    ensures Accepted(Joined(reports, |reports|) + sdes)
  {
    hide Accepted, IsReportPacket, WellFormed, FirstHeader, Joined;
    AllWellFormed(reports, sdes);
    JoinedExtends(reports, sdes);
    AllTiled(reports + [sdes], Joined(reports, |reports|) + sdes);
  }

  lemma AllTiled(packets: seq<seq<Byte>>, b: seq<Byte>)
    requires packets != [] && forall k :: 0 <= k < |packets| ==> WellFormed(packets[k])
    requires 4 <= |packets[0]| && FirstHeader(packets[0]) && b == Joined(packets, |packets|)
    ensures Accepted(b)
  {
    hide Accepted;
    JoinedLength(packets, |packets|);
    assert b == b[..|b| / 4 * 4];
    assert Tiles(packets, b);
    AcceptedIffTiled(b);
  }
}

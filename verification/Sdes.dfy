/** Source description packets: what the sender writes, section 6.5 of RFC 3550, and what the
    receiver's loops read out of it. */
module Sdes {
  import opened Common
  import opened RtcpWire

  datatype Item = Item(kind: Byte, text: seq<Byte>)

  datatype Chunk = Chunk(source: seq<Byte>, items: seq<Item>)

  /** What a member has to say under one item type, and every how many reports (0: never). */
  datatype Entry = Entry(interval: nat, text: seq<Byte>)

  datatype Member = Member(source: seq<Byte>, entries: seq<Entry>)

  predicate Sendable(m: Member) {
    |m.source| == 4 && |m.entries| == 9
  }

  /** The length octet holds 8 bits, and as many bytes of the text are copied. */
  function Cut(text: seq<Byte>): (t: seq<Byte>)
    ensures |t| < 256
  {
    text[..|text| % 256]
  }

  predicate Chosen(e: Entry, number: nat) {
    e.interval != 0 && number % e.interval == 0 && |e.text| != 0
  }

  /** The items of types 1 to n - 1 that are due in report number. */
  function ItemsOf(m: Member, number: nat, n: nat): seq<Item>
    requires Sendable(m) && 1 <= n <= 9
  {
    if n == 1 then []
    else if Chosen(m.entries[n - 1], number) then
      ItemsOf(m, number, n - 1) + [Item(n - 1, Cut(m.entries[n - 1].text))]
    else ItemsOf(m, number, n - 1)
  }

  function ChunkOf(m: Member, number: nat): Chunk
    requires Sendable(m)
  {
    Chunk(m.source, ItemsOf(m, number, 9))
  }

  predicate Writable(c: Chunk) {
    |c.source| == 4 && forall j :: 0 <= j < |c.items| ==> c.items[j].kind != 0 && |c.items[j].text| < 256
  }

  function ItemBytes(i: Item): (b: seq<Byte>)
    requires |i.text| < 256
    ensures |b| == |i.text| + 2
  {
    [i.kind, |i.text|] + i.text
  }

  /** The first n items. */
  function ItemsBytes(items: seq<Item>, n: nat): (b: seq<Byte>)
    requires n <= |items| && forall j :: 0 <= j < |items| ==> |items[j].text| < 256
  {
    if n == 0 then [] else ItemsBytes(items, n - 1) + ItemBytes(items[n - 1])
  }

  /** One to four null octets, up to the next word. */
  function ChunkBytes(c: Chunk): (b: seq<Byte>)
    requires Writable(c)
    ensures |b| % 4 == 0
  {
    var body := c.source + ItemsBytes(c.items, |c.items|);
    body + Zeros(4 - |body| % 4)
  }

  function ChunksBytes(cs: seq<Chunk>, n: nat): (b: seq<Byte>)
    requires n <= |cs| && forall j :: 0 <= j < |cs| ==> Writable(cs[j])
    ensures |b| % 4 == 0
  {
    hide ChunkBytes, Writable;
    if n == 0 then [] else ChunksBytes(cs, n - 1) + ChunkBytes(cs[n - 1])
  }

  /** build_sdes: the count and length fields take what fits them. */
  function Packet(cs: seq<Chunk>): (b: seq<Byte>)
    requires forall j :: 0 <= j < |cs| ==> Writable(cs[j])
    ensures |b| % 4 == 0 && |b| >= 4
  {
    var body := ChunksBytes(cs, |cs|);
    Header(false, |cs|, SDES, |body| / 4) + body
  }

  lemma {:induction false} ItemsWritable(m: Member, number: nat, n: nat)
    requires Sendable(m) && 1 <= n <= 9
    ensures forall j :: 0 <= j < |ItemsOf(m, number, n)| ==>
              ItemsOf(m, number, n)[j].kind != 0 && |ItemsOf(m, number, n)[j].text| < 256
  {
    if n > 1 { ItemsWritable(m, number, n - 1); }
  }

  /** In report number a member says its name, tool and so on, type k, exactly if it has a text for it
      and its interval is not zero and divides number. */
  predicate Says(m: Member, number: nat, k: nat)
    requires Sendable(m)
  {
    1 <= k < 9 && m.entries[k].interval > 0 && number % m.entries[k].interval == 0 && m.entries[k].text != []
  }

  ghost predicate Ascending(items: seq<Item>) {
    forall i, j :: 0 <= i < j < |items| ==> items[i].kind < items[j].kind
  }

  lemma AscendingOn(items: seq<Item>, last: Item)
    requires Ascending(items) && forall i :: 0 <= i < |items| ==> items[i].kind < last.kind
    ensures Ascending(items + [last])
  {
    var more := items + [last];
    forall i, j | 0 <= i < j < |more| ensures more[i].kind < more[j].kind {
      assert more[i] == items[i];
      if j < |items| {
        assert more[j] == items[j];
        assert items[i].kind < items[j].kind;
      }
    }
  }

  /** An item of a type below n that is due, with its text up to the length modulo 256. */
  ghost predicate IsSaid(m: Member, number: nat, n: nat, item: Item)
    requires Sendable(m)
  {
    var k: nat := item.kind;
    k < n && Says(m, number, k) && item.text == m.entries[k].text[..|m.entries[k].text| % 256]
  }

  ghost predicate HasKind(items: seq<Item>, k: nat) {
    exists i :: 0 <= i < |items| && items[i].kind == k
  }

  /** The items are those types, each once, in ascending order. */
  lemma {:induction false} ItemsAreSaid(m: Member, number: nat, n: nat)
    requires Sendable(m) && 1 <= n <= 9
    ensures Ascending(ItemsOf(m, number, n))
    ensures forall i :: 0 <= i < |ItemsOf(m, number, n)| ==> IsSaid(m, number, n, ItemsOf(m, number, n)[i])
    ensures forall k :: 1 <= k < n && Says(m, number, k) ==> HasKind(ItemsOf(m, number, n), k)
  {
    if n > 1 {
      ItemsAreSaid(m, number, n - 1);
      var less := ItemsOf(m, number, n - 1);
      if Says(m, number, n - 1) {
        var last := Item(n - 1, Cut(m.entries[n - 1].text));
        forall i | 0 <= i < |less| ensures less[i].kind < last.kind {
          assert IsSaid(m, number, n - 1, less[i]);
        }
        AscendingOn(less, last);
        forall k | 1 <= k < n && Says(m, number, k) ensures HasKind(less + [last], k) {
          HasKindOn(less, last, k);
        }
      }
    }
  }

  lemma HasKindOn(items: seq<Item>, last: Item, k: nat)
    ensures HasKind(items + [last], k) <==> HasKind(items, k) || last.kind == k
  {
    assert forall i :: 0 <= i < |items| ==> (items + [last])[i] == items[i];
    assert (items + [last])[|items|] == last;
  }

  /** A chunk as section 6.5 of RFC 3550 draws it: source 1.2.3.4 with the name "ab". */
  lemma ChunkAsTheStandard()
    ensures var c := Chunk([1, 2, 3, 4], [Item(1, [97, 98])]);
            Writable(c) && ChunkBytes(c) == [1, 2, 3, 4, 1, 2, 97, 98, 0, 0, 0, 0]
  {
    var c := Chunk([1, 2, 3, 4], [Item(1, [97, 98])]);
    assert ItemsBytes(c.items, 0) == [];
    assert ItemsBytes(c.items, 1) == [1, 2, 97, 98];
    assert Zeros(4) == [0, 0, 0, 0];
  }

  // ---------- Writing ----------

  /** memcpy to the place at, as far as the bytes go. */
  method Copy(buf: array<Byte>, at: nat, bytes: seq<Byte>)
    requires at + |bytes| <= buf.Length
    modifies buf
    ensures buf[..at + |bytes|] == old(buf[..at]) + bytes
  {
    forall k | 0 <= k < |bytes| { buf[at + k] := bytes[k]; }
  }

  /** The bytes of the items of types 1 to n - 1 that are due. */
  function BytesOf(m: Member, number: nat, n: nat): seq<Byte>
    requires Sendable(m) && 1 <= n <= 9
  {
    ItemsWritable(m, number, n);
    ItemsBytes(ItemsOf(m, number, n), |ItemsOf(m, number, n)|)
  }

  lemma {:induction false} ItemsBytesPrefix(a: seq<Item>, b: seq<Item>, k: nat)
    requires forall j :: 0 <= j < |a| ==> |a[j].text| < 256
    requires forall j :: 0 <= j < |b| ==> |b[j].text| < 256
    requires k <= |a| && k <= |b| && forall j :: 0 <= j < k ==> a[j] == b[j]
    ensures ItemsBytes(a, k) == ItemsBytes(b, k)
  {
    if k != 0 { ItemsBytesPrefix(a, b, k - 1); }
  }

  lemma BytesStep(m: Member, number: nat, n: nat)
    requires Sendable(m) && 1 <= n < 9
    ensures BytesOf(m, number, n + 1)
            == if Chosen(m.entries[n], number) then BytesOf(m, number, n) + ItemBytes(Item(n, Cut(m.entries[n].text)))
               else BytesOf(m, number, n)
  {
    ItemsWritable(m, number, n);
    ItemsWritable(m, number, n + 1);
    var a, b := ItemsOf(m, number, n), ItemsOf(m, number, n + 1);
    ItemsBytesPrefix(a, b, |a|);
  }

  lemma {:induction false} BytesGrow(m: Member, number: nat, n: nat)
    requires Sendable(m) && 1 <= n <= 9
    ensures |BytesOf(m, number, n)| <= |BytesOf(m, number, 9)|
    decreases 9 - n
  {
    if n < 9 {
      BytesStep(m, number, n);
      BytesGrow(m, number, n + 1);
    }
  }

  lemma ChunkIs(m: Member, number: nat)
    requires Sendable(m)
    ensures Writable(ChunkOf(m, number))
    ensures var body := m.source + BytesOf(m, number, 9);
            ChunkBytes(ChunkOf(m, number)) == body + Zeros(4 - |body| % 4)
  {
    ItemsWritable(m, number, 9);
  }

  /** The source and the items that are due, behind at. */
  method WriteItems(buf: array<Byte>, at: nat, m: Member, number: nat) returns (rsp: nat)
    requires Sendable(m) && at + 4 + |BytesOf(m, number, 9)| <= buf.Length
    modifies buf
    ensures rsp == at + 4 + |BytesOf(m, number, 9)|
    ensures buf[..rsp] == old(buf[..at]) + m.source + BytesOf(m, number, 9)
  {
    hide BytesOf, ItemBytes;
    ghost var before := buf[..at];
    BytesStart(m, number);
    Copy(buf, at, m.source);
    rsp := at + 4;
    var i := 1;
    while i < 9
      invariant 1 <= i <= 9
      invariant rsp == at + 4 + |BytesOf(m, number, i)|
      invariant rsp <= buf.Length && buf[..rsp] == before + m.source + BytesOf(m, number, i)
    {
      BytesStep(m, number, i);
      BytesGrow(m, number, i + 1);
      if m.entries[i].interval != 0 && number % m.entries[i].interval == 0 {
        if |m.entries[i].text| != 0 {
          ghost var sofar := buf[..rsp];
          var bytes := ItemBytes(Item(i, Cut(m.entries[i].text)));
          Copy(buf, rsp, bytes);
          rsp := rsp + |bytes|;
        }
      }
      i := i + 1;
    }
  }

  lemma BytesStart(m: Member, number: nat)
    requires Sendable(m)
    ensures BytesOf(m, number, 1) == []
  {
  }

  /** One chunk behind at: the source, the items that are due, the null octets. */
  method WriteChunk(buf: array<Byte>, at: nat, m: Member, number: nat) returns (ptr: nat)
    requires Sendable(m) && Writable(ChunkOf(m, number))
    requires at + |ChunkBytes(ChunkOf(m, number))| <= buf.Length
    modifies buf
    ensures ptr == at + |ChunkBytes(ChunkOf(m, number))|
    ensures buf[..ptr] == old(buf[..at]) + ChunkBytes(ChunkOf(m, number))
    ensures var items := at + 4 + |BytesOf(m, number, 9)|;
            (ptr - at) % 4 == 0 && 1 <= ptr - items <= 4 && forall k :: items <= k < ptr ==> buf[k] == 0
  {
    hide BytesOf, ChunkBytes, ChunkOf;
    ghost var before := buf[..at];
    ChunkIs(m, number);
    var rsp := WriteItems(buf, at, m, number);
    var len := rsp - at;
    var pad := 4 - len % 4;
    Copy(buf, rsp, Zeros(pad));
    ptr := rsp + pad;
    ghost var body := m.source + BytesOf(m, number, 9);
    assert buf[..ptr] == before + (body + Zeros(pad));
    assert forall k :: rsp <= k < ptr ==> buf[k] == buf[..ptr][k] == Zeros(pad)[k - rsp];
  }

  function Chunks(ms: seq<Member>, number: nat): (cs: seq<Chunk>)
    requires forall j :: 0 <= j < |ms| ==> Sendable(ms[j])
    ensures |cs| == |ms| && forall j :: 0 <= j < |cs| ==> Writable(cs[j]) && cs[j] == ChunkOf(ms[j], number)
  {
    if ms == [] then []
    else (ChunkIs(ms[|ms| - 1], number); Chunks(ms[..|ms| - 1], number) + [ChunkOf(ms[|ms| - 1], number)])
  }

  lemma {:induction false} ChunksBytesGrow(cs: seq<Chunk>, n: nat)
    requires n <= |cs| && forall j :: 0 <= j < |cs| ==> Writable(cs[j])
    ensures |ChunksBytes(cs, n)| <= |ChunksBytes(cs, |cs|)|
    decreases |cs| - n
  {
    hide ChunkBytes, Writable;
    if n < |cs| { ChunksBytesGrow(cs, n + 1); }
  }

  /** Fill in a header in front of what is already written. */
  method PutHeader(buf: array<Byte>, at: nat, header: seq<Byte>, end: nat)
    requires |header| == 4 && at + 4 <= end <= buf.Length
    modifies buf
    ensures buf[..end] == old(buf[..at]) + (header + old(buf[..end][at + 4..]))
  {
    forall k | 0 <= k < 4 { buf[at + k] := header[k]; }
  }

  lemma ChunksStep(cs: seq<Chunk>, n: nat)
    requires n < |cs| && forall j :: 0 <= j < |cs| ==> Writable(cs[j])
    ensures ChunksBytes(cs, 0) == []
    ensures ChunksBytes(cs, n + 1) == ChunksBytes(cs, n) + ChunkBytes(cs[n])
    ensures |ChunksBytes(cs, n + 1)| <= |ChunksBytes(cs, |cs|)|
  {
    ChunksBytesGrow(cs, n + 1);
  }

  lemma PacketIs(cs: seq<Chunk>)
    requires forall j :: 0 <= j < |cs| ==> Writable(cs[j])
    ensures Packet(cs) == Header(false, |cs|, SDES, |ChunksBytes(cs, |cs|)| / 4) + ChunksBytes(cs, |cs|)
  {
  }

  /** The chunks of the members, behind at. */
  method WriteChunks(buf: array<Byte>, at: nat, ms: seq<Member>, number: nat) returns (ptr: nat)
    requires ms != [] && forall j :: 0 <= j < |ms| ==> Sendable(ms[j])
    requires at + |ChunksBytes(Chunks(ms, number), |ms|)| <= buf.Length
    modifies buf
    ensures ptr == at + |ChunksBytes(Chunks(ms, number), |ms|)|
    ensures buf[..ptr] == old(buf[..at]) + ChunksBytes(Chunks(ms, number), |ms|)
  {
    hide ChunkBytes, ChunkOf, Writable, ChunksBytes;
    ghost var cs := Chunks(ms, number);
    ptr := at;
    var num := 0;
    ghost var fixed := buf[..at];
    ChunksStep(cs, 0);
    while num < |ms|
      invariant num <= |ms| && ptr == at + |ChunksBytes(cs, num)| <= buf.Length
      invariant buf[..ptr] == fixed + ChunksBytes(cs, num)
    {
      ChunksStep(cs, num);
      ptr := WriteChunk(buf, ptr, ms[num], number);
      num := num + 1;
    }
  }

  // The answers of build_sdes.
  const OK := 0
  const NO_SEND_SDES_LIST := -26

  /** build_sdes, behind at: the chunks first, the header last; nothing without a list of members. */
  method BuildSdes(buf: array<Byte>, at: nat, ms: seq<Member>, number: nat, rtcplen: nat)
    returns (err: int, end: nat, total: nat)
    requires forall j :: 0 <= j < |ms| ==> Sendable(ms[j])
    requires at + (if ms == [] then 0 else |Packet(Chunks(ms, number))|) <= buf.Length
    modifies buf
    ensures err == if ms == [] then NO_SEND_SDES_LIST else OK
    ensures ms == [] ==> end == at && total == rtcplen && buf[..] == old(buf[..])
    ensures ms != [] ==>
              && end == at + |Packet(Chunks(ms, number))| && total == rtcplen + (end - at)
              && buf[..end] == old(buf[..at]) + Packet(Chunks(ms, number))
  {
    hide Chunks, Packet, Writable, ChunksBytes, Header;
    if ms == [] {
      return NO_SEND_SDES_LIST, at, rtcplen;
    }
    ghost var cs := Chunks(ms, number);
    PacketIs(cs);
    ghost var before, body := buf[..at + 4], ChunksBytes(cs, |ms|);
    assert before[..at] == buf[..at];
    end := WriteChunks(buf, at + 4, ms, number);
    ghost var whole := buf[..end];
    assert buf[..at] == whole[..at];
    Behind(whole, before, body, at);
    err, total := OK, rtcplen + (end - at);
    PutHeader(buf, at, Header(false, |ms|, SDES, (end - at) / 4 - 1), end);
  }

  lemma Behind(whole: seq<Byte>, front: seq<Byte>, back: seq<Byte>, at: nat)
    requires whole == front + back && at <= |front|
    ensures whole[|front|..] == back && whole[..at] == front[..at]
  {
  }
}

/** The length of a whole RTCP packet, reports and source description, against the buffer it is built
    in: what the library sets aside for the source description is the length of the texts alone. */
module Compound {
  import opened Common
  import ReportRing
  import opened RtcpWire
  import opened Sdes
  import SdesReceiver
  import RtcpReader

  const RTCP_MAX_PKT_SIZE := 1460

  /** get_sdes_len for one member: the texts of the types below n that are due. */
  function TextRoom(m: Member, number: nat, n: nat): nat
    requires Sendable(m) && 1 <= n <= 9
  {
    if n == 1 then 0
    else TextRoom(m, number, n - 1) + (if Chosen(m.entries[n - 1], number) then |m.entries[n - 1].text| else 0)
  }

  /** And for the first k of a list. */
  function Reserved(ms: seq<Member>, number: nat, k: nat): nat
    requires k <= |ms| && forall j :: 0 <= j < |ms| ==> Sendable(ms[j])
  {
    if k == 0 then 0 else Reserved(ms, number, k - 1) + TextRoom(ms[k - 1], number, 9)
  }

  method GetSdesLen(ms: seq<Member>, number: nat) returns (len: nat)
    requires forall j :: 0 <= j < |ms| ==> Sendable(ms[j])
    ensures len == Reserved(ms, number, |ms|)
  {
    len := 0;
    for k := 0 to |ms|
      invariant len == Reserved(ms, number, k)
    {
      var entries, i := ms[k].entries, 1;
      while i < 9
        invariant 1 <= i <= 9 && len == Reserved(ms, number, k) + TextRoom(ms[k], number, i)
      {
        if entries[i].interval != 0 && number % entries[i].interval == 0 {
          len := len + |entries[i].text|;
        }
        i := i + 1;
      }
    }
  }

  lemma NoneReserved(number: nat)
    ensures Reserved([], number, 0) == 0
  {
  }

  // ---------- What is not set aside ----------

  predicate ShortTexts(m: Member) {
    forall j :: 0 <= j < |m.entries| ==> |m.entries[j].text| < 256
  }

  lemma CutWhole(text: seq<Byte>)
    requires |text| < 256
    ensures Cut(text) == text
  {
  }

  /** Two octets for every item. */
  lemma {:induction false} ItemsTake(m: Member, number: nat, n: nat)
    requires Sendable(m) && ShortTexts(m) && 1 <= n <= 9
    ensures |BytesOf(m, number, n)| == TextRoom(m, number, n) + 2 * |ItemsOf(m, number, n)|
    ensures |ItemsOf(m, number, n)| <= n - 1
  {
    hide BytesOf, Cut, Chosen;
    if n == 1 {
      BytesStart(m, number);
    } else {
      ItemsTake(m, number, n - 1);
      CutWhole(m.entries[n - 1].text);
      BytesStep(m, number, n - 1);
    }
  }

  /** A chunk takes its source, two octets for every item and one to four null octets more. */
  lemma ChunkTakes(m: Member, number: nat)
    requires Sendable(m) && ShortTexts(m)
    ensures Writable(ChunkOf(m, number))
    ensures var more := |ChunkBytes(ChunkOf(m, number))| - TextRoom(m, number, 9);
            && 1 <= more - (4 + 2 * |ItemsOf(m, number, 9)|) <= 4
            && 5 <= more <= 24
  {
    hide BytesOf, ChunkBytes, ChunkOf, Writable;
    ChunkIs(m, number);
    ItemsTake(m, number, 9);
  }

  lemma {:induction false} ChunksTake(ms: seq<Member>, number: nat, k: nat)
    requires k <= |ms| && forall j :: 0 <= j < |ms| ==> Sendable(ms[j]) && ShortTexts(ms[j])
    ensures 5 * k <= |ChunksBytes(Chunks(ms, number), k)| - Reserved(ms, number, k) <= 24 * k
  {
    hide ChunkBytes, ChunkOf, Writable;
    if k > 0 {
      ChunksTake(ms, number, k - 1);
      ChunkTakes(ms[k - 1], number);
    }
  }

  /** What a source description takes beyond the room set aside for it. */
  function Beyond(ms: seq<Member>, number: nat): int
    requires forall j :: 0 <= j < |ms| ==> Sendable(ms[j])
  {
    if ms == [] then 0 else |Packet(Chunks(ms, number))| - Reserved(ms, number, |ms|)
  }

  /** With texts that fit their length octet it is the header and from 5 to 24 bytes for every member. */
  lemma BeyondBounds(ms: seq<Member>, number: nat)
    requires forall j :: 0 <= j < |ms| ==> Sendable(ms[j]) && ShortTexts(ms[j])
    ensures ms != [] ==> 4 + 5 * |ms| <= Beyond(ms, number) <= 4 + 24 * |ms|
  {
    hide ChunksBytes, Writable;
    ChunksTake(ms, number, |ms|);
  }

  // ---------- The length of the whole packet ----------

  function Fixed(sender: bool): nat {
    if sender then 28 else 8
  }

  /** The room for report blocks. */
  function Room(sender: bool, ms: seq<Member>, number: nat): int
    requires forall j :: 0 <= j < |ms| ==> Sendable(ms[j])
  {
    RTCP_MAX_PKT_SIZE - Reserved(ms, number, |ms|) - Fixed(sender)
  }

  predicate Enough(sender: bool, room: int) {
    room >= if sender then ReportRing.BLOCK else 0
  }

  /** The packet that reports the sources s, from the session's place once round its list. */
  function RtcpLength(s: seq<nat>, own: nat, sender: bool, ms: seq<Member>, number: nat): nat
    requires forall j :: 0 <= j < |ms| ==> Sendable(ms[j])
  {
    Fixed(sender) + ReportRing.BlockBytes(s, own, Room(sender, ms, number))
    + if ms == [] then 0 else |Packet(Chunks(ms, number))|
  }

  /** It passes the buffer exactly when the room left by the blocks is less than what the source
      description takes beyond its reserve. */
  lemma PassesIff(s: seq<nat>, own: nat, sender: bool, ms: seq<Member>, number: nat)
    requires forall j :: 0 <= j < |ms| ==> Sendable(ms[j])
    ensures RtcpLength(s, own, sender, ms, number) > RTCP_MAX_PKT_SIZE
            <==> Room(sender, ms, number) - ReportRing.BlockBytes(s, own, Room(sender, ms, number)) < Beyond(ms, number)
  {
  }

  /** With up to 31 others and room for a block: when the rest of the room behind as many blocks as
      there are others, or as fit, is less than that. */
  lemma FewSourcesPassIff(s: seq<nat>, own: nat, sender: bool, ms: seq<Member>, number: nat)
    requires forall j :: 0 <= j < |ms| ==> Sendable(ms[j])
    requires ReportRing.Distinct(s) && |ReportRing.Others(s, own, |s|)| <= 31 && Room(sender, ms, number) >= 24
    ensures var n, room := |ReportRing.Others(s, own, |s|)|, Room(sender, ms, number);
            RtcpLength(s, own, sender, ms, number) > RTCP_MAX_PKT_SIZE
            <==> (if n <= room / 24 then room - 24 * n else room % 24) < Beyond(ms, number)
  {
    ReportRing.FewOthers(s, own, Room(sender, ms, number));
  }

  /** Without room for a block: at once if a source other than our own comes first, else when the room
      is less than that. */
  lemma NoRoomPassIff(s: seq<nat>, own: nat, ms: seq<Member>, number: nat)
    requires ms != [] && forall j :: 0 <= j < |ms| ==> Sendable(ms[j]) && ShortTexts(ms[j])
    requires 0 <= Room(false, ms, number) < 24
    ensures RtcpLength(s, own, false, ms, number) > RTCP_MAX_PKT_SIZE
            <==> (s != [] && s[0] != own) || Room(false, ms, number) < Beyond(ms, number)
  {
    BeyondBounds(ms, number);
  }

  /** When there are as many others as the room can hold, a packet that describes four members or more
      never fits. */
  lemma FullNeverFits(s: seq<nat>, own: nat, sender: bool, ms: seq<Member>, number: nat)
    requires |ms| >= 4 && forall j :: 0 <= j < |ms| ==> Sendable(ms[j]) && ShortTexts(ms[j])
    requires ReportRing.Distinct(s) && |ReportRing.Others(s, own, |s|)| <= 31 && Room(sender, ms, number) >= 24
    requires |ReportRing.Others(s, own, |s|)| >= Room(sender, ms, number) / 24
    ensures RtcpLength(s, own, sender, ms, number) > RTCP_MAX_PKT_SIZE
  {
    FewSourcesPassIff(s, own, sender, ms, number);
    BeyondBounds(ms, number);
  }

  // ---------- Inputs that pass ----------

  /** A member that sends six texts of the given lengths in every report. */
  function Speaker(lengths: seq<nat>): (m: Member)
    requires |lengths| == 6
    ensures Sendable(m)
  {
    Member([0, 0, 0, 0], seq(9, i => if 1 <= i <= 6 then Entry(1, Zeros(lengths[i - 1])) else Entry(0, [])))
  }

  lemma SpeakerRoom(lengths: seq<nat>, number: nat)
    requires |lengths| == 6 && forall i :: 0 <= i < 6 ==> lengths[i] < 256
    ensures ShortTexts(Speaker(lengths))
    ensures Reserved([Speaker(lengths)], number, 1)
            == lengths[0] + lengths[1] + lengths[2] + lengths[3] + lengths[4] + lengths[5]
  {
    var m := Speaker(lengths);
    assert TextRoom(m, number, 1) == 0;
    assert TextRoom(m, number, 2) == lengths[0];
    assert TextRoom(m, number, 3) == TextRoom(m, number, 2) + lengths[1];
    assert TextRoom(m, number, 4) == TextRoom(m, number, 3) + lengths[2];
    assert TextRoom(m, number, 5) == TextRoom(m, number, 4) + lengths[3];
    assert TextRoom(m, number, 6) == TextRoom(m, number, 5) + lengths[4];
    assert TextRoom(m, number, 7) == TextRoom(m, number, 6) + lengths[5];
    assert TextRoom(m, number, 8) == TextRoom(m, number, 7);
    assert TextRoom(m, number, 9) == TextRoom(m, number, 8);
    assert Reserved([m], number, 0) == 0;
  }

  /** No sources and six texts of 242 bytes: the report just fits, the description does not. */
  lemma TextsPass(number: nat)
    ensures var ms := [Speaker([242, 242, 242, 242, 242, 242])];
            Room(false, ms, number) == 0 && RtcpLength([], 1, false, ms, number) > RTCP_MAX_PKT_SIZE
  {
    var lengths := [242, 242, 242, 242, 242, 242];
    SpeakerRoom(lengths, number);
    NoRoomPassIff([], 1, [Speaker(lengths)], number);
    BeyondBounds([Speaker(lengths)], number);
  }

  /** One other source and 20 bytes of room: its block alone passes the buffer less the reserve. */
  lemma BlockPasses(number: nat)
    ensures var ms := [Speaker([232, 240, 240, 240, 240, 240])];
            && Room(false, ms, number) == 20 && ReportRing.BlockBytes([7], 1, 20) == 24
            && |ReportRing.Blocks([7], 1, 0, 0, 20)| == 1
            && RtcpLength([7], 1, false, ms, number) > RTCP_MAX_PKT_SIZE
  {
    var lengths := [232, 240, 240, 240, 240, 240];
    SpeakerRoom(lengths, number);
    NoRoomPassIff([7], 1, [Speaker(lengths)], number);
    ReportRing.OverrunsIff([7], 1, 0, 0, 20);
    ReportRing.BlocksAre([7], 1, 0, 20);
  }

  // ---------- The whole packet ----------

  /** What a report says beside its header: the sender's or receiver's own part, 24 or 4 bytes, and the
      24 bytes of the block for each source. */
  datatype Contents = Contents(senderInfo: seq<Byte>, ssrc: seq<Byte>, block: nat -> seq<Byte>)

  ghost predicate Proper(c: Contents) {
    |c.senderInfo| == 24 && |c.ssrc| == 4 && forall x :: |c.block(x)| == 24
  }

  /** The own part and the first k blocks. */
  ghost function Body(c: Contents, sender: bool, xs: seq<nat>, k: nat): (b: seq<Byte>)
    requires Proper(c) && k <= |xs|
    ensures |b| == (if sender then 24 else 4) + 24 * k
  {
    if k == 0 then if sender then c.senderInfo else c.ssrc
    else Body(c, sender, xs, k - 1) + c.block(xs[k - 1])
  }

  ghost function ReportBytes(c: Contents, sender: bool, xs: seq<nat>): (b: seq<Byte>)
    requires Proper(c)
    ensures |b| == Fixed(sender) + 24 * |xs|
  {
    SdesReceiver.Report(sender, |xs|, Body(c, sender, xs, |xs|))
  }

  /** The first k reports; only the first of all may be a sender's. */
  ghost function ReportPackets(c: Contents, sender: bool, reports: seq<seq<nat>>, k: nat): (ps: seq<seq<Byte>>)
    requires Proper(c) && k <= |reports|
    ensures |ps| == k
  {
    if k == 0 then []
    else ReportPackets(c, sender, reports, k - 1) + [ReportBytes(c, sender && k == 1, reports[k - 1])]
  }

  lemma BodyNext(c: Contents, sender: bool, xs: seq<nat>)
    requires Proper(c)
    ensures |c.senderInfo| == 24 && |c.ssrc| == 4
    ensures Body(c, sender, xs, 0) == if sender then c.senderInfo else c.ssrc
    ensures forall k :: 0 <= k < |xs| ==>
              |c.block(xs[k])| == 24 && Body(c, sender, xs, k + 1) == Body(c, sender, xs, k) + c.block(xs[k])
  {
  }

  /** The own part and the blocks, behind the place of the header. */
  method WriteBody(buf: array<Byte>, at: nat, c: Contents, sender: bool, xs: seq<nat>) returns (end: nat)
    requires Proper(c) && at + Fixed(sender) + 24 * |xs| <= buf.Length
    modifies buf
    ensures end == at + Fixed(sender) + 24 * |xs|
    ensures buf[..end] == old(buf[..at + 4]) + Body(c, sender, xs, |xs|)
  {
    hide Proper, Body;
    BodyNext(c, sender, xs);
    ghost var before := buf[..at + 4];
    Copy(buf, at + 4, if sender then c.senderInfo else c.ssrc);
    end := at + Fixed(sender);
    for index := 0 to |xs|
      invariant end == at + Fixed(sender) + 24 * index
      invariant buf[..end] == before + Body(c, sender, xs, index)
    {
      Copy(buf, end, c.block(xs[index]));
      end := end + 24;
    }
  }

  /** One report behind at: the own part, the blocks, the header last. */
  method WriteReport(buf: array<Byte>, at: nat, c: Contents, sender: bool, xs: seq<nat>) returns (end: nat)
    requires Proper(c) && at + Fixed(sender) + 24 * |xs| <= buf.Length
    modifies buf
    ensures end == at + Fixed(sender) + 24 * |xs|
    ensures buf[..end] == old(buf[..at]) + ReportBytes(c, sender, xs)
  {
    hide Header, Proper, Body;
    ghost var before := buf[..at + 4];
    assert before[..at] == buf[..at];
    end := WriteBody(buf, at, c, sender, xs);
    ghost var whole := buf[..end];
    assert buf[..at] == whole[..at];
    Behind(whole, before, Body(c, sender, xs, |xs|), at);
    PutHeader(buf, at, Header(false, |xs|, if sender then SR else RR, (end - at) / 4 - 1), end);
  }

  lemma ReportPacketsNext(c: Contents, sender: bool, reports: seq<seq<nat>>, k: nat)
    requires Proper(c) && k < |reports|
    ensures var report := ReportBytes(c, sender && k == 0, reports[k]);
            Joined(ReportPackets(c, sender, reports, k + 1), k + 1)
            == Joined(ReportPackets(c, sender, reports, k), k) + report
  {
    JoinedExtends(ReportPackets(c, sender, reports, k), ReportBytes(c, sender && k == 0, reports[k]));
  }

  lemma {:induction false} ReportsLength(c: Contents, sender: bool, reports: seq<seq<nat>>, k: nat)
    requires Proper(c) && k <= |reports|
    ensures |Joined(ReportPackets(c, sender, reports, k), k)| == ReportRing.Written(sender, reports[..k])
  {
    if k == 0 {
      ReportRing.NoReports(sender);
      assert reports[..0] == [];
    } else {
      hide Joined, ReportPackets, ReportRing.Written, Proper, ReportBytes;
      var front, xs := reports[..k - 1], reports[k - 1];
      assert reports[..k] == front + [xs];
      FirstOnly(sender, reports, k - 1);
      ReportsLength(c, sender, reports, k - 1);
      ReportPacketsNext(c, sender, reports, k - 1);
      ReportRing.WrittenMore(sender, front, xs);
      var report := ReportBytes(c, sender && k - 1 == 0, xs);
      assert |report| == (if front == [] && sender then 28 else 8) + 24 * |xs|;
    }
  }

  lemma FirstOnly(sender: bool, reports: seq<seq<nat>>, k: nat)
    requires k < |reports|
    ensures reports[..k] == [] <==> k == 0
    ensures Fixed(sender && k == 0) == if reports[..k] == [] && sender then 28 else 8
  {
  }

  /** The reports one behind the other. */
  method WriteReports(buf: array<Byte>, c: Contents, sender: bool, reports: seq<seq<nat>>) returns (end: nat)
    requires Proper(c) && ReportRing.Written(sender, reports) <= buf.Length
    modifies buf
    ensures end == ReportRing.Written(sender, reports)
    ensures buf[..end] == Joined(ReportPackets(c, sender, reports, |reports|), |reports|)
  {
    hide Proper, ReportBytes, ReportPackets, ReportRing.Written, Joined;
    end := 0;
    ReportsLength(c, sender, reports, 0);
    ReportRing.NoReports(sender);
    assert reports[..0] == [];
    for k := 0 to |reports|
      invariant end == ReportRing.Written(sender, reports[..k])
      invariant end == |Joined(ReportPackets(c, sender, reports, k), k)| <= buf.Length
      invariant buf[..end] == Joined(ReportPackets(c, sender, reports, k), k)
    {
      ReportsLength(c, sender, reports, k + 1);
      ReportPacketsNext(c, sender, reports, k);
      WrittenWithin(sender, reports, k + 1);
      end := WriteReport(buf, end, c, sender && k == 0, reports[k]);
    }
    assert reports[..|reports|] == reports;
  }

  lemma {:induction false} WrittenWithin(sender: bool, reports: seq<seq<nat>>, k: nat)
    requires k <= |reports|
    ensures ReportRing.Written(sender, reports[..k]) <= ReportRing.Written(sender, reports)
    decreases |reports| - k
  {
    if k == |reports| {
      assert reports[..k] == reports;
    } else {
      WrittenWithin(sender, reports, k + 1);
      ReportRing.WrittenMore(sender, reports[..k], reports[k]);
      assert reports[..k + 1] == reports[..k] + [reports[k]];
    }
  }

  lemma {:induction false} ReportsAreReports(c: Contents, sender: bool, reports: seq<seq<nat>>, k: nat)
    requires Proper(c) && k <= |reports| && forall j :: 0 <= j < |reports| ==> |reports[j]| <= 31
    ensures forall j :: 0 <= j < k ==> SdesReceiver.IsReportPacket(ReportPackets(c, sender, reports, k)[j])
  {
    if k != 0 {
      ReportsAreReports(c, sender, reports, k - 1);
      var first, xs := sender && k == 1, reports[k - 1];
      assert SdesReceiver.IsReport(first, |xs|, Body(c, first, xs, |xs|));
    }
  }

  /** The bytes of a packet: the reports and behind them the source description, if there is one. */
  ghost function Sent(c: Contents, sender: bool, reports: seq<seq<nat>>, cs: seq<Chunk>): (b: seq<Byte>)
    requires Proper(c) && forall j :: 0 <= j < |cs| ==> Writable(cs[j])
  {
    var front := Joined(ReportPackets(c, sender, reports, |reports|), |reports|);
    if cs == [] then front else front + Packet(cs)
  }

  /** The reports of a packet from place p of the list, and the place q the session is left at: all but
      the last are full, and together they are the sources of the places visited without our own. */
  ghost predicate Reported(ring: seq<nat>, own: nat, p: nat, room: int, reports: seq<seq<nat>>, visited: nat, q: nat)
    requires ring != [] ==> p < |ring|
    requires room >= 0
  {
    && reports != []
    && (forall k :: 0 <= k < |reports| ==> |reports[k]| <= ReportRing.MAX_BLOCKS)
    && (forall k :: 0 <= k < |reports| - 1 ==> |reports[k]| == ReportRing.MAX_BLOCKS)
    && (ring == [] ==> ReportRing.Flat(reports, |reports|) == [] && q == p)
    && (ring != [] ==>
          && var s := ReportRing.Ahead(ring, p, |ring|);
          && visited == ReportRing.Visits(s, own, room)
          && ReportRing.Flat(reports, |reports|) == ReportRing.Others(s, own, visited)
          && q == ReportRing.Turn(|ring|, p, visited))
  }

  /** Successive packets, each from the place the one before it left: every one of the n other sources is
      in one of the first ceil(n / k), as long as each has room for k blocks in its first report. */
  lemma EveryoneSent(ring: seq<nat>, own: nat, rooms: seq<int>, places: seq<nat>, packets: seq<seq<seq<nat>>>,
                     visited: seq<nat>, k: nat, x: nat) returns (j: nat)
    requires |places| == |rooms| + 1 && |packets| == |rooms| && |visited| == |rooms|
    requires (forall j :: 0 <= j < |places| ==> places[j] < |ring|) && x in ring && x != own
    requires 1 <= k <= ReportRing.MAX_BLOCKS && forall j :: 0 <= j < |rooms| ==> rooms[j] >= ReportRing.BLOCK * k
    requires forall j :: 0 <= j < |rooms| ==>
               Reported(ring, own, places[j], rooms[j], packets[j], visited[j], places[j + 1])
    requires var s := ReportRing.Ahead(ring, places[0], |ring|);
             |rooms| >= ReportRing.Rounds(|ReportRing.Others(s, own, |ring|)|, k)
    ensures var s := ReportRing.Ahead(ring, places[0], |ring|);
            j < ReportRing.Rounds(|ReportRing.Others(s, own, |ring|)|, k)
    ensures x in ReportRing.Flat(packets[j], |packets[j]|)
  {
    hide ReportRing.Others, ReportRing.Visits, ReportRing.Turn, ReportRing.Flat, ReportRing.Rounds;
    j := ReportRing.EveryoneInPackets(ring, own, rooms, places, k, x);
    assert Reported(ring, own, places[j], rooms[j], packets[j], visited[j], places[j + 1]);
  }

  lemma BuiltIsRead(c: Contents, sender: bool, reports: seq<seq<nat>>, cs: seq<Chunk>, b: seq<Byte>)
    requires Proper(c) && reports != [] && forall j :: 0 <= j < |reports| ==> |reports[j]| <= 31
    requires forall j :: 0 <= j < |cs| ==> Writable(cs[j])
    requires b == Sent(c, sender, reports, cs)
    ensures cs == [] || |Packet(cs)| <= 4 * 0x1_0000 ==> Accepted(b) && RtcpReader.Reading(b, 0) == RtcpReader.Finished
  {
    hide Accepted, RtcpReader.Reading, ReportPackets, Joined, Proper, Packet;
    var packets := ReportPackets(c, sender, reports, |reports|);
    ReportsAreReports(c, sender, reports, |reports|);
    if cs == [] {
      RtcpReader.ReportsRead(packets);
    } else if |Packet(cs)| <= 4 * 0x1_0000 {
      SdesReceiver.SentIsAccepted(packets, cs);
      RtcpReader.SentIsRead(packets, cs);
    }
  }

  /** build_rtcp_pkt for a report: the reports, then the source description. The buffer must hold them,
      which the source does not check; how long they get is known beforehand. What is written, byte for
      byte, are full reports and a last one of the sources ahead of the session's place, in their order,
      and the description; the session goes on behind the last place visited. What is built passes the
      receiver's header check and is read by its loop to the end. */
  method BuildRtcp(buf: array<Byte>, list: ReportRing.ReportList, c: Contents, sender: bool, own: nat,
                   ms: seq<Member>, number: nat)
    returns (err: int, rtcplen: nat, ghost reports: seq<seq<nat>>, ghost visited: nat)
    requires list.Valid() && Proper(c) && forall j :: 0 <= j < |ms| ==> Sendable(ms[j])
    requires Enough(sender, Room(sender, ms, number)) ==>
               RtcpLength(ReportRing.FromHere(list.ring, list.at), own, sender, ms, number) <= buf.Length
    modifies list`at, buf
    ensures list.Valid()
    ensures err > 0 <==> !Enough(sender, Room(sender, ms, number))
    ensures err > 0 ==>
              err == ReportRing.BUFFER_NOT_ENOUGH && rtcplen == 0 && list.at == old(list.at) && buf[..] == old(buf[..])
    ensures err <= 0 ==>
              rtcplen == old(RtcpLength(ReportRing.FromHere(list.ring, list.at), own, sender, ms, number)) <= buf.Length
    ensures err <= 0 ==>
              Reported(list.ring, own, old(list.at), Room(sender, ms, number), reports, visited, list.at)
    ensures err <= 0 ==> buf[..rtcplen] == Sent(c, sender, reports, Chunks(ms, number))
    ensures err <= 0 && (ms == [] || |Packet(Chunks(ms, number))| <= 4 * 0x1_0000) ==>
              Accepted(buf[..rtcplen]) && RtcpReader.Reading(buf[..rtcplen], 0) == RtcpReader.Finished
  {
    hide ReportRing.Written, Reserved, Chunks, ReportRing.BlockBytes, ReportRing.FromHere, Accepted,
         RtcpReader.Reading, ReportPackets, Joined, Proper, Packet, ReportRing.Visits, ReportRing.Flat,
         ReportRing.Others, ReportRing.Turn, ReportRing.Distinct;
    NoneReserved(number);
    reports, visited := [], 0;
    var len := GetSdesLen(ms, number);
    var remainder: int := RTCP_MAX_PKT_SIZE - len;
    if remainder < 0 {
      return ReportRing.BUFFER_NOT_ENOUGH, 0, [], 0;
    }
    var built, left;
    err, built, left, visited := ReportRing.BuildReports(list, sender, own, remainder);
    reports := built;
    if err > 0 {
      return err, 0, [], 0;
    }
    rtcplen := WriteReports(buf, c, sender, built);
    var end;
    err, end, rtcplen := BuildSdes(buf, rtcplen, ms, number, rtcplen);
    BuiltIsRead(c, sender, reports, Chunks(ms, number), buf[..rtcplen]);
  }
}

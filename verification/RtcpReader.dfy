/** The loop that reads a received compound packet. It moves on by the report counts of an SR or RR
    and by the length of an SDES or BYE; at any other type it stays where it is. */
module RtcpReader {
  import opened Common
  import opened RtcpWire
  import opened SdesReceiver
  import Sdes

  const BYE := 203

  /** How the reading ends: turned away by the check, at the end of the packet, with less than a header
      left, or never, at the place of a header of another type. */
  datatype Outcome = Refused | Finished | Torn(at: nat) | Stays(at: nat)

  predicate Known(pt: nat) {
    pt == SR || pt == RR || pt == SDES || pt == BYE
  }

  /** The bytes the loop takes the packet at p to have. */
  function Span(b: seq<Byte>, p: nat): (n: nat)
    requires p + 4 <= |b| && Known(Type(b, p))
    ensures n >= 4
  {
    if Type(b, p) == SR then 28 + 24 * Count(b, p)
    else if Type(b, p) == RR then 8 + 24 * Count(b, p)
    else 4 * Words(b, p)
  }

  function Reading(b: seq<Byte>, p: nat): Outcome
    decreases |b| - p
  {
    if p >= |b| then Finished
    else if p + 4 > |b| then Torn(p)
    else if !Known(Type(b, p)) then Stays(p)
    else Reading(b, p + Span(b, p))
  }

  /** receive_rtcp_pkt, as far as its place in the packet goes. */
  method Receive(buf: array<Byte>, len: nat) returns (outcome: Outcome)
    requires len <= buf.Length
    ensures outcome == Reading(buf[..len], 0)
    ensures outcome != Refused
  {
    ghost var b := buf[..len];
    var err := CheckHeaders(buf, len);
    if err > 0 {
      return Refused;
    }
    ReadingEnds(b, 0);
    var p := 0;
    while p < len
      invariant Reading(b, p) == Reading(b, 0)
      decreases len - p
    {
      if p + 4 > len {
        return Torn(p);
      }
      var low: nat, high: nat, count: nat := buf[p + 2], buf[p + 3], buf[p] / 8;
      if buf[p + 1] == SR {
        p := p + 28 + 24 * count;
      } else if buf[p + 1] == RR {
        p := p + 8 + 24 * count;
      } else if buf[p + 1] == SDES || buf[p + 1] == BYE {
        p := p + 4 * (low + 256 * high + 1);
      } else {
        return Stays(p);
      }
    }
    return Finished;
  }

  lemma {:induction false} ReadingEnds(b: seq<Byte>, p: nat)
    ensures Reading(b, p) != Refused
    decreases |b| - p
  {
    if p + 4 <= |b| && Known(Type(b, p)) { ReadingEnds(b, p + Span(b, p)); }
  }

  // ---------- Where the loop ends, for every buffer ----------

  /** The first bytes of b, up to at, are segments of known type, each as long as the loop takes it
      to be. The lengths in the headers of reports do not matter, nor does the version. */
  ghost predicate Cut(segments: seq<seq<Byte>>, b: seq<Byte>, at: nat) {
    && at <= |b| && Joined(segments, |segments|) == b[..at]
    && forall k :: 0 <= k < |segments| ==> Segment(segments[k])
  }

  predicate Segment(s: seq<Byte>) {
    4 <= |s| && Known(Type(s, 0)) && Span(s, 0) == |s|
  }

  ghost predicate Reaches(b: seq<Byte>, at: nat) {
    exists segments :: Cut(segments, b, at)
  }

  /** The buffer ends here, or within what the loop takes the packet here to be. */
  predicate EndsWithin(b: seq<Byte>, at: nat) {
    at == |b| || (at + 4 <= |b| && Known(Type(b, at)) && at + Span(b, at) > |b|)
  }

  lemma {:induction false} JoinedWithin(segments: seq<seq<Byte>>, k: nat)
    requires k <= |segments|
    ensures Joined(segments, k) <= Joined(segments, |segments|)
    decreases |segments| - k
  {
    if k < |segments| { JoinedWithin(segments, k + 1); }
  }

  lemma SegmentInPlace(segments: seq<seq<Byte>>, b: seq<Byte>, at: nat, k: nat)
    requires Cut(segments, b, at) && k < |segments|
    ensures var i := |Joined(segments, k)|;
            && i + |segments[k]| == |Joined(segments, k + 1)| <= at
            && b[i..i + |segments[k]|] == segments[k]
    ensures Segment(segments[k])
  {
    JoinedWithin(segments, k + 1);
    var i, j := |Joined(segments, k)|, |Joined(segments, k + 1)|;
    assert Joined(segments, k + 1) == b[..at][..j] == b[..j];
    assert Joined(segments, k + 1) == Joined(segments, k) + segments[k];
    assert b[..j][i..] == segments[k];
  }

  /** The loop goes from segment to segment. */
  lemma {:induction false} ReadsCut(segments: seq<seq<Byte>>, b: seq<Byte>, at: nat, k: nat)
    requires Cut(segments, b, at) && k <= |segments|
    ensures Reading(b, |Joined(segments, k)|) == Reading(b, at)
    decreases |segments| - k
  {
    if k < |segments| {
      SegmentInPlace(segments, b, at, k);
      hide Cut, Joined, Type, Span;
      var i := |Joined(segments, k)|;
      HeaderInPlace(b, i, segments[k]);
      ReadsCut(segments, b, at, k + 1);
    }
  }

  /** Cut b where the loop stops, from the place p on. */
  lemma {:induction false} CutWhereRead(b: seq<Byte>, p: nat, front: seq<seq<Byte>>)
    returns (segments: seq<seq<Byte>>, at: nat)
    requires Cut(front, b, p)
    ensures Cut(segments, b, at)
    ensures match Reading(b, p)
            case Finished => EndsWithin(b, at)
            case Torn(q) => q == at < |b| < at + 4
            case Stays(q) => q == at && at + 4 <= |b| && !Known(Type(b, at))
            case Refused => false
    decreases |b| - p
  {
    segments, at := front, p;
    if p + 4 <= |b| && Known(Type(b, p)) && p + Span(b, p) <= |b| {
      var s := b[p..p + Span(b, p)];
      HeaderInPlace(b, p, s);
      JoinedExtends(front, s);
      assert b[..p] + s == b[..p + Span(b, p)];
      segments, at := CutWhereRead(b, p + Span(b, p), front + [s]);
    } else if p + 4 <= |b| && Known(Type(b, p)) {
      assert Reading(b, p + Span(b, p)) == Finished;
    }
  }

  lemma ReachedIsRead(b: seq<Byte>, at: nat)
    requires Reaches(b, at)
    ensures Reading(b, 0) == Reading(b, at)
  {
    var segments :| Cut(segments, b, at);
    ReadsCut(segments, b, at, 0);
    assert |Joined(segments, 0)| == 0;
  }

  lemma StopsHere(b: seq<Byte>, at: nat)
    ensures EndsWithin(b, at) ==> Reading(b, at) == Finished
    ensures at < |b| < at + 4 ==> Reading(b, at) == Torn(at)
    ensures at + 4 <= |b| && !Known(Type(b, at)) ==> Reading(b, at) == Stays(at)
  {
    if at + 4 <= |b| && Known(Type(b, at)) && at + Span(b, at) > |b| {
      assert Reading(b, at + Span(b, at)) == Finished;
    }
  }

  lemma CutFromStart(b: seq<Byte>) returns (at: nat)
    ensures Reaches(b, at)
    ensures match Reading(b, 0)
            case Finished => EndsWithin(b, at)
            case Torn(q) => q == at < |b| < at + 4
            case Stays(q) => q == at && at + 4 <= |b| && !Known(Type(b, at))
            case Refused => false
  {
    assert Joined([], 0) == b[..0];
    var segments;
    segments, at := CutWhereRead(b, 0, []);
  }

  /** For every buffer: the loop finishes exactly when segments lead to a place from which the buffer
      ends within one packet. */
  lemma FinishesIff(b: seq<Byte>)
    ensures Reading(b, 0) == Finished <==> exists at: nat :: Reaches(b, at) && EndsWithin(b, at)
  {
    hide Reading, Reaches, EndsWithin, Known;
    var end := CutFromStart(b);
    forall at: nat | Reaches(b, at) && EndsWithin(b, at) ensures Reading(b, 0) == Finished {
      ReachedIsRead(b, at);
      StopsHere(b, at);
    }
  }

  /** It stays exactly where segments lead to a packet of another type, and is left with less than a
      header exactly where they lead there. */
  lemma StaysIff(b: seq<Byte>, at: nat)
    ensures Reading(b, 0) == Stays(at) <==> Reaches(b, at) && at + 4 <= |b| && !Known(Type(b, at))
    ensures Reading(b, 0) == Torn(at) <==> Reaches(b, at) && at < |b| < at + 4
  {
    hide Reading, Reaches, EndsWithin, Known;
    var end := CutFromStart(b);
    if Reaches(b, at) {
      ReachedIsRead(b, at);
      StopsHere(b, at);
    }
  }

  /** A packet whose counts account for its whole length. */
  predicate Counted(p: seq<Byte>) {
    4 <= |p| && (Known(Type(p, 0)) ==> Span(p, 0) == |p|)
  }

  /** Packet j is the first from k on whose type is not known. */
  ghost predicate FirstUnknown(packets: seq<seq<Byte>>, k: nat, j: nat)
    requires k <= j < |packets| && forall i :: 0 <= i < |packets| ==> 4 <= |packets[i]|
  {
    !Known(Type(packets[j], 0)) && forall i :: k <= i < j ==> Known(Type(packets[i], 0))
  }

  /** Over tiled packets of consistent counts the loop goes from header to header: it finishes exactly
      when all types from packet k on are known, and otherwise stays at the first that is not. */
  lemma {:induction false} ReadsTiled(packets: seq<seq<Byte>>, b: seq<Byte>, k: nat)
    requires Tiles(packets, b) && |b| % 4 == 0 && k <= |packets|
    requires forall j :: 0 <= j < |packets| ==> Counted(packets[j])
    ensures (Reading(b, |Joined(packets, k)|) == Finished
             <==> forall j :: k <= j < |packets| ==> Known(Type(packets[j], 0)))
    ensures forall j :: k <= j < |packets| && FirstUnknown(packets, k, j) ==>
              Reading(b, |Joined(packets, k)|) == Stays(|Joined(packets, j)|)
    decreases |packets| - k
  {
    hide Tiles, Joined, Type, Count, Words, Version, Padding, Known;
    if k == |packets| {
      WholeLength(packets, b);
    } else {
      InPlace(packets, b, k);
      HeaderInPlace(b, |Joined(packets, k)|, packets[k]);
      ReadsTiled(packets, b, k + 1);
    }
  }

  lemma WholeLength(packets: seq<seq<Byte>>, b: seq<Byte>)
    requires Tiles(packets, b) && |b| % 4 == 0
    ensures |Joined(packets, |packets|)| == |b|
  {
    assert b[..|b| / 4 * 4] == b;
  }

  /** In place the packet has the type and the span it has alone. */
  lemma HeaderInPlace(b: seq<Byte>, i: nat, p: seq<Byte>)
    requires 4 <= |p| && i + |p| <= |b| && b[i..i + |p|] == p
    ensures Type(b, i) == Type(p, 0)
    ensures Known(Type(p, 0)) ==> Span(b, i) == Span(p, 0)
  {
    SameFields(b, i, p);
    assert b[i] == p[0];
  }

  // ---------- What is sent is read through ----------

  lemma ReportCounted(p: seq<Byte>)
    requires IsReportPacket(p)
    ensures Counted(p) && Known(Type(p, 0))
  {
    var sender, n, body :| IsReport(sender, n, body) && p == Report(sender, n, body);
    HeaderFields(false, n, if sender then SR else RR, |body| / 4);
    SameFields(p, 0, Header(false, n, if sender then SR else RR, |body| / 4));
    assert Count(p, 0) == n;
  }

  lemma SdesCounted(cs: seq<Sdes.Chunk>)
    requires forall j :: 0 <= j < |cs| ==> Sdes.Writable(cs[j])
    requires |Sdes.Packet(cs)| <= 4 * 0x1_0000
    ensures var p := Sdes.Packet(cs); Counted(p) && Known(Type(p, 0)) && WellFormed(p)
  {
    PacketFields(cs);
  }

  /** A packet the loop takes as a whole. */
  predicate Readable(p: seq<Byte>) {
    WellFormed(p) && Counted(p) && Known(Type(p, 0))
  }

  lemma PacketsRead(packets: seq<seq<Byte>>)
    requires packets != [] && forall k :: 0 <= k < |packets| ==> Readable(packets[k])
    requires 4 <= |packets[0]| && FirstHeader(packets[0])
    ensures Reading(Joined(packets, |packets|), 0) == Finished
  {
    var b := Joined(packets, |packets|);
    JoinedLength(packets, |packets|);
    assert b == b[..|b| / 4 * 4];
    assert Joined(packets, 0) == [];
    hide Counted, WellFormed, FirstHeader;
    ReadsTiled(packets, b, 0);
  }

  lemma ReportReadable(p: seq<Byte>)
    requires IsReportPacket(p)
    ensures Readable(p) && 4 <= |p| && FirstHeader(p)
  {
    ReportCounted(p);
    var sender, n, body :| IsReport(sender, n, body) && p == Report(sender, n, body);
    ReportWellFormed(sender, n, body);
  }

  lemma ReadTogether(reports: seq<seq<Byte>>, sdes: seq<Byte>)
    requires reports != [] && forall j :: 0 <= j < |reports| ==> IsReportPacket(reports[j])
    requires Readable(sdes)
    ensures Reading(Joined(reports, |reports|) + sdes, 0) == Finished
  {
    hide Readable, IsReportPacket, Joined, Reading, FirstHeader;
    var packets := reports + [sdes];
    forall k | 0 <= k < |packets| ensures Readable(packets[k]) {
      if k < |reports| { ReportReadable(reports[k]); }
    }
    ReportReadable(reports[0]);
    JoinedExtends(reports, sdes);
    PacketsRead(packets);
  }

  /** Any reports followed by a source description that fits its length field are read to the end. */
  lemma SentIsRead(reports: seq<seq<Byte>>, cs: seq<Sdes.Chunk>)
    requires reports != [] && forall j :: 0 <= j < |reports| ==> IsReportPacket(reports[j])
    requires forall j :: 0 <= j < |cs| ==> Sdes.Writable(cs[j])
    requires |Sdes.Packet(cs)| <= 4 * 0x1_0000
    ensures Reading(Joined(reports, |reports|) + Sdes.Packet(cs), 0) == Finished
  {
    SdesCounted(cs);
    ReadTogether(reports, Sdes.Packet(cs));
  }

  /** A version 2 SDES, 202, or BYE, 203, is passed over as a whole, whatever it holds. */
  lemma PassedOver(p: seq<Byte>, rest: seq<Byte>)
    requires WellFormed(p) && (Type(p, 0) == 202 || Type(p, 0) == 203)
    ensures Segment(p)
    ensures Reading(p + rest, 0) == Reading(p + rest, |p|)
  {
    assert (p + rest)[..|p|] == p;
    HeaderInPlace(p + rest, 0, p);
  }

  /** So are reports alone, which pass the check too. */
  lemma ReportsRead(reports: seq<seq<Byte>>)
    requires reports != [] && forall j :: 0 <= j < |reports| ==> IsReportPacket(reports[j])
    ensures Accepted(Joined(reports, |reports|)) && Reading(Joined(reports, |reports|), 0) == Finished
  {
    hide Accepted, Reading, Joined, IsReportPacket, FirstHeader, WellFormed, Counted, Known;
    forall k | 0 <= k < |reports| ensures Readable(reports[k]) {
      ReportReadable(reports[k]);
    }
    ReportReadable(reports[0]);
    PacketsRead(reports);
    AllTiled(reports, Joined(reports, |reports|));
  }

  /** The check does not protect the loop, nor does passing it suffice: an APP packet alone is invalid,
      behind an RR it is valid, and the loop stays at it both times. */
  lemma StaysAtApp()
    ensures exists app: seq<Byte> :: !Accepted(app) && Reading(app, 0) == Stays(0)
    ensures exists b: seq<Byte> :: Accepted(b) && Reading(b, 0) == Stays(8)
  {
    var app: seq<Byte> := [2, 204, 0, 0];
    assert !Accepted(app) && Reading(app, 0) == Stays(0);
    var b: seq<Byte> := [2, 201, 1, 0, 0, 0, 0, 1, 2, 204, 0, 0];
    assert Span(b, 0) == 8 && Reading(b, 8) == Stays(8);
    assert Reading(b, 0) == Stays(8);
    assert Words(b, 0) == 2 && Version(b, 8) == VERSION && Words(b, 8) == 1;
    assert Walk(b, 2) == 3 && Walk(b, 0) == 3;
    assert Accepted(b);
  }

  /** Nor is passing it needed: a BYE alone is invalid and read to the end. */
  lemma RejectedIsRead()
    ensures exists bye: seq<Byte> :: !Accepted(bye) && Reading(bye, 0) == Finished
  {
    var bye: seq<Byte> := [2, 203, 0, 0];
    assert !Accepted(bye) && Span(bye, 0) == 4 && Reading(bye, 4) == Finished && Reading(bye, 0) == Finished;
  }

  /** A lone valid RR whose length exceeds its count: the loop stays behind the counted part. */
  lemma LongReportStays()
    ensures exists b: seq<Byte> :: Tiles([b], b) && Accepted(b) && Known(Type(b, 0)) && Reading(b, 0) == Stays(8)
  {
    var b: seq<Byte> := [2, 201, 2, 0, 0, 0, 0, 1, 0, 0, 0, 0];
    assert Span(b, 0) == 8 && Reading(b, 8) == Stays(8) && Reading(b, 0) == Stays(8);
    hide Reading;
    assert Joined([b], 0) == [] && Joined([b], 1) == b && b[..|b| / 4 * 4] == b;
    assert WellFormed(b) && FirstHeader(b);
    assert Tiles([b], b);
    AcceptedIffTiled(b);
  }

  /** A valid RR whose count reaches over the APP packet behind it: the loop reads to the end. */
  lemma CountReachesOver()
    ensures exists rr: seq<Byte>, app: seq<Byte> ::
              && Tiles([rr, app], rr + app) && Accepted(rr + app)
              && !Known(Type(app, 0)) && Reading(rr + app, 0) == Finished
  {
    var rr: seq<Byte>, app: seq<Byte> := [10, 201, 1, 0, 0, 0, 0, 1], [2, 204, 5, 0] + Zeros(20);
    var b := rr + app;
    CountedOver(b);
    hide Reading, Known, Span;
    assert WellFormed(rr) && FirstHeader(rr);
    assert WellFormed(app);
    hide WellFormed, FirstHeader, Accepted;
    TwoTile(rr, app);
  }

  lemma CountedOver(b: seq<Byte>)
    requires |b| == 32 && b[0] == 10 && b[1] == 201
    ensures Reading(b, 0) == Finished && !Known(204)
  {
    assert Span(b, 0) == 32 && Reading(b, 32) == Finished;
  }

  lemma TwoTile(x: seq<Byte>, y: seq<Byte>)
    requires WellFormed(x) && WellFormed(y) && FirstHeader(x)
    ensures Tiles([x, y], x + y) && Accepted(x + y)
  {
    var b := x + y;
    assert Joined([x, y], 0) == [] && Joined([x, y], 1) == x && Joined([x, y], 2) == b;
    hide Joined, FirstHeader, Accepted;
    assert |b| % 4 == 0 && b[..|b| / 4 * 4] == b;
    assert Tiles([x, y], b);
    AcceptedIffTiled(b);
  }
}

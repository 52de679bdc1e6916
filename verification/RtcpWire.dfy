/** Compound RTCP packets as bytes, and the header check of appendix A.2 of RFC 3550. The header is
    laid out as the library's bit fields are on a little-endian machine. */
module RtcpWire {
  import opened Common

  const VERSION := 2
  const SR := 200
  const RR := 201
  const SDES := 202

  function Header(padding: bool, count: nat, pt: Byte, length: nat): (h: seq<Byte>)
    ensures |h| == 4
  {
    [VERSION + (if padding then 4 else 0) + count % 32 * 8, pt, length % 256, length / 256 % 256]
  }

  function Version(b: seq<Byte>, i: nat): nat
    requires i + 4 <= |b|
  {
    b[i] % 4
  }

  predicate Padding(b: seq<Byte>, i: nat)
    requires i + 4 <= |b|
  {
    b[i] / 4 % 2 == 1
  }

  function Count(b: seq<Byte>, i: nat): nat
    requires i + 4 <= |b|
  {
    b[i] / 8
  }

  function Type(b: seq<Byte>, i: nat): nat
    requires i + 4 <= |b|
  {
    b[i + 1]
  }

  /** The words of the packet, its header included. */
  function Words(b: seq<Byte>, i: nat): (w: nat)
    requires i + 4 <= |b|
    ensures 1 <= w <= 0x1_0000
  {
    var low: nat, high: nat := b[i + 2], b[i + 3];
    low + 256 * high + 1
  }

  lemma FirstOctet(padding: bool, count: nat)
    requires count < 32
    ensures var o := VERSION + (if padding then 4 else 0) + count * 8;
            o % 4 == VERSION && (o / 4 % 2 == 1) == padding && o / 8 == count
  {
  }

  lemma LengthOctets(length: nat)
    ensures length % 256 + 256 * (length / 256 % 256) == length % 0x1_0000
  {
    var q := length / 256;
    assert length == 0x1_0000 * (q / 256) + (256 * (q % 256) + length % 256);
    Division(0x1_0000, length, q / 256, 256 * (q % 256) + length % 256);
  }

  /** The fields read back what was written, as far as they can hold it. */
  lemma HeaderFields(padding: bool, count: nat, pt: Byte, length: nat)
    ensures var h := Header(padding, count, pt, length);
            && Version(h, 0) == VERSION && Padding(h, 0) == padding && Count(h, 0) == count % 32
            && Type(h, 0) == pt && Words(h, 0) == length % 0x1_0000 + 1
  {
    FirstOctet(padding, count % 32);
    LengthOctets(length);
  }

  /** The header as section 6.4.1 of RFC 3550 lays it out: version in the high bits, length in network
      order. */
  function StandardHeader(padding: bool, count: nat, pt: Byte, length: nat): (h: seq<Byte>)
    requires count < 32
    ensures |h| == 4
  {
    [VERSION * 64 + (if padding then 32 else 0) + count, pt, length / 256 % 256, length % 256]
  }

  /** The library writes that header only for 18 reports, or 22 with padding, and a length of two equal
      bytes. */
  lemma StandardLayoutIff(padding: bool, count: nat, pt: Byte, length: nat)
    requires count < 32
    ensures Header(padding, count, pt, length) == StandardHeader(padding, count, pt, length)
            <==> count == (if padding then 22 else 18) && length % 256 == length / 256 % 256
  {
    var h, t := Header(padding, count, pt, length), StandardHeader(padding, count, pt, length);
    assert h == t <==> h[0] == t[0] && h[1] == t[1] && h[2] == t[2] && h[3] == t[3];
  }

  /** A packet with such a header comes first in a compound one exactly if it is an SR, 200, or RR, 201,
      without padding. */
  lemma FirstHeaderIff(padding: bool, count: nat, pt: Byte, length: nat, rest: seq<Byte>)
    ensures FirstHeader(Header(padding, count, pt, length) + rest) <==> !padding && (pt == 200 || pt == 201)
  {
    HeaderFields(padding, count, pt, length);
    SameFields(Header(padding, count, pt, length) + rest, 0, Header(padding, count, pt, length));
  }

  // ---------- The check ----------

  /** The do-while loop of the check, from the header at word r: the word where it stops. */
  function Walk(b: seq<Byte>, r: nat): nat
    requires r < |b| / 4
    decreases |b| - r
  {
    var next := r + Words(b, 4 * r);
    if next < |b| / 4 && Version(b, 4 * next) == VERSION then Walk(b, next) else next
  }

  predicate FirstHeader(b: seq<Byte>)
    requires 4 <= |b|
  {
    Version(b, 0) == VERSION && (Type(b, 0) == SR || Type(b, 0) == RR) && !Padding(b, 0)
  }

  const RTCP_INVALID := -30

  /** rtcp_hdr_validity_check, as to validity. Of less than a word the first header is read from
      behind the data, and the walk is then past the end whatever it holds. */
  method CheckHeaders(buf: array<Byte>, l: nat) returns (err: int)
    requires l <= buf.Length
    ensures err == if Accepted(buf[..l]) then 0 else RTCP_INVALID
  {
    if l < 4 {
      return RTCP_INVALID;
    }
    ghost var b := buf[..l];
    var len := l / 4;
    if !(buf[0] % 4 == VERSION && (buf[1] == SR || buf[1] == RR) && buf[0] / 4 % 2 == 0) {
      return RTCP_INVALID;
    }
    var r := 0;
    var more := true;
    while more
      invariant more ==> r < len && Walk(b, r) == Walk(b, 0)
      invariant !more ==> r == Walk(b, 0)
      decreases if more then l - r else -1
    {
      var low: nat, high: nat := buf[4 * r + 2], buf[4 * r + 3];
      r := r + low + 256 * high + 1;
      more := r < len && buf[4 * r] % 4 == VERSION;
    }
    return if r == len then 0 else RTCP_INVALID;
  }

  predicate Accepted(b: seq<Byte>) {
    4 <= |b| && FirstHeader(b) && Walk(b, 0) == |b| / 4
  }

  // ---------- What the check means ----------

  function Joined(packets: seq<seq<Byte>>, k: nat): seq<Byte>
    requires k <= |packets|
  {
    if k == 0 then [] else Joined(packets, k - 1) + packets[k - 1]
  }

  /** A version 2 packet of exactly the words its header says. */
  predicate WellFormed(p: seq<Byte>) {
    4 <= |p| && Version(p, 0) == VERSION && |p| == 4 * Words(p, 0)
  }

  /** b, but for an odd tail of up to three bytes, is the packets one after the other. */
  ghost predicate Tiles(packets: seq<seq<Byte>>, b: seq<Byte>) {
    && packets != []
    && (forall k :: 0 <= k < |packets| ==> WellFormed(packets[k]))
    && Joined(packets, |packets|) == b[..|b| / 4 * 4]
    && FirstHeader(packets[0])
  }

  lemma {:induction false} JoinedWords(packets: seq<seq<Byte>>, k: nat)
    requires k <= |packets| && forall j :: 0 <= j < |packets| ==> WellFormed(packets[j])
    ensures |Joined(packets, k)| % 4 == 0
    ensures Joined(packets, k) <= Joined(packets, |packets|)
    decreases |packets| - k
  {
    JoinedLength(packets, k);
    if k < |packets| { JoinedWords(packets, k + 1); }
  }

  lemma {:induction false} JoinedLength(packets: seq<seq<Byte>>, k: nat)
    requires k <= |packets| && forall j :: 0 <= j < |packets| ==> WellFormed(packets[j])
    ensures |Joined(packets, k)| % 4 == 0
  {
    if k != 0 { JoinedLength(packets, k - 1); }
  }

  /** Packet k seen in place. */
  lemma InPlace(packets: seq<seq<Byte>>, b: seq<Byte>, k: nat)
    requires Tiles(packets, b) && k < |packets|
    ensures var i := |Joined(packets, k)|;
            && i % 4 == 0 && i + |packets[k]| == |Joined(packets, k + 1)| <= |b|
            && b[i..i + |packets[k]|] == packets[k]
    ensures WellFormed(packets[k])
    ensures k + 1 == |packets| ==> |Joined(packets, k + 1)| == |b| / 4 * 4
  {
    JoinedWords(packets, k);
    JoinedWords(packets, k + 1);
    var i, j := |Joined(packets, k)|, |Joined(packets, k + 1)|;
    assert Joined(packets, k + 1) == b[..|b| / 4 * 4][..j] == b[..j];
    assert Joined(packets, k + 1) == Joined(packets, k) + packets[k];
    assert b[..j][i..] == packets[k];
  }

  lemma SameFields(b: seq<Byte>, i: nat, p: seq<Byte>)
    requires 4 <= |p| && i + |p| <= |b| && b[i..i + |p|] == p
    ensures Version(b, i) == Version(p, 0) && Type(b, i) == Type(p, 0) && Padding(b, i) == Padding(p, 0)
    ensures Words(b, i) == Words(p, 0)
  {
    assert forall j :: 0 <= j < 4 ==> b[i + j] == p[j];
  }

  /** The walk goes from packet to packet. */
  lemma {:induction false} WalkFollows(packets: seq<seq<Byte>>, b: seq<Byte>, k: nat)
    requires Tiles(packets, b) && k < |packets|
    ensures |Joined(packets, k)| / 4 < |b| / 4 && Walk(b, |Joined(packets, k)| / 4) == |b| / 4
    decreases |packets| - k
  {
    hide Tiles, Joined, Version, Type, Padding, Words;
    InPlace(packets, b, k);
    SameFields(b, |Joined(packets, k)|, packets[k]);
    var next := |Joined(packets, k + 1)|;
    if k + 1 < |packets| {
      InPlace(packets, b, k + 1);
      SameFields(b, next, packets[k + 1]);
      WalkFollows(packets, b, k + 1);
    }
  }

  /** Cut b at the headers the walk meets. */
  lemma {:induction false} CutAtHeaders(b: seq<Byte>, r: nat, front: seq<seq<Byte>>) returns (packets: seq<seq<Byte>>)
    requires r < |b| / 4 && Version(b, 4 * r) == VERSION && Walk(b, r) == |b| / 4
    requires Joined(front, |front|) == b[..4 * r]
    requires forall k :: 0 <= k < |front| ==> WellFormed(front[k])
    ensures front < packets && packets[|front|] == b[4 * r..4 * (r + Words(b, 4 * r))]
    ensures forall k :: 0 <= k < |packets| ==> WellFormed(packets[k])
    ensures Joined(packets, |packets|) == b[..|b| / 4 * 4]
    decreases |b| - r
  {
    var next := r + Words(b, 4 * r);
    WalkWithin(b, r);
    var p := b[4 * r..4 * next];
    SameFields(b, 4 * r, p);
    JoinedExtends(front, p);
    assert b[..4 * r] + p == b[..4 * next];
    packets := front + [p];
    if next < |b| / 4 {
      assert Version(b, 4 * next) == VERSION;
      packets := CutAtHeaders(b, next, packets);
    }
  }

  lemma {:induction false} WalkWithin(b: seq<Byte>, r: nat)
    requires r < |b| / 4
    ensures r + Words(b, 4 * r) <= Walk(b, r)
    decreases |b| - r
  {
    var next := r + Words(b, 4 * r);
    if next < |b| / 4 && Version(b, 4 * next) == VERSION { WalkWithin(b, next); }
  }

  lemma JoinedExtends(front: seq<seq<Byte>>, p: seq<Byte>)
    ensures Joined(front + [p], |front| + 1) == Joined(front, |front|) + p
  {
    JoinedSame(front, p, |front|);
  }

  lemma {:induction false} JoinedSame(front: seq<seq<Byte>>, p: seq<Byte>, k: nat)
    requires k <= |front|
    ensures Joined(front + [p], k) == Joined(front, k)
  {
    if k != 0 { JoinedSame(front, p, k - 1); }
  }

  /** The check accepts exactly the buffers that version 2 packets tile, the first an SR or RR
      without padding. */
  lemma AcceptedIffTiled(b: seq<Byte>)
    ensures Accepted(b) <==> exists packets :: Tiles(packets, b)
  {
    if Accepted(b) {
      assert Joined([], 0) == b[..0];
      var packets := CutAtHeaders(b, 0, []);
      SameFields(b, 0, packets[0]);
      assert Tiles(packets, b);
    }
    forall packets | Tiles(packets, b) ensures Accepted(b) {
      InPlace(packets, b, 0);
      SameFields(b, 0, packets[0]);
      WalkFollows(packets, b, 0);
    }
  }
}

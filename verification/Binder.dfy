/** The module binder's queue as the simulator keeps it: packet events linked through next_ep,
    with head and tail pointers, a length, a capacity and a drop count. */
module Binder {
  import opened Common
  import opened MbQueue

  class EPacket {
    const packet: Packet
    var next_ep: EPacket?

    constructor (packet: Packet)
      ensures this.packet == packet && next_ep == null
    {
      this.packet := packet;
      next_ep := null;
    }
  }

  ghost function Packets(cells: seq<EPacket>): (ps: seq<Packet>)
    ensures |ps| == |cells|
    ensures forall i :: 0 <= i < |cells| ==> ps[i] == cells[i].packet
  {
    seq(|cells|, i requires 0 <= i < |cells| => cells[i].packet)
  }

  ghost function At(cells: seq<EPacket>, i: int): EPacket? {
    if 0 <= i < |cells| then cells[i] else null
  }

  /** The cells are distinct and each one points to the next. */
  ghost predicate Linked(cells: seq<EPacket>)
    reads cells
  {
    && (forall i, j :: 0 <= i < j < |cells| ==> cells[i] != cells[j])
    && (forall i :: 0 <= i < |cells| ==> cells[i].next_ep == At(cells, i + 1))
  }

  ghost function LinkedIn(cells: seq<EPacket>, pkt: EPacket): seq<EPacket> {
    var n := SpotFrom(Packets(cells), pkt.packet, 0);
    cells[..n] + [pkt] + cells[n..]
  }

  ghost function SwappedOut(cells: seq<EPacket>, v: nat): seq<EPacket>
    requires v < |cells|
  {
    cells[..v] + cells[v + 1..]
  }

  ghost function Replaced(cells: seq<EPacket>, pkt: EPacket): (r: (seq<EPacket>, EPacket))
    requires cells != []
  {
    var v := Victim(Packets(cells));
    if pkt.packet.level <= cells[v].packet.level then (cells, pkt)
    else (LinkedIn(SwappedOut(cells, v), pkt), cells[v])
  }

  /** Arrive, on the cells themselves. */
  ghost function ArriveCells(cells: seq<EPacket>, k: int, pkt: EPacket): (r: (seq<EPacket>, EPacket?))
    requires |cells| < k || cells != []
  {
    if |cells| < k then (LinkedIn(cells, pkt), null) else Replaced(cells, pkt)
  }

  lemma LinkedInIsInsert(cells: seq<EPacket>, pkt: EPacket)
    ensures Packets(LinkedIn(cells, pkt)) == Insert(Packets(cells), pkt.packet)
  {
  }

  /** The cells hold the packets of the queue on values, so its theorems are about the binder. */
  lemma ArriveCellsIsArrive(cells: seq<EPacket>, k: int, pkt: EPacket)
    requires |cells| < k || cells != []
    ensures var (cells', out) := ArriveCells(cells, k, pkt);
            Arrive(Packets(cells), k, pkt.packet)
            == (Packets(cells'), if out == null then None else Some(out.packet))
  {
    if |cells| < k {
      LinkedInIsInsert(cells, pkt);
    } else {
      var v := Victim(Packets(cells));
      assert Packets(SwappedOut(cells, v)) == RemoveAt(Packets(cells), v);
      LinkedInIsInsert(SwappedOut(cells, v), pkt);
    }
  }

  lemma ArriveCellsDescends(cells: seq<EPacket>, k: int, pkt: EPacket)
    requires |cells| < k || cells != []
    requires Descending(Packets(cells))
    ensures Descending(Packets(ArriveCells(cells, k, pkt).0))
  {
    ArriveCellsIsArrive(cells, k, pkt);
    ArriveDescends(Packets(cells), k, pkt.packet);
  }

  /** A full queue of at least two cells, and a newcomer above the last but one: the last cell is
      evicted and the newcomer lands before the end. */
  ghost predicate LeavesTailBehind(cells: seq<EPacket>, k: int, pkt: EPacket) {
    |cells| >= k && |cells| >= 2 && pkt.packet.level > cells[|cells| - 2].packet.level
  }

  lemma LinkedInLast(cells: seq<EPacket>, pkt: EPacket)
    requires Descending(Packets(cells))
    ensures var more := LinkedIn(cells, pkt);
            && |more| == |cells| + 1
            && more[|cells|] == if cells == [] || pkt.packet.level <= cells[|cells| - 1].packet.level then pkt
                                else cells[|cells| - 1]
  {
    SpotBounds(Packets(cells), pkt.packet, 0);
  }

  lemma WithoutLast(cells: seq<EPacket>)
    requires cells != [] && Descending(Packets(cells))
    ensures Victim(Packets(cells)) == |cells| - 1
    ensures SwappedOut(cells, |cells| - 1) == cells[..|cells| - 1] && Descending(Packets(cells[..|cells| - 1]))
    ensures |cells| >= 2 ==> cells[|cells| - 1].packet.level <= cells[|cells| - 2].packet.level
  {
    VictimOfDescending(Packets(cells));
    assert forall i :: 0 <= i < |cells| - 1 ==> Packets(cells[..|cells| - 1])[i] == Packets(cells)[i];
  }

  /** After an arrival the last cell is the newcomer or still the same one, but in that case. */
  lemma LastCellIff(cells: seq<EPacket>, k: int, pkt: EPacket)
    requires Linked(cells) && Descending(Packets(cells)) && pkt !in cells
    requires |cells| < k || cells != []
    ensures var more := ArriveCells(cells, k, pkt).0;
            && more != []
            && (more[|more| - 1] == pkt || (cells != [] && more[|more| - 1] == cells[|cells| - 1])
                <==> !LeavesTailBehind(cells, k, pkt))
  {
    hide LinkedIn, Descending, Packets, SwappedOut;
    if |cells| < k {
      LinkedInLast(cells, pkt);
    } else {
      WithoutLast(cells);
      LinkedInLast(cells[..|cells| - 1], pkt);
    }
  }

  lemma NextIs(cells: seq<EPacket>, i: nat)
    requires Linked(cells) && i < |cells|
    ensures cells[i].next_ep == At(cells, i + 1)
  {
  }

  lemma NextsAre(cells: seq<EPacket>)
    requires Linked(cells)
    ensures forall i, j :: 0 <= i < j < |cells| ==> cells[i] != cells[j]
    ensures forall i :: 0 <= i < |cells| ==> cells[i].next_ep == At(cells, i + 1)
  {
  }

  lemma LinkedWith(cells: seq<EPacket>, n: nat, pkt: EPacket)
    requires n <= |cells| && pkt !in cells && pkt.next_ep == At(cells, n)
    requires forall i, j :: 0 <= i < j < |cells| ==> cells[i] != cells[j]
    requires forall i :: 0 <= i < |cells| ==> cells[i].next_ep == if i == n - 1 then pkt else At(cells, i + 1)
    ensures Linked(cells[..n] + [pkt] + cells[n..])
  {
    DistinctWith(cells, n, pkt);
    var more := cells[..n] + [pkt] + cells[n..];
    forall i | 0 <= i < |more| ensures more[i].next_ep == At(more, i + 1) {
      if i < n {
        assert more[i] == cells[i];
      } else if i > n {
        assert more[i] == cells[i - 1];
      }
    }
  }

  lemma LinkedWithout(cells: seq<EPacket>, v: nat)
    requires v < |cells|
    requires forall i, j :: 0 <= i < j < |cells| ==> cells[i] != cells[j]
    requires forall i :: 0 <= i < |cells| && i != v ==>
               cells[i].next_ep == if i + 1 == v then At(cells, v + 1) else At(cells, i + 1)
    ensures Linked(SwappedOut(cells, v))
  {
    var less := SwappedOut(cells, v);
    forall i | 0 <= i < |less| ensures less[i].next_ep == At(less, i + 1) {
      if i < v {
        assert less[i] == cells[i];
      } else {
        assert less[i] == cells[i + 1];
      }
    }
  }

  lemma LinkedSame(cells: seq<EPacket>)
    requires forall i, j :: 0 <= i < j < |cells| ==> cells[i] != cells[j]
    requires forall i :: 0 <= i < |cells| ==> cells[i].next_ep == At(cells, i + 1)
    ensures Linked(cells)
  {
  }

  lemma LinkedBehind(cells: seq<EPacket>)
    requires cells != [] && forall i, j :: 0 <= i < j < |cells| ==> cells[i] != cells[j]
    requires forall i :: 1 <= i < |cells| ==> cells[i].next_ep == At(cells, i + 1)
    ensures Linked(cells[1..])
  {
  }

  lemma DescendingTail(cells: seq<EPacket>)
    requires cells != [] && Descending(Packets(cells))
    ensures Descending(Packets(cells[1..]))
  {
    assert forall i :: 0 <= i < |cells| - 1 ==> Packets(cells[1..])[i] == Packets(cells)[i + 1];
  }

  lemma VictimFirst(q: seq<Packet>)
    requires q != []
    ensures VictimOf(q, 1) == 0
  {
  }

  lemma DistinctWith(cells: seq<EPacket>, n: nat, pkt: EPacket)
    requires n <= |cells| && pkt !in cells
    requires forall i, j :: 0 <= i < j < |cells| ==> cells[i] != cells[j]
    ensures var more := cells[..n] + [pkt] + cells[n..];
            forall i, j :: 0 <= i < j < |more| ==> more[i] != more[j]
  {
  }

  class MBinder {
    var head: EPacket?
    var tail: EPacket?
    var len: int
    var maxlen: int
    var drops: int
    ghost var cells: seq<EPacket>

    /** The tail pointer is null exactly when the queue is empty; it need not name the last cell. */
    ghost predicate Valid()
      reads this, cells
    {
      && Linked(cells)
      && len == |cells|
      && head == At(cells, 0)
      && (tail == null <==> head == null)
      && Descending(Packets(cells))
    }

    ghost predicate TailIsLast()
      reads this
    {
      cells != [] ==> tail == cells[|cells| - 1]
    }

    constructor (qlen: int)
      ensures Valid() && cells == [] && maxlen == qlen && drops == 0
    {
      head, tail := null, null;
      len, maxlen, drops := 0, qlen, 0;
      cells := [];
    }

    /** The last cell of lowest level and the cell before it. */
    method Lowest() returns (p: EPacket, p1: EPacket?)
      requires Valid() && cells != []
      ensures var v := Victim(Packets(cells)); p == cells[v] && p1 == At(cells, v - 1)
    {
      hide Descending, Packets, Linked, VictimOf;
      p, p1 := head, null;
      ghost var v: nat := 0;
      var ptr, ptr1: EPacket? := head, null;
      ghost var i := 0;
      while ptr != null
        invariant 0 <= i <= |cells| && ptr == At(cells, i) && ptr1 == At(cells, i - 1)
        invariant v < |cells| && p == cells[v] && p1 == At(cells, v - 1)
        invariant v == if i == 0 then 0 else VictimOf(Packets(cells), i)
        decreases |cells| - i
      {
        if i == 0 { VictimFirst(Packets(cells)); } else { VictimNext(Packets(cells), i); }
        NextIs(cells, i);
        if ptr.packet.level <= p.packet.level {
          p1, p, v := ptr1, ptr, i;
        }
        ptr1, ptr, i := ptr, ptr.next_ep, i + 1;
      }
    }

    /** Take out cell p behind p1. The tail pointer is looked at only when p is the head. */
    method SwapOut(p: EPacket, p1: EPacket?, ghost v: nat)
      requires Valid() && v < |cells| && p == cells[v] && p1 == At(cells, v - 1)
      modifies this`head, this`tail, this`len, this`cells, cells
      ensures cells == SwappedOut(old(cells), v)
      ensures Linked(cells) && len == |cells| && head == At(cells, 0)
      ensures p1 != null ==> tail == old(tail) && p.next_ep == null
      ensures p1 == null ==> tail == if old(tail) == p then head else old(tail)
    {
      hide Descending, Packets, Linked;
      ghost var before := cells;
      NextsAre(before);
      cells := SwappedOut(before, v);
      if p1 != null {
        p1.next_ep := p.next_ep;
        p.next_ep := null;
      } else if head == tail {
        head := head.next_ep;
        tail := head;
      } else {
        head := head.next_ep;
      }
      len := len - 1;
      LinkedWithout(before, v);
    }

    /** The first cell of lower level than pkt (null at the end) and the cell before it. */
    method FindSpot(pkt: EPacket) returns (ptr: EPacket?, ptr1: EPacket?)
      requires Linked(cells) && head == At(cells, 0)
      ensures var n := SpotFrom(Packets(cells), pkt.packet, 0); ptr == At(cells, n) && ptr1 == At(cells, n - 1)
    {
      ptr, ptr1 := head, null;
      ghost var n: nat := 0;
      while ptr != null && pkt.packet.level <= ptr.packet.level
        invariant n <= |cells| && ptr == At(cells, n) && ptr1 == At(cells, n - 1)
        invariant SpotFrom(Packets(cells), pkt.packet, n) == SpotFrom(Packets(cells), pkt.packet, 0)
        decreases |cells| - n
      {
        ptr1, ptr, n := ptr, ptr.next_ep, n + 1;
      }
    }

    /** Link pkt between the cells ptr1 and ptr. */
    method LinkAt(pkt: EPacket, ptr: EPacket?, ptr1: EPacket?, ghost n: nat)
      requires Linked(cells) && len == |cells| && head == At(cells, 0)
      requires n <= |cells| && ptr == At(cells, n) && ptr1 == At(cells, n - 1)
      requires pkt !in cells && pkt.next_ep == null
      modifies this`head, this`tail, this`len, this`cells, ptr1, pkt
      ensures cells == old(cells)[..n] + [pkt] + old(cells)[n..]
      ensures tail == if n == |old(cells)| then pkt else old(tail)
      ensures Linked(cells) && len == |cells| && head == At(cells, 0)
    {
      hide Packets, Linked;
      ghost var before := cells;
      NextsAre(before);
      cells := before[..n] + [pkt] + before[n..];
      if ptr1 != null {
        pkt.next_ep := ptr1.next_ep;
        ptr1.next_ep := pkt;
      } else {
        pkt.next_ep := head;
        head := pkt;
      }
      LinkedWith(before, n, pkt);
      if ptr == null {
        tail := pkt;
      }
      len := len + 1;
    }

    /** Link pkt in front of the first cell of lower level. */
    method LinkIn(pkt: EPacket)
      requires Linked(cells) && len == |cells| && head == At(cells, 0)
      requires tail == null ==> head == null
      requires pkt !in cells && pkt.next_ep == null
      modifies this`head, this`tail, this`len, this`cells, cells, pkt
      ensures cells == LinkedIn(old(cells), pkt)
      ensures Linked(cells) && len == |cells| == |old(cells)| + 1 && head == At(cells, 0)
      ensures old(cells) == [] ==> cells == [pkt]
      ensures tail == if cells[len - 1] == pkt then pkt else old(tail)
    {
      hide Packets, SpotFrom;
      if tail == null {
        head, tail := pkt, pkt;
        len, cells := len + 1, [pkt];
      } else {
        ghost var n := SpotFrom(Packets(cells), pkt.packet, 0);
        var ptr, ptr1 := FindSpot(pkt);
        LinkAt(pkt, ptr, ptr1, n);
      }
    }

    /** At a full queue either the newcomer is turned away or the victim gives way to it. */
    method Replace(pkt: EPacket) returns (out: EPacket)
      requires Valid() && cells != [] && pkt !in cells && pkt.next_ep == null
      modifies this`head, this`tail, this`len, this`cells, cells, pkt
      ensures Linked(cells) && len == |cells| == |old(cells)| && head == At(cells, 0)
      ensures (cells, out) == Replaced(old(cells), pkt)
      ensures tail == if pkt == cells[len - 1] then pkt else old(tail)
    {
      hide Descending, Packets, LinkedIn, Linked;
      VictimOfDescending(Packets(cells));
      ghost var v := Victim(Packets(cells));
      var p, p1 := Lowest();
      out := pkt;
      if pkt.packet.level > p.packet.level {
        SwapOut(p, p1, v);
        out := p;
        LinkIn(pkt);
      }
    }

    /** The arrival of a packet: the cells and the packet handed back are those of ArriveCells, and
        the tail pointer follows only a packet that lands at the end. It stays with the last cell but
        in the case of LeavesTailBehind. */
    method Enqueue(pkt: EPacket) returns (out: EPacket?)
      requires Valid() && (len < maxlen || head != null) && pkt !in cells
      modifies this, cells, pkt
      ensures Valid() && cells != [] && maxlen == old(maxlen)
      ensures (cells, out) == ArriveCells(old(cells), maxlen, pkt)
      ensures drops == old(drops) + (if old(len) >= maxlen then 1 else 0)
      ensures tail == if pkt == cells[len - 1] then pkt else old(tail)
      ensures old(TailIsLast()) ==> (TailIsLast() <==> !LeavesTailBehind(old(cells), maxlen, pkt))
    {
      hide Descending, Packets, LinkedIn, Replaced, Linked, LeavesTailBehind;
      ghost var before, last := cells, At(cells, len - 1);
      LastCellIff(before, maxlen, pkt);
      out, pkt.next_ep := null, null;
      if len >= maxlen {
        drops := drops + 1;
        out := Replace(pkt);
      } else {
        LinkIn(pkt);
      }
      ArriveCellsDescends(before, maxlen, pkt);
      assert old(TailIsLast()) <==> old(tail) == last;
      assert TailIsLast() <==> tail == cells[len - 1];
    }

    /** One poll of the binder. The neighbour's answer is given: the packet goes, or it is put back
        in front. */
    method Serve(accepts: bool) returns (r: int, sent: EPacket?)
      requires Valid()
      modifies this, cells
      ensures Valid() && maxlen == old(maxlen) && drops == old(drops)
      ensures old(TailIsLast()) ==> TailIsLast()
      ensures old(cells) == [] || !accepts ==> r == -1 && sent == null && cells == old(cells)
      ensures old(cells) != [] && accepts ==> r == 1 && sent == old(cells)[0] && cells == old(cells)[1..]
    {
      hide Packets, Descending, Linked;
      var pkt := head;
      r, sent := -1, null;
      if pkt != null {
        ghost var before := cells;
        NextsAre(before);
        DescendingTail(before);
        head := pkt.next_ep;
        if head == null {
          tail := null;
        }
        pkt.next_ep := null;
        len := len - 1;
        cells := cells[1..];
        if accepts {
          r, sent := 1, pkt;
          LinkedBehind(before);
        } else {
          pkt.next_ep := head;
          if tail == null {
            tail := pkt;
          }
          head := pkt;
          len := len + 1;
          cells := before;
          LinkedSame(before);
        }
      }
    }
  }

  lemma ArriveCellsFrom(cells: seq<EPacket>, k: int, pkt: EPacket)
    requires |cells| < k || cells != []
    ensures forall c :: c in ArriveCells(cells, k, pkt).0 ==> c in cells || c == pkt
  {
  }

  /** A new binder of capacity k and the arrivals xs, one call each: the linked queue holds the first
      k of their stable sort, and every call at a full queue counts a drop. */
  method ArriveAll(k: int, xs: seq<Packet>) returns (b: MBinder)
    requires k >= 1
    ensures b.Valid() && fresh(b)
    ensures forall s :: IsStableSort(xs, s) ==> Packets(b.cells) == s[..Min(|xs|, k)]
    ensures b.drops == |xs| - Min(|xs|, k)
  {
    hide Descending, Packets, ArriveCells, Arrive, Linked;
    b := new MBinder(k);
    assert Packets(b.cells) == [] by { NoCells(b.cells); }
    for i := 0 to |xs|
      invariant b.Valid() && fresh(b) && b.maxlen == k
      invariant forall j :: 0 <= j < |b.cells| ==> fresh(b.cells[j])
      invariant Packets(b.cells) == Arrivals(xs, i, k).queue && b.drops == Arrivals(xs, i, k).drops
    {
      var pkt := new EPacket(xs[i]);
      ArriveCellsIsArrive(b.cells, k, pkt);
      ArriveCellsFrom(b.cells, k, pkt);
      ghost var before := b.cells;
      var out := b.Enqueue(pkt);
      forall j | 0 <= j < |b.cells| ensures fresh(b.cells[j]) {
        assert b.cells[j] in ArriveCells(before, k, pkt).0;
        assert b.cells[j] != pkt ==> b.cells[j] in before;
      }
    }
    forall s | IsStableSort(xs, s) ensures Packets(b.cells) == s[..Min(|xs|, k)] {
      QueueIsTruncatedStableSort(xs, s, k);
    }
    ArrivalsDrop(xs, |xs|, k);
  }

  lemma NoCells(cells: seq<EPacket>)
    requires cells == []
    ensures Packets(cells) == []
  {
  }

  lemma ThreeArrivals(x: EPacket, y: EPacket, z: EPacket)
    requires x.packet.level == y.packet.level < z.packet.level
    ensures ArriveCells([], 2, x) == ([x], null) && ArriveCells([x], 2, y) == ([x, y], null)
    ensures ArriveCells([x, y], 2, z) == ([z, x], y)
  {
    assert LinkedIn([], x) == [x];
    assert SpotFrom(Packets([x]), y.packet, 0) == 1;
    assert LinkedIn([x], y) == [x, y];
    assert SpotFrom(Packets([x]), z.packet, 0) == 0;
    assert LinkedIn([x], z) == [z, x];
    WithoutLast([x, y]);
    assert [x, y][..1] == [x];
  }

  /** A binder of two slots, two packets of one level and a higher one: the tail pointer names the
      packet that was handed back. */
  method TailFallsBehind() returns (b: MBinder)
    ensures b.Valid() && b.maxlen == b.len == 2
    ensures b.tail != null && b.tail !in b.cells && !b.TailIsLast()
  {
    hide Linked, ArriveCells, LeavesTailBehind, Packets, Descending;
    b := new MBinder(2);
    var x := new EPacket(Packet(0, 0));
    var y := new EPacket(Packet(1, 0));
    var z := new EPacket(Packet(2, 1));
    ThreeArrivals(x, y, z);
    var out := b.Enqueue(x);
    out := b.Enqueue(y);
    out := b.Enqueue(z);
  }
}

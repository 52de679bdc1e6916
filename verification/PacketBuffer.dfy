/** The private data of a packet: it grows downwards inside the packet, and moves to a cluster when
    it no longer fits. Places are offsets from the start of the packet's buffer header, or of the
    cluster. */
module PacketBuffer {
  import opened Common

  // The layout of struct pbuf on a 32-bit machine: 16 bytes of p_hdr and 16 of s_exthdr, then the
  // flags and, at the next multiple of four, the data area p_dbuf.
  const PLEN := 128
  const P_DATLEN := 94
  const DBUF := 36

  /** The fields that say where the data are. */
  datatype View = View(extend: bool, dat: int, len: int, tlen: int)

  function End(extend: bool, pcluster: int): int {
    if extend then pcluster else PLEN
  }

  /** The data reach to the end of the buffer in use. */
  predicate AtEnd(v: View, pcluster: int) {
    && v.dat + v.len == End(v.extend, pcluster)
    && 0 <= v.len <= (if v.extend then pcluster else P_DATLEN)
  }

  predicate Fits(v: View, n: int, pcluster: int) {
    if v.extend || v.len + n > P_DATLEN then v.len + n <= pcluster else true
  }

  /** Where pkt_malloc leaves the data when n more bytes fit. */
  function Grown(v: View, n: int, pcluster: int): View {
    if !v.extend && v.len + n > P_DATLEN then View(true, pcluster - v.len - n, v.len + n, v.tlen + n)
    else View(v.extend, v.dat - n, v.len + n, v.tlen + n)
  }

  function Sought(v: View, offset: int, pcluster: int): View {
    if v.extend then
      if v.dat + offset >= pcluster then View(true, pcluster, 0, v.tlen - v.len)
      else if v.dat + offset < 0 then View(true, 0, pcluster, v.tlen + v.dat)
      else View(true, v.dat + offset, v.len - offset, v.tlen - offset)
    else
      if v.dat + offset >= PLEN then View(false, PLEN, 0, v.tlen - v.len)
      else if v.dat + offset < DBUF then View(false, DBUF, P_DATLEN, v.tlen + (v.dat - DBUF))
      else View(false, v.dat + offset, v.len - offset, v.tlen - offset)
  }

  /** A seek keeps the data at the end of the buffer, and what lies beyond them in the total length,
      unless it goes below the inline data area: its clamp takes 94 bytes where 92 are left. */
  lemma SeekKeepsEndIff(v: View, offset: int, pcluster: int)
    requires AtEnd(v, pcluster) && pcluster >= P_DATLEN
    ensures AtEnd(Sought(v, offset, pcluster), pcluster) <==> v.extend || v.dat + offset >= DBUF
    ensures var w := Sought(v, offset, pcluster);
            w.tlen - w.len == v.tlen - v.len <==> v.extend || v.dat + offset >= DBUF
  {
  }

  /** A seek moves the place by the offset, as far as the buffer goes: from 36 to 128 inline, from the
      start to the end of a cluster. */
  lemma SeekMoves(v: View, offset: int, pcluster: int)
    requires AtEnd(v, pcluster) && pcluster >= P_DATLEN
    ensures var w, to := Sought(v, offset, pcluster), v.dat + offset;
            var low, high := if v.extend then 0 else 36, if v.extend then pcluster else 128;
            w.extend == v.extend && w.dat == if to < low then low else if to > high then high else to
  {
  }

  /** 88 bytes inline, and a seek back by 10: the data are said to reach two bytes beyond the end. */
  lemma SeekPassesEnd(pcluster: int)
    requires pcluster >= P_DATLEN
    ensures var v := View(false, 40, 88, 88);
            var w := Sought(v, -10, pcluster);
            AtEnd(v, pcluster) && !AtEnd(w, pcluster) && w.dat + w.len == PLEN + 2
  {
  }

  /** Seeking over n bytes just prepended restores the place and the lengths, unless the data stay
      inline and were within two bytes of filling it before. */
  lemma SeekUndoesPrependIff(v: View, n: nat, pcluster: int)
    requires AtEnd(v, pcluster) && pcluster >= P_DATLEN && Fits(v, n, pcluster)
    ensures var w := Sought(Grown(v, n, pcluster), n, pcluster);
            && (AtEnd(w, pcluster) && w.len == v.len && w.tlen == v.tlen
                <==> w.extend || v.len <= PLEN - DBUF)
            && w.extend == (v.extend || v.len + n > P_DATLEN)
  {
  }

  class Buffer {
    const pcluster: nat
    const inner: array<Byte>
    var cluster: array?<Byte>
    var dat: int
    var len: int
    var tlen: int

    ghost function State(): View
      reads this
    {
      View(cluster != null, dat, len, tlen)
    }

    ghost predicate Valid()
      reads this
    {
      && inner.Length == PLEN && pcluster >= P_DATLEN
      && (cluster != null ==> cluster.Length == pcluster && cluster != inner)
      && AtEnd(State(), pcluster)
    }

    /** The bytes from dat to the end. */
    ghost function Contents(): (s: seq<Byte>)
      requires Valid()
      reads this, inner, cluster
      ensures |s| == len
    {
      if cluster != null then cluster[dat..] else inner[dat..]
    }

    constructor (pcluster: nat)
      requires pcluster >= P_DATLEN
      ensures Valid() && fresh(inner) && cluster == null && Contents() == [] && tlen == 0
      ensures this.pcluster == pcluster
    {
      this.pcluster := pcluster;
      inner := new Byte[PLEN](_ => 0);
      cluster := null;
      dat, len, tlen := PLEN, 0, 0;
    }

    /** Move the data to a new cluster. */
    method Migrate()
      requires Valid() && cluster == null
      modifies this`cluster, this`dat
      ensures Valid() && cluster != null && fresh(cluster) && Contents() == old(Contents())
    {
      var c := new Byte[pcluster](_ => 0);
      forall k | 0 <= k < len { c[pcluster - len + k] := inner[dat + k]; }
      ghost var before := inner[dat..];
      assert c[pcluster - len..] == before;
      cluster := c;
      dat := pcluster - len;
    }

    /** pkt_malloc: room for n more bytes in front of the data. Running out of the cluster ends the
        program. */
    method Malloc(n: nat) returns (ok: bool)
      requires Valid()
      modifies this`cluster, this`dat, this`len, this`tlen
      ensures ok == Fits(old(State()), n, pcluster)
      ensures ok ==> Valid() && State() == Grown(old(State()), n, pcluster) && Contents()[n..] == old(Contents())
      ensures cluster == old(cluster) || (cluster != null && fresh(cluster))
    {
      if len + n > P_DATLEN && cluster == null {
        Migrate();
      }
      ghost var data := Contents();
      if cluster != null && dat - n < 0 {
        return false;
      }
      len, tlen, dat := len + n, tlen + n, dat - n;
      assert Contents()[n..] == data;
      return true;
    }

    method Prepend(data: seq<Byte>) returns (ok: bool)
      requires Valid()
      modifies this`cluster, this`dat, this`len, this`tlen, inner, cluster
      ensures ok == Fits(old(State()), |data|, pcluster)
      ensures ok ==> Valid() && State() == Grown(old(State()), |data|, pcluster) && Contents() == data + old(Contents())
      ensures cluster == old(cluster) || (cluster != null && fresh(cluster))
    {
      ok := Malloc(|data|);
      if ok {
        ghost var rest := Contents()[|data|..];
        var a := if cluster != null then cluster else inner;
        forall k | 0 <= k < |data| { a[dat + k] := data[k]; }
        assert a[dat..] == data + rest;
      }
    }

    method Seek(offset: int)
      requires Valid()
      modifies this`dat, this`len, this`tlen
      ensures State() == Sought(old(State()), offset, pcluster)
      ensures Valid() <==> cluster != null || old(dat) + offset >= DBUF
    {
      SeekKeepsEndIff(State(), offset, pcluster);
      if cluster != null {
        if dat + offset >= pcluster {
          dat, tlen, len := pcluster, tlen - len, 0;
        } else if dat + offset < 0 {
          len, tlen, dat := pcluster, tlen + dat, 0;
        } else {
          dat, len, tlen := dat + offset, len - offset, tlen - offset;
        }
        return;
      }
      if dat + offset >= PLEN {
        dat, tlen, len := PLEN, tlen - len, 0;
      } else if dat + offset < DBUF {
        len, tlen, dat := P_DATLEN, tlen + (dat - DBUF), DBUF;
      } else {
        dat, len, tlen := dat + offset, len - offset, tlen - offset;
      }
    }

    /** copy, as to the private data: a buffer of its own with the same bytes. */
    method Copy() returns (b: Buffer)
      requires Valid()
      ensures b.Valid() && fresh(b) && fresh(b.inner) && (b.cluster != null ==> fresh(b.cluster))
      ensures b.pcluster == pcluster && b.State() == State() && b.Contents() == Contents()
    {
      b := new Buffer(pcluster);
      forall k | 0 <= k < PLEN { b.inner[k] := inner[k]; }
      b.len, b.tlen := len, tlen;
      if cluster != null {
        var c := new Byte[pcluster](_ => 0);
        forall k | 0 <= k < len { c[pcluster - len + k] := cluster[dat + k]; }
        b.cluster := c;
        b.dat := pcluster - len;
        assert c[pcluster - len..] == cluster[dat..];
      } else {
        b.dat := PLEN - len;
        assert b.inner[dat..] == inner[dat..];
      }
    }
  }

  /** Prepend and seek back: the earlier contents, under the condition of SeekUndoesPrependIff. */
  method PrependAndBack(b: Buffer, data: seq<Byte>) returns (ok: bool)
    requires b.Valid()
    modifies b, b.inner, b.cluster
    ensures ok == Fits(old(b.State()), |data|, b.pcluster)
    ensures ok && (b.cluster != null || old(b.len) <= PLEN - DBUF) ==>
              b.Valid() && b.Contents() == old(b.Contents()) && b.tlen == old(b.tlen)
    ensures ok && !(b.cluster != null || old(b.len) <= PLEN - DBUF) ==>
              !(b.Valid() && b.len == old(b.len) && b.tlen == old(b.tlen))
  {
    SeekUndoesPrependIff(b.State(), 0, b.pcluster);
    if Fits(b.State(), |data|, b.pcluster) {
      SeekUndoesPrependIff(b.State(), |data|, b.pcluster);
    }
    ghost var before := b.Contents();
    ok := b.Prepend(data);
    if ok {
      ghost var whole := b.Contents();
      b.Seek(|data|);
      assert whole[|data|..] == before;
    }
  }

  /** What is prepended to a copy, or to the original, does not show in the other. */
  method CopiesAreApart(b: Buffer, x: seq<Byte>, y: seq<Byte>) returns (c: Buffer, okB: bool, okC: bool)
    requires b.Valid()
    modifies b, b.inner, b.cluster
    ensures okB == Fits(old(b.State()), |x|, b.pcluster) && okC == Fits(old(b.State()), |y|, b.pcluster)
    ensures okB && okC ==> b.Valid() && b.Contents() == x + old(b.Contents())
    ensures okB && okC ==> c.Valid() && c.Contents() == y + old(b.Contents())
  {
    c := b.Copy();
    okC := c.Prepend(y);
    okB := b.Prepend(x);
  }
}

/** The interarrival jitter kept in 32-bit integers, appendix A.8 of RFC 3550. */
module RtpJitter {
  import opened Common

  /** The word that stands for "no packet yet", -1. */
  const NONE := 0xffff_ffff

  /** The estimate moves a sixteenth of the way; storing it cuts off the fraction, which the double
      arithmetic on these numbers keeps exactly. */
  function Stepped(jitter: nat, d: nat): (r: nat) {
    (jitter as real + (1.0 / 16.0) * (d as real - jitter as real)).Floor
  }

  lemma SteppedIs(jitter: nat, d: nat)
    ensures Stepped(jitter, d) == (15 * jitter + d) / 16
  {
    var n := 15 * jitter + d;
    var q := n / 16;
    var moved := jitter as real + (1.0 / 16.0) * (d as real - jitter as real);
    assert moved * 16.0 == n as real;
    assert n == 16 * q + n % 16;
    assert q as real <= moved < q as real + 1.0;
  }

  /** The size of the difference of two transit words, read as a signed int. */
  function Apart(transit: nat, before: nat): nat {
    var x := (transit - before) % TWO_32;
    if x < 0x8000_0000 then x else TWO_32 - x
  }

  /** The two words of one source that the data packets update. */
  class JitterEntry {
    var transit: nat
    var jitter: nat

    constructor ()
      ensures jitter == NONE
    {
      transit, jitter := 0, NONE;
    }

    /** update_member_info for a data packet. Negating the most negative int has no defined result
        in C, so that difference is left out. */
    method UpdateJitter(arrival: nat, timestamp: nat)
      requires jitter != NONE ==> (arrival - timestamp - transit) % TWO_32 != 0x8000_0000
      requires jitter == NONE || jitter < 0x8000_0000
      modifies this
      ensures transit == (arrival - timestamp) % TWO_32
      ensures old(jitter) == NONE ==> jitter == 0
      ensures old(jitter) != NONE ==> jitter == Stepped(old(jitter), Apart(transit, old(transit)))
      ensures jitter < 0x8000_0000
    {
      var now := (arrival - timestamp) % TWO_32;
      if jitter == NONE {
        jitter := 0;
        transit := now;
      } else {
        ModAdds(arrival - timestamp, -(transit as int));
        var x := (now - transit) % TWO_32;
        var d: int := if x < 0x8000_0000 then x else x - TWO_32;
        transit := now;
        if d < 0 {
          d := -d;
        }
        SteppedIs(jitter, d);
        jitter := Stepped(jitter, d);
      }
    }
  }

  /** Two transit words that differ by less than 2^31 are apart by the size of that difference. */
  lemma ApartIs(t: int, d: int)
    requires -0x8000_0000 < d < 0x8000_0000
    ensures Apart((t + d) % TWO_32, t % TWO_32) == if d < 0 then -d else d
  {
    var x := (t + d) % TWO_32 - t % TWO_32;
    var k := (t + d) / TWO_32 - t / TWO_32;
    assert t == TWO_32 * (t / TWO_32) + t % TWO_32;
    assert t + d == TWO_32 * ((t + d) / TWO_32) + (t + d) % TWO_32;
    assert d == TWO_32 * k + x;
    if d < 0 { Division(TWO_32, x, -k - 1, d + TWO_32); } else { Division(TWO_32, x, -k, d); }
  }

  // ---------- Runs ----------

  /** The estimate after the first n differences. */
  function After(jitter: nat, ds: seq<nat>, n: nat): nat
    requires n <= |ds|
  {
    if n == 0 then jitter else Stepped(After(jitter, ds, n - 1), ds[n - 1])
  }

  /** The estimate never exceeds the start and the differences seen, nor falls more than the cut-off
      fraction allows below them; so it never meets the word for "no packet yet". */
  lemma {:induction false} StaysInRange(jitter: nat, ds: seq<nat>, n: nat, low: nat, high: nat)
    requires n <= |ds| && low <= jitter <= high && forall k :: 0 <= k < |ds| ==> low <= ds[k] <= high
    ensures low - 15 <= After(jitter, ds, n) <= high
  {
    hide Stepped;
    if n != 0 {
      StaysInRange(jitter, ds, n - 1, low, high);
      SteppedIs(After(jitter, ds, n - 1), ds[n - 1]);
    }
  }

  /** Under a constant difference the estimates that no longer move are those in [d - 15, d]. */
  lemma RestsIff(jitter: nat, d: nat)
    ensures Stepped(jitter, d) == jitter <==> jitter <= d <= jitter + 15
  {
    SteppedIs(jitter, d);
  }

  function Constant(d: nat, n: nat): (ds: seq<nat>)
    ensures |ds| == n && forall k :: 0 <= k < n ==> ds[k] == d
  {
    seq(n, i => d)
  }

  /** Under a constant difference d an estimate above d comes down to exactly d, and one below
      climbs into [d - 15, d], in no more steps than the distance; it never crosses d. */
  lemma {:induction false} Converges(jitter: nat, d: nat, total: nat, n: nat)
    requires n <= total
    ensures var j := After(jitter, Constant(d, total), n);
            && (jitter >= d ==> j >= d && j <= Larger(d, jitter - n))
            && (jitter <= d ==> j <= d && j >= Smaller(d - 15, jitter + n))
  {
    hide Stepped;
    if n != 0 {
      Converges(jitter, d, total, n - 1);
      SteppedIs(After(jitter, Constant(d, total), n - 1), d);
    }
  }

  function Larger(a: int, b: int): int { if a < b then b else a }
  function Smaller(a: int, b: int): int { if a < b then a else b }
}

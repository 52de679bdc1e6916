/** The RTCP transmission interval, section 6.3.1 and appendix A.7 of RFC 3550, and the time values
    it is turned into. The doubles of the code are reals here. */
module RtcpInterval {

  const RTCP_MIN_TIME := 5.0
  const SENDER_FRACTION := 0.25
  const RCVR_FRACTION := 0.75
  const COMPENSATION := 1.21828

  datatype Rule = Rule(bw: real, avgSize: real, members: int, senders: int, pmembers: int,
                       weSent: bool, initial: bool)

  /** The time n packets of a size take at bandwidth bw. */
  function Need(size: real, n: real, bw: real): real
    requires bw > 0.0
  {
    size * n / bw
  }

  /** The bandwidth of n members that each send a packet every t seconds. */
  function Rate(n: real, size: real, t: real): real
    requires t > 0.0
  {
    n * size / t
  }

  /** The interval before it is randomised. */
  function Deterministic(r: Rule): (t: real)
    requires r.bw > 0.0
    ensures t > 0.0
  {
    var least := if r.initial then RTCP_MIN_TIME / 2.0 else RTCP_MIN_TIME;
    var (n, bw) :=
      if r.senders as real <= r.members as real * SENDER_FRACTION then
        if r.weSent then (r.senders, r.bw * SENDER_FRACTION) else (r.members - r.senders, r.bw * RCVR_FRACTION)
      else (r.members, r.bw);
    var t := Need(r.avgSize, n as real, bw);
    if t < least then least else t
  }

  /** draw is the random number, from 0 up to but not including 1. */
  function Interval(r: Rule, draw: real): real
    requires r.bw > 0.0
  {
    Deterministic(r) * (draw + 0.5) / COMPENSATION
  }

  // ---------- The bandwidth is not exceeded ----------

  lemma Scale(a: real, b: real, c: real)
    requires a >= b && c >= 0.0
    ensures a * c >= b * c
  {
  }

  /** n members that each send size in every interval t, long enough for the bandwidth. */
  lemma GroupRate(n: real, size: real, bw: real, t: real)
    requires n >= 0.0 && size >= 0.0 && bw > 0.0 && t > 0.0 && t >= Need(size, n, bw)
    ensures Rate(n, size, t) <= bw
  {
    Scale(t, size * n / bw, bw);
    assert size * n / bw * bw == n * size;
    Scale(t * bw, n * size, 1.0 / t);
    assert t * bw * (1.0 / t) == bw;
    assert n * size * (1.0 / t) == n * size / t;
  }

  lemma SumRate(a: real, b: real, size: real, t: real)
    requires t > 0.0
    ensures Rate(a + b, size, t) == Rate(a, size, t) + Rate(b, size, t)
  {
    assert (a + b) * size == a * size + b * size;
  }

  /** The rate at which a session of senders and receivers sends, every member by its interval. */
  function TotalRate(r: Rule): real
    requires r.bw > 0.0
  {
    Rate(r.senders as real, r.avgSize, Deterministic(r.(weSent := true)))
    + Rate((r.members - r.senders) as real, r.avgSize, Deterministic(r.(weSent := false)))
  }

  lemma LongEnough(r: Rule)
    requires r.bw > 0.0
    ensures var t := Deterministic(r);
            && t >= RTCP_MIN_TIME / 2.0
            && (r.senders as real <= r.members as real * SENDER_FRACTION ==>
                  if r.weSent then t >= Need(r.avgSize, r.senders as real, r.bw * SENDER_FRACTION)
                  else t >= Need(r.avgSize, (r.members - r.senders) as real, r.bw * RCVR_FRACTION))
            && (r.senders as real > r.members as real * SENDER_FRACTION ==>
                  t >= Need(r.avgSize, r.members as real, r.bw))
  {
  }

  lemma SameForAll(r: Rule)
    requires r.bw > 0.0 && r.senders as real > r.members as real * SENDER_FRACTION
    ensures Deterministic(r.(weSent := true)) == Deterministic(r.(weSent := false))
  {
  }

  /** If all members agree on the counts and the size, together they stay within the bandwidth, in
      every branch and with the minimum applied. */
  lemma BandwidthHolds(r: Rule)
    requires r.bw > 0.0 && r.avgSize >= 0.0 && 0 <= r.senders <= r.members
    ensures TotalRate(r) <= r.bw
  {
    hide Deterministic, Need, Rate;
    var s, n := r.senders as real, (r.members - r.senders) as real;
    var ts, tr := Deterministic(r.(weSent := true)), Deterministic(r.(weSent := false));
    LongEnough(r.(weSent := true));
    LongEnough(r.(weSent := false));
    if s <= r.members as real * SENDER_FRACTION {
      GroupRate(s, r.avgSize, r.bw * SENDER_FRACTION, ts);
      GroupRate(n, r.avgSize, r.bw * RCVR_FRACTION, tr);
    } else {
      SameForAll(r);
      assert s + n == r.members as real;
      GroupRate(s + n, r.avgSize, r.bw, ts);
      SumRate(s, n, r.avgSize, ts);
    }
  }

  /** Above the minimum the bandwidth is used up. */
  lemma BandwidthUsed(r: Rule)
    requires r.bw > 0.0 && r.avgSize > 0.0 && 0 <= r.senders <= r.members
    requires Deterministic(r.(weSent := true)) > 5.0 && Deterministic(r.(weSent := false)) > 5.0
    ensures TotalRate(r) == r.bw
  {
    var s, n := r.senders as real, (r.members - r.senders) as real;
    var ts, tr := Deterministic(r.(weSent := true)), Deterministic(r.(weSent := false));
    if s <= r.members as real * SENDER_FRACTION {
      assert ts == Need(r.avgSize, s, r.bw * SENDER_FRACTION) && tr == Need(r.avgSize, n, r.bw * RCVR_FRACTION);
      hide Deterministic;
      RateOfNeed(s, r.avgSize, r.bw * SENDER_FRACTION);
      RateOfNeed(n, r.avgSize, r.bw * RCVR_FRACTION);
    } else {
      assert ts == tr == Need(r.avgSize, r.members as real, r.bw);
      hide Deterministic;
      assert s + n == r.members as real;
      RateOfNeed(s + n, r.avgSize, r.bw);
      SumRate(s, n, r.avgSize, ts);
    }
  }

  lemma RateOfNeed(n: real, size: real, bw: real)
    requires size > 0.0 && bw > 0.0 && Need(size, n, bw) > 0.0
    ensures Rate(n, size, Need(size, n, bw)) == bw
  {
    var t := size * n / bw;
    assert t * bw == n * size;
    assert n * size / t == bw;
  }

  // ---------- Time values ----------

  const MILLION := 1000000

  datatype Timeval = Timeval(sec: int, usec: int)

  predicate Proper(t: Timeval) {
    0 <= t.usec < MILLION
  }

  function Micros(t: Timeval): int {
    t.sec * MILLION + t.usec
  }

  /** Nothing shorter than a microsecond, except that zero becomes one. */
  function DoubleToTimeval(time: real): (t: Timeval)
    requires time >= 0.0
    ensures Proper(t)
  {
    var sec := time.Floor;
    var usec := (MILLION as real * (time - sec as real)).Floor;
    if sec == 0 && usec == 0 then Timeval(0, 1) else Timeval(sec, usec)
  }

  function AddTimeval(a: Timeval, b: Timeval): Timeval {
    var sec, usec := a.sec + b.sec, a.usec + b.usec;
    if usec >= MILLION then Timeval(sec + 1, usec - MILLION) else Timeval(sec, usec)
  }

  /** t is not later than now. */
  predicate TimeExpire(t: Timeval, now: Timeval) {
    if t.sec > now.sec then false
    else if t.sec < now.sec then true
    else if t.usec > now.usec then false
    else true
  }

  /** On proper values the carry is right and the comparison is that of the microseconds. */
  lemma TimeArithmetic(a: Timeval, b: Timeval)
    requires Proper(a) && Proper(b)
    ensures Proper(AddTimeval(a, b)) && Micros(AddTimeval(a, b)) == Micros(a) + Micros(b)
    ensures TimeExpire(a, b) <==> Micros(a) <= Micros(b)
  {
  }

  /** The conversion is off by less than a microsecond, but for the correction at zero. */
  lemma DoubleToTimevalIs(time: real)
    requires time >= 0.0
    ensures var m := Micros(DoubleToTimeval(time)) as real;
            m <= time * MILLION as real < m + 1.0 || (m == 1.0 && time * MILLION as real < 1.0)
  {
    var sec := time.Floor;
    var rest := MILLION as real * (time - sec as real);
    assert time * MILLION as real == (sec * MILLION) as real + rest;
  }

  lemma LongerThanASecond(t: real)
    requires t > 1.0
    ensures Micros(DoubleToTimeval(t)) >= MILLION
  {
    assert t.Floor >= 1;
  }

  /** Every interval lasts longer than a second. */
  lemma IntervalLasts(r: Rule, draw: real)
    requires r.bw > 0.0 && 0.0 <= draw < 1.0
    ensures Interval(r, draw) > 1.0
    ensures Micros(DoubleToTimeval(Interval(r, draw))) >= MILLION
  {
    hide Deterministic;
    LongEnough(r);
    Scale(Deterministic(r), 2.5, draw + 0.5);
    var x := Deterministic(r) * (draw + 0.5);
    assert x >= 1.25;
    LongerThanASecond(x / COMPENSATION);
  }

  /** The time one interval after base, for a draw. */
  function NextTime(base: Timeval, r: Rule, draw: real): Timeval
    requires r.bw > 0.0 && 0.0 <= draw < 1.0
  {
    IntervalLasts(r, draw);
    AddTimeval(base, DoubleToTimeval(Interval(r, draw)))
  }

  lemma Between(d: real, f: real)
    requires d > 0.0 && 0.5 <= f < 1.5
    ensures d * 0.5 <= d * f <= d * 1.5
  {
    Scale(f, 0.5, d);
    Scale(1.5, f, d);
  }

  lemma Microseconds(d: real, f: real, t: real, m: int)
    requires d > 0.0 && 0.5 <= f < 1.5 && t == d * f / 1.21828
    requires m as real <= t * 1000000.0 < m as real + 1.0
    ensures d * 0.5 / 1.21828 * 1000000.0 < m as real + 1.0
    ensures m as real <= d * 1.5 / 1.21828 * 1000000.0
  {
    Between(d, f);
  }

  lemma SameDeterministic(r: Rule, pmembers: int)
    requires r.bw > 0.0
    ensures Deterministic(r.(pmembers := pmembers)) == Deterministic(r)
  {
  }

  lemma SameInterval(r: Rule, pmembers: int, draw: real)
    requires r.bw > 0.0
    ensures Interval(r.(pmembers := pmembers), draw) == Interval(r, draw)
  {
    SameDeterministic(r, pmembers);
    hide Deterministic;
  }

  /** pmembers does not enter the interval. */
  lemma SameNextTime(base: Timeval, r: Rule, pmembers: int, draw: real)
    requires r.bw > 0.0 && 0.0 <= draw < 1.0
    ensures NextTime(base, r.(pmembers := pmembers), draw) == NextTime(base, r, draw)
  {
    hide Deterministic, DoubleToTimeval, AddTimeval, Interval;
    SameInterval(r, pmembers, draw);
  }

  /** It is later by at least a second, and between half and one and a half of the deterministic
      interval, divided by the compensation, cut off to microseconds. */
  lemma NextTimeBounds(base: Timeval, r: Rule, draw: real)
    requires r.bw > 0.0 && 0.0 <= draw < 1.0 && Proper(base)
    ensures var d := Micros(NextTime(base, r, draw)) - Micros(base);
            && Proper(NextTime(base, r, draw)) && d >= 1000000
            && Deterministic(r) * 0.5 / 1.21828 * 1000000.0 < d as real + 1.0
            && d as real <= Deterministic(r) * 1.5 / 1.21828 * 1000000.0
  {
    hide Deterministic;
    var t := Interval(r, draw);
    assert t == Deterministic(r) * (draw + 0.5) / 1.21828;
    IntervalLasts(r, draw);
    DoubleToTimevalIs(t);
    TimeArithmetic(base, DoubleToTimeval(t));
    var m := Micros(DoubleToTimeval(t));
    hide DoubleToTimeval, Micros, Interval;
    Microseconds(Deterministic(r), draw + 0.5, t, m);
  }

  /** The deterministic interval is the least that is neither below the minimum, 5 seconds and half of
      that for the first report, nor below what the bandwidth needs. */
  lemma DeterministicIsLeast(r: Rule)
    requires r.bw > 0.0
    ensures var least := if r.initial then 2.5 else 5.0;
            var need := if r.senders as real > 0.25 * r.members as real then r.avgSize * r.members as real / r.bw
                        else if r.weSent then r.avgSize * r.senders as real / (0.25 * r.bw)
                        else r.avgSize * (r.members - r.senders) as real / (0.75 * r.bw);
            Deterministic(r) == if need < least then least else need
  {
    assert r.bw * SENDER_FRACTION == 0.25 * r.bw && r.bw * RCVR_FRACTION == 0.75 * r.bw;
    assert r.members as real * SENDER_FRACTION == 0.25 * r.members as real;
  }
}

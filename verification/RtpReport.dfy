/** Loss accounting in report blocks, appendix A.3 of RFC 3550. */
module RtpReport {
  import opened Common
  import opened RtpSource

  /** The value of a 32-bit word read as a signed int. */
  function Int32(x: int): int {
    if x % TWO_32 < 0x8000_0000 then x % TWO_32 else x % TWO_32 - TWO_32
  }

  /** A signed field of 24 bits. */
  function Field24(x: int): int {
    if x % 0x100_0000 < 0x80_0000 then x % 0x100_0000 else x % 0x100_0000 - 0x100_0000
  }

  datatype Block = Block(fraction: nat, lost: int, lastSeq: nat)

  function Expected(s: Source): nat {
    (s.cycles + s.maxSeq - s.baseSeq + 1) % TWO_32
  }

  function Lost(s: Source): int {
    Int32(Expected(s) - s.received)
  }

  /** The quotient is unsigned, the shift is on 32 bits, and the field keeps 8. */
  function FractionIn(expectedInterval: nat, receivedInterval: nat): nat {
    var lostInterval := Int32(expectedInterval - receivedInterval);
    if expectedInterval == 0 || lostInterval <= 0 then 0
    else lostInterval * 256 % TWO_32 / expectedInterval % TWO_32
  }

  function Fraction(s: Source): nat {
    FractionIn((Expected(s) - s.expectedPrior) % TWO_32, (s.received - s.receivedPrior) % TWO_32)
  }

  function Report(s: Source): (Source, Block) {
    (s.(expectedPrior := Expected(s), receivedPrior := s.received),
     Block(Fraction(s) % 256, Field24(Lost(s)), s.maxSeq))
  }

  /** build_report_block, as far as the source is concerned. */
  method BuildReportBlock(e: SourceEntry) returns (block: Block)
    modifies e
    ensures (e.View(), block) == Report(old(e.View()))
  {
    hide Int32, Field24;
    var extendedMax := (e.cycles + e.maxSeq) % TWO_32;
    var expected := (extendedMax - e.baseSeq + 1) % TWO_32;
    ModAdds(e.cycles + e.maxSeq, 1 - e.baseSeq);
    var lost := Int32(expected - e.received);
    var expectedInterval := (expected - e.expectedPrior) % TWO_32;
    e.expectedPrior := expected;
    var receivedInterval := (e.received - e.receivedPrior) % TWO_32;
    e.receivedPrior := e.received;
    var lostInterval := Int32(expectedInterval - receivedInterval);
    var fraction;
    if expectedInterval == 0 || lostInterval <= 0 {
      fraction := 0;
    } else {
      fraction := lostInterval * 256 % TWO_32 / expectedInterval % TWO_32;
    }
    block := Block(fraction % 256, Field24(lost), e.maxSeq);
  }

  // ---------- The cumulative loss ----------

  /** The true numbers from first to m. */
  ghost function Span(first: int, m: int): set<int>
    decreases m - first
  {
    if m < first then {} else Span(first, m - 1) + {m}
  }

  lemma {:induction false} SpanIs(first: int, m: int, x: int)
    ensures x in Span(first, m) <==> first <= x <= m
    decreases m - first
  {
    if first <= m { SpanIs(first, m - 1, x); }
  }

  lemma {:induction false} SpanSize(first: int, m: int)
    requires first - 1 <= m
    ensures |Span(first, m)| == m - first + 1
    decreases m - first
  {
    if first <= m {
      SpanSize(first, m - 1);
      SpanIs(first, m - 1, m);
    }
  }

  lemma {:induction false} SpanGrows(first: int, m: int, k: int)
    requires m <= k
    ensures Span(first, m) <= Span(first, k)
    decreases k - m
  {
    if m < k && first <= k { SpanGrows(first, m, k - 1); }
  }

  /** The numbers of which at least one copy arrived, the first packet included. */
  ghost function Seen(first: int, ts: seq<int>, n: nat): set<int>
    requires n <= |ts|
  {
    if n == 0 then {first} else Seen(first, ts, n - 1) + {ts[n - 1]}
  }

  lemma {:induction false} SeenWithin(first: int, ts: seq<int>, n: nat)
    requires n <= |ts| && forall k :: 0 <= k < |ts| ==> first <= ts[k]
    ensures first <= MaxOf(first, ts, n)
    ensures Seen(first, ts, n) <= Span(first, MaxOf(first, ts, n))
  {
    var m := MaxOf(first, ts, n);
    if n == 0 {
      SpanIs(first, m, first);
    } else {
      SeenWithin(first, ts, n - 1);
      SpanGrows(first, MaxOf(first, ts, n - 1), m);
      SpanIs(first, m, ts[n - 1]);
    }
  }

  /** Numbers up to the maximum that never arrived, and copies beyond the first of those that did. */
  ghost function Missing(first: int, ts: seq<int>): nat {
    |Span(first, MaxOf(first, ts, |ts|)) - Seen(first, ts, |ts|)|
  }

  ghost function Duplicates(first: int, ts: seq<int>): int {
    |ts| + 1 - |Seen(first, ts, |ts|)|
  }

  lemma ExpectedIs(s: Source, first: int, m: int)
    requires Tracks(s, first, m)
    ensures Expected(s) == (m - first + 1) % TWO_32
  {
    ExtendedIs(s, first, m);
    assert first == first / SEQ_MOD * SEQ_MOD + first % SEQ_MOD;
    ModAdds(s.cycles + s.maxSeq, 1 - s.baseSeq);
    ModAdds(m - first / SEQ_MOD * SEQ_MOD, 1 - s.baseSeq);
  }

  lemma Int32Of(x: int, y: int, v: int)
    requires x == y % TWO_32 && -0x8000_0000 <= v < 0x8000_0000
    ensures Int32(x - (y - v) % TWO_32) == v
  {
    var q, p := y / TWO_32, (y - v) / TWO_32;
    assert y == q * TWO_32 + x && y - v == p * TWO_32 + (y - v) % TWO_32;
    var d := x - (y - v) % TWO_32;
    assert d == v + (p - q) * TWO_32;
    if v >= 0 { Division(TWO_32, d, p - q, v); } else { Division(TWO_32, d, p - q - 1, v + TWO_32); }
  }

  /** The words hold v as far as their widths allow. */
  lemma LostWord(x: int, y: int, v: int)
    requires x == y % TWO_32
    ensures exists k: int :: Int32(x - (y - v) % TWO_32) == v + k * TWO_32
    ensures -0x8000_0000 <= Int32(x - (y - v) % TWO_32) < 0x8000_0000
  {
    var q, p, d := y / TWO_32, (y - v) / TWO_32, x - (y - v) % TWO_32;
    assert d == v + (p - q) * TWO_32;
    var r := d / TWO_32;
    assert d == r * TWO_32 + d % TWO_32;
    var k := p - q - r - (if d % TWO_32 < 0x8000_0000 then 0 else 1);
    assert k * TWO_32 == (p - q) * TWO_32 - r * TWO_32 - (if d % TWO_32 < 0x8000_0000 then 0 else TWO_32);
    assert Int32(d) == v + k * TWO_32;
  }

  lemma Field24Iff(x: int)
    ensures Field24(x) == x <==> -0x80_0000 <= x < 0x80_0000
  {
  }

  lemma Cycles24(x: int, m: int)
    ensures (x + m * 0x100_0000) % 0x100_0000 == x % 0x100_0000
  {
    var q := x / 0x100_0000;
    Division(0x100_0000, x + m * 0x100_0000, q + m, x % 0x100_0000);
  }

  lemma FieldOf(lost: int, v: int, k: int)
    requires lost == v + k * TWO_32
    ensures Field24(lost) == v <==> -0x80_0000 <= v < 0x80_0000
  {
    Cycles24(v, 256 * k);
    assert Field24(lost) == Field24(v);
    Field24Iff(v);
  }

  /** For a stream whose numbers stay in the window and at or above the first, the loss is the numbers
      that never arrived less the surplus copies: exactly so as long as that fits a signed word, and
      in the block, which cuts it off and does not clamp it, as long as it fits 24 bits. */
  lemma LostIsMissingLessDuplicates(s: Source, first: int, ts: seq<int>)
    requires Tracks(s, first, first) && s.received == 1 && Tame(first, ts)
    requires forall k :: 0 <= k < |ts| ==> first <= ts[k]
    ensures var v, r := Missing(first, ts) - Duplicates(first, ts), After(s, ts, |ts|);
            && (Lost(r) == v <==> -0x8000_0000 <= v < 0x8000_0000)
            && (Report(r).1.lost == v <==> -0x80_0000 <= v < 0x80_0000)
    ensures Duplicates(first, ts) >= 0
  {
    hide After, MaxOf, Seen, Span, Tame, Expected, Tracks, InWindow, Int32, Field24;
    var n := |ts|;
    var m := MaxOf(first, ts, n);
    var v := Missing(first, ts) - Duplicates(first, ts);
    StreamTracks(s, first, ts, n);
    SeenWithin(first, ts, n);
    SpanSize(first, m);
    SeenCount(first, ts, n);
    CardinalityOfDifference(Span(first, m), Seen(first, ts, n));
    ExpectedIs(After(s, ts, n), first, m);
    assert v == m - first - n;
    var x := Expected(After(s, ts, n));
    LostWord(x, m - first + 1, v);
    var k: int :| Int32(x - (m - first + 1 - v) % TWO_32) == v + k * TWO_32;
    FieldOf(v + k * TWO_32, v, k);
    if -0x8000_0000 <= v < 0x8000_0000 { Int32Of(x, m - first + 1, v); }
  }

  /** The block's last sequence number is the extended one, counted from the offset fixed at
      init_seq, exactly as long as the stream has not wrapped. */
  lemma LastSeqExtendedIff(s: Source, first: int, ts: seq<int>)
    requires Tracks(s, first, first) && s.received < TWO_32 && Tame(first, ts)
    ensures var m := MaxOf(first, ts, |ts|);
            Report(After(s, ts, |ts|)).1.lastSeq == m - first / SEQ_MOD * SEQ_MOD <==> m / SEQ_MOD == first / SEQ_MOD
  {
    hide After, MaxOf, Tame;
    StreamTracks(s, first, ts, |ts|);
    var m := MaxOf(first, ts, |ts|);
    assert m == m / SEQ_MOD * SEQ_MOD + m % SEQ_MOD;
  }

  lemma CardinalityOfDifference(a: set<int>, b: set<int>)
    requires b <= a
    ensures |a - b| == |a| - |b|
  {
    assert a == (a - b) + b;
  }

  lemma {:induction false} SeenCount(first: int, ts: seq<int>, n: nat)
    requires n <= |ts|
    ensures |Seen(first, ts, n)| <= n + 1
  {
    if n != 0 { SeenCount(first, ts, n - 1); }
  }

  /** n packets, each 2999 beyond the one before: the widest gaps the window lets through. */
  function Gaps(n: nat): (ts: seq<int>)
    ensures |ts| == n && forall k :: 0 <= k < n ==> ts[k] == 2999 * (k + 1)
  {
    seq(n, k => 2999 * (k + 1))
  }

  lemma {:induction false} GapsMax(n: nat, k: nat)
    requires k <= n
    ensures MaxOf(0, Gaps(n), k) == 2999 * k
  {
    if k != 0 { GapsMax(n, k - 1); }
  }

  lemma GapsAreTame(n: nat)
    ensures Tame(0, Gaps(n)) && forall k :: 0 <= k < n ==> 0 <= Gaps(n)[k]
  {
    forall k | 0 <= k < n ensures InWindow(Gaps(n)[k], MaxOf(0, Gaps(n), k)) {
      GapsMax(n, k);
    }
  }

  /** All between the packets is missing, and nothing comes twice. */
  lemma GapsLose(n: nat)
    ensures Missing(0, Gaps(n)) - Duplicates(0, Gaps(n)) == 2998 * n
  {
    hide MaxOf, Seen, Span;
    GapsAreTame(n);
    GapsMax(n, n);
    SeenWithin(0, Gaps(n), n);
    SpanSize(0, 2999 * n);
    CardinalityOfDifference(Span(0, 2999 * n), Seen(0, Gaps(n), n));
  }

  /** 2799 such packets lose more than the block's 24 bits can say, and 22 of them take the number over
      its 16 bits: two streams after which the block is wrong. */
  lemma LongStreamsMisreport(s: Source)
    requires Tracks(s, 0, 0) && s.received == 1
    ensures Tame(0, Gaps(2799)) && Tame(0, Gaps(22))
    ensures var v := Missing(0, Gaps(2799)) - Duplicates(0, Gaps(2799));
            v == 8391402 && Report(After(s, Gaps(2799), 2799)).1.lost != v
    ensures MaxOf(0, Gaps(22), 22) == 65978 && Report(After(s, Gaps(22), 22)).1.lastSeq != 65978
  {
    hide After, MaxOf, Tame, Tracks, Missing, Duplicates, Report;
    GapsAreTame(2799);
    GapsAreTame(22);
    GapsLose(2799);
    GapsMax(22, 22);
    LostIsMissingLessDuplicates(s, 0, Gaps(2799));
    LastSeqExtendedIff(s, 0, Gaps(22));
  }

  // ---------- The fraction lost in an interval ----------

  /** A source with its counts since init_seq and since the last report kept without wrapping. */
  datatype Account = Account(s: Source, expected: int, received: int, expectedPrior: int, receivedPrior: int)

  /** A packet arrives, or a report is sent. Only a validated source is reported on. */
  datatype Op = Packet(seqno: Seq16) | SendReport

  function Next(g: Account, op: Op): Account {
    match op
    case SendReport =>
      if g.s.probation > 0 then g
      else Account(Report(g.s).0, g.expected, g.received, g.expected, g.received)
    case Packet(seqno) =>
      var (r, ok) := Update(g.s, seqno);
      var udelta := (seqno - g.s.maxSeq) % SEQ_MOD;
      if !ok then g.(s := r)
      else if g.s.probation > 0 || MAX_DROPOUT <= udelta <= SEQ_MOD - MAX_MISORDER then Account(r, 1, 1, 0, 0)
      else g.(s := r, expected := g.expected + (if udelta < MAX_DROPOUT then udelta else 0),
              received := g.received + 1)
  }

  function Created(seqno: Seq16): Account {
    Account(Source((seqno - 1) % SEQ_MOD, 0, seqno, SEQ_MOD + 1, MIN_SEQUENTIAL, 0, 0, 0), 0, 0, 0, 0)
  }

  /** The account after the first k operations on a new member. */
  function History(seqno: Seq16, ops: seq<Op>, k: nat): Account
    requires k <= |ops|
  {
    if k == 0 then Created(seqno) else Next(History(seqno, ops, k - 1), ops[k - 1])
  }

  /** Once the source is valid, its words are the counts modulo 2^32, the counts do not go back
      within an interval, and more expected means more received. */
  ghost predicate Sound(g: Account) {
    g.s.probation == 0 ==>
      && Expected(g.s) == g.expected % TWO_32 && g.s.received == g.received % TWO_32
      && g.s.expectedPrior == g.expectedPrior % TWO_32 && g.s.receivedPrior == g.receivedPrior % TWO_32
      && g.expectedPrior <= g.expected && g.receivedPrior <= g.received
      && (g.expectedPrior < g.expected ==> g.receivedPrior < g.received)
  }

  lemma Steps(a: int, from: Seq16, to: Seq16)
    ensures (a + (to - from) % SEQ_MOD) % TWO_32 == (a % TWO_32 + (to - from) % SEQ_MOD) % TWO_32
    ensures (to - from) % SEQ_MOD == if to < from then to - from + SEQ_MOD else to - from
  {
    ModAdds(a, (to - from) % SEQ_MOD);
  }

  lemma InOrderExpects(s: Source, seqno: Seq16)
    requires s.probation == 0 && (seqno - s.maxSeq) % SEQ_MOD < MAX_DROPOUT
    ensures Expected(Update(s, seqno).0) == (Expected(s) + (seqno - s.maxSeq) % SEQ_MOD) % TWO_32
  {
    Steps(s.cycles + s.maxSeq - s.baseSeq + 1, s.maxSeq, seqno);
    if seqno < s.maxSeq {
      ModAdds(s.cycles + SEQ_MOD, seqno - s.baseSeq + 1);
    }
  }

  lemma NextIsSound(g: Account, op: Op)
    requires Sound(g)
    ensures Sound(Next(g, op))
  {
    hide Fraction, Lost;
    if op.Packet? && g.s.probation == 0 {
      var udelta := (op.seqno - g.s.maxSeq) % SEQ_MOD;
      OneMore(g.received);
      if udelta < MAX_DROPOUT {
        InOrderExpects(g.s, op.seqno);
        ModAdds(g.expected, udelta);
      }
    }
  }

  lemma {:induction false} EveryHistory(seqno: Seq16, ops: seq<Op>, k: nat)
    requires k <= |ops|
    ensures Sound(History(seqno, ops, k))
  {
    hide Next, Sound;
    if k != 0 {
      EveryHistory(seqno, ops, k - 1);
      NextIsSound(History(seqno, ops, k - 1), ops[k - 1]);
    } else {
      NewIsSound(seqno);
    }
  }

  lemma NewIsSound(seqno: Seq16)
    ensures Sound(Created(seqno))
  {
  }

  /** In every history of packets and reports, across wraps and re-synchronisations, the fraction
      in a report is the interval's loss over what it expected, in 1/256, and fits its 8 bits. The
      bounds are those of the words: fewer than 2^32 expected, and a loss from -2^31 to below 2^23,
      so that 256 times the loss fits. */
  lemma FractionIsExact(seqno: Seq16, ops: seq<Op>, k: nat)
    requires k <= |ops|
    ensures var g := History(seqno, ops, k);
            var expected, received := g.expected - g.expectedPrior, g.received - g.receivedPrior;
            var fraction := Report(g.s).1.fraction;
            g.s.probation == 0 && expected < TWO_32 && -0x8000_0000 <= expected - received < 0x80_0000 ==>
              && fraction == Fraction(g.s) <= 255
              && fraction == if received < expected && expected > 0 then (expected - received) * 256 / expected else 0
  {
    EveryHistory(seqno, ops, k);
    var g := History(seqno, ops, k);
    var expected, received := g.expected - g.expectedPrior, g.received - g.receivedPrior;
    hide History, Sound, Fraction, Report;
    if g.s.probation == 0 && expected < TWO_32 && -0x8000_0000 <= expected - received < 0x80_0000 {
      IntervalFraction(g);
      ReportFraction(g.s);
    }
  }

  lemma ReportFraction(s: Source)
    requires Fraction(s) <= 255
    ensures Report(s).1.fraction == Fraction(s)
  {
    hide Fraction, Lost, Expected;
  }

  lemma IntervalFraction(g: Account)
    requires Sound(g) && g.s.probation == 0
    requires g.expected - g.expectedPrior < TWO_32
    requires -0x8000_0000 <= (g.expected - g.expectedPrior) - (g.received - g.receivedPrior) < 0x80_0000
    ensures var expected, received := g.expected - g.expectedPrior, g.received - g.receivedPrior;
            && expected >= 0 && received >= 0 && Fraction(g.s) <= 255
            && Fraction(g.s) == if received < expected then (expected - received) * 256 / expected else 0
  {
    IntervalWords(g);
    hide Sound, Expected, FractionIn;
    FractionOf(g.expected - g.expectedPrior, g.received - g.receivedPrior);
  }

  /** The words of the interval are its counts. */
  lemma IntervalWords(g: Account)
    requires Sound(g) && g.s.probation == 0 && g.expected - g.expectedPrior < TWO_32
    ensures var e, r := g.expected - g.expectedPrior, g.received - g.receivedPrior;
            && 0 <= e && 0 <= r && (e > 0 ==> r > 0)
            && (Expected(g.s) - g.s.expectedPrior) % TWO_32 == e
            && (g.s.received - g.s.receivedPrior) % TWO_32 == r % TWO_32
  {
    Difference(g.expected, g.expectedPrior);
    Difference(g.received, g.receivedPrior);
    hide Expected;
    Small(g.expected - g.expectedPrior);
  }

  lemma FractionOf(e: nat, r: nat)
    requires e < TWO_32 && -0x8000_0000 <= e - r < 0x80_0000 && (e > 0 ==> r > 0)
    ensures FractionIn(e, r % TWO_32) <= 255
    ensures FractionIn(e, r % TWO_32) == if r < e then (e - r) * 256 / e else 0
  {
    Small(e);
    Int32Of(e, e, e - r);
    hide Int32;
    if r < e { Share(e - r, e); }
  }

  /** The quotient in 32 bits. */
  lemma Share(lost: nat, e: nat)
    requires lost < e && lost < 0x80_0000
    ensures lost * 256 % TWO_32 / e % TWO_32 == lost * 256 / e <= 255
  {
    QuotientBelow(lost * 256, e, 256);
    Small(lost * 256);
    Small(lost * 256 / e);
  }

  lemma Small(x: nat)
    requires x < TWO_32
    ensures x % TWO_32 == x
  {
  }

  lemma Difference(a: int, b: int)
    ensures (a % TWO_32 - b % TWO_32) % TWO_32 == (a - b) % TWO_32
  {
    ModAdds(a, -(b % TWO_32));
    var q := b / TWO_32;
    assert b == q * TWO_32 + b % TWO_32;
    var c := a - b % TWO_32;
    assert c == (a - b) + q * TWO_32;
    Division(TWO_32, c, (a - b) / TWO_32 + q, (a - b) % TWO_32);
  }

  lemma QuotientBelow(x: nat, d: nat, bound: nat)
    requires d > 0 && x < bound * d
    ensures 0 <= x / d < bound
  {
  }
}

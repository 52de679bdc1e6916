/** The sequence number state kept for each RTP source, appendix A.1 of RFC 3550. */
module RtpSource {
  import opened Common

  const SEQ_MOD := 0x1_0000
  const MIN_SEQUENTIAL := 2
  const MAX_DROPOUT := 3000
  const MAX_MISORDER := 100

  /** 16-bit sequence numbers as they arrive. */
  type Seq16 = x: nat | x < 0x1_0000

  datatype Source = Source(maxSeq: Seq16, cycles: nat, baseSeq: nat, badSeq: nat, probation: nat,
                           received: nat, expectedPrior: nat, receivedPrior: nat)

  function Init(s: Source, seqno: Seq16): Source {
    Source(seqno, 0, seqno, SEQ_MOD + 1, s.probation, 0, 0, 0)
  }

  function Counted(s: Source): Source {
    s.(received := (s.received + 1) % TWO_32)
  }

  /** The new state, and whether the packet is taken as valid. While on probation the comparison
      with the successor of maxSeq is not wrapped, so 0 never follows 65535. */
  function Update(s: Source, seqno: Seq16): (Source, bool) {
    var udelta := (seqno - s.maxSeq) % SEQ_MOD;
    if s.probation > 0 then
      if seqno == s.maxSeq + 1 then
        var t := s.(probation := s.probation - 1, maxSeq := seqno);
        if t.probation == 0 then (Counted(Init(t, seqno)), true) else (t, false)
      else (s.(probation := MIN_SEQUENTIAL - 1, maxSeq := seqno), false)
    else if udelta < MAX_DROPOUT then
      var t := if seqno < s.maxSeq then s.(cycles := (s.cycles + SEQ_MOD) % TWO_32) else s;
      (Counted(t.(maxSeq := seqno)), true)
    else if udelta <= SEQ_MOD - MAX_MISORDER then
      if seqno == s.badSeq then (Counted(Init(s, seqno)), true)
      else (s.(badSeq := (seqno + 1) % SEQ_MOD), false)
    else (Counted(s), true)
  }

  class SourceEntry {
    var maxSeq: Seq16
    var cycles: nat
    var baseSeq: nat
    var badSeq: nat
    var probation: nat
    var received: nat
    var expectedPrior: nat
    var receivedPrior: nat

    ghost function View(): Source
      reads this
    {
      Source(maxSeq, cycles, baseSeq, badSeq, probation, received, expectedPrior, receivedPrior)
    }

    /** A new member, before its first packet is counted. */
    constructor (seqno: Seq16)
      ensures View() == Source((seqno - 1) % SEQ_MOD, 0, seqno, SEQ_MOD + 1, MIN_SEQUENTIAL, 0, 0, 0)
    {
      maxSeq, cycles, baseSeq, badSeq := (seqno - 1) % SEQ_MOD, 0, seqno, SEQ_MOD + 1;
      probation, received, expectedPrior, receivedPrior := MIN_SEQUENTIAL, 0, 0, 0;
    }

    method InitSeq(seqno: Seq16)
      modifies this
      ensures View() == Init(old(View()), seqno)
    {
      baseSeq, maxSeq, badSeq := seqno, seqno, SEQ_MOD + 1;
      cycles, received := 0, 0;
      receivedPrior, expectedPrior := 0, 0;
    }

    method UpdateSeq(seqno: Seq16) returns (ok: bool)
      modifies this
      ensures (View(), ok) == Update(old(View()), seqno)
    {
      var udelta := (seqno - maxSeq) % SEQ_MOD;
      if probation > 0 {
        if seqno == maxSeq + 1 {
          probation := probation - 1;
          maxSeq := seqno;
          if probation == 0 {
            InitSeq(seqno);
            received := (received + 1) % TWO_32;
            return true;
          }
        } else {
          probation := MIN_SEQUENTIAL - 1;
          maxSeq := seqno;
        }
        return false;
      } else if udelta < MAX_DROPOUT {
        if seqno < maxSeq {
          cycles := (cycles + SEQ_MOD) % TWO_32;
        }
        maxSeq := seqno;
      } else if udelta <= SEQ_MOD - MAX_MISORDER {
        if seqno == badSeq {
          InitSeq(seqno);
        } else {
          badSeq := (seqno + 1) % SEQ_MOD;
          return false;
        }
      }
      received := (received + 1) % TWO_32;
      return true;
    }
  }

  // ---------- Probation ----------

  /** A packet seen on probation without ending it, and its successor modulo 2^16: together they
      validate the source unless the number wraps in between. */
  lemma SuccessorValidatesIff(s: Source, seqno: Seq16)
    requires 1 <= s.probation <= MIN_SEQUENTIAL && !Update(s, seqno).1
    ensures Update(Update(s, seqno).0, (seqno + 1) % SEQ_MOD).1 <==> seqno != SEQ_MOD - 1
  {
  }

  /** 65535, 0 and 1 in sequence: only 1 ends the probation. */
  lemma WrapDelaysValidation(s: Source)
    requires 1 <= s.probation <= MIN_SEQUENTIAL && !Update(s, SEQ_MOD - 1).1
    ensures var t := Update(s, SEQ_MOD - 1).0;
            var u := Update(t, 0);
            var v := Update(u.0, 1);
            !u.1 && u.0.probation == 1 && v.1 && v.0.probation == 0 && v.0.received == 1
  {
  }

  /** The state after n packets as they arrive. */
  function Received(s: Source, seqs: seq<Seq16>, n: nat): Source
    requires n <= |seqs|
  {
    if n == 0 then s else Update(Received(s, seqs, n - 1), seqs[n - 1]).0
  }

  /** As the code compares them on probation. */
  predicate InSequence(before: nat, seqno: nat) {
    seqno == before + 1
  }

  /** Behind the first packet of a new member, packet n is the first that validates the source
      exactly when it is the first whose number is one more than that before it, without wrapping. */
  lemma {:induction false} ProbationEndsIff(s: Source, seqs: seq<Seq16>, n: nat)
    requires s.probation == MIN_SEQUENTIAL && 1 <= n < |seqs|
    requires forall j :: 1 <= j < n ==> !InSequence(seqs[j - 1], seqs[j])
    ensures var t := Received(s, seqs, n);
            && t.probation == 1 && t.maxSeq == seqs[n - 1]
            && (Update(t, seqs[n]).1 <==> InSequence(seqs[n - 1], seqs[n]))
  {
    if n > 1 { ProbationEndsIff(s, seqs, n - 1); }
  }

  // ---------- Unwrapping ----------

  /** The state knows that m is the greatest true number since init_seq saw the true number first. */
  ghost predicate Tracks(s: Source, first: int, m: int) {
    && s.probation == 0
    && s.maxSeq == m % SEQ_MOD
    && s.baseSeq == first % SEQ_MOD
    && s.cycles == (m / SEQ_MOD - first / SEQ_MOD) * SEQ_MOD % TWO_32
  }

  predicate InWindow(t: int, m: int) {
    m - 99 <= t <= m + 2999
  }

  function Max(a: int, b: int): int {
    if a < b then b else a
  }

  /** The two ways to init_seq, the end of probation and the packet after a jump, leave a state that
      tracks the packet's number and has counted it alone. */
  lemma InitTracks(s: Source, first: int)
    requires var seqno, udelta := first % SEQ_MOD, (first % SEQ_MOD - s.maxSeq) % SEQ_MOD;
             || (s.probation == 1 && seqno == s.maxSeq + 1)
             || (s.probation == 0 && seqno == s.badSeq && MAX_DROPOUT <= udelta <= SEQ_MOD - MAX_MISORDER)
    ensures var (r, ok) := Update(s, first % SEQ_MOD);
            ok && Tracks(r, first, first) && r.received == 1 && r.expectedPrior == r.receivedPrior == 0
  {
  }

  lemma UDelta(t: int, m: int)
    requires -SEQ_MOD < t - m < SEQ_MOD
    ensures (t % SEQ_MOD - m % SEQ_MOD) % SEQ_MOD == if t >= m then t - m else t - m + SEQ_MOD
  {
  }

  lemma CycleCarries(t: int, m: int, first: int)
    requires m <= t < m + SEQ_MOD
    ensures t % SEQ_MOD < m % SEQ_MOD <==> t / SEQ_MOD == m / SEQ_MOD + 1
    ensures t % SEQ_MOD >= m % SEQ_MOD <==> t / SEQ_MOD == m / SEQ_MOD
    ensures ((m / SEQ_MOD - first / SEQ_MOD) * SEQ_MOD % TWO_32 + SEQ_MOD) % TWO_32
            == (m / SEQ_MOD + 1 - first / SEQ_MOD) * SEQ_MOD % TWO_32
  {
  }

  /** A packet in the window is counted and moves the state to the new maximum, across wraps of the
      16-bit number and of the 32-bit cycle count. */
  lemma UpdateTracks(s: Source, first: int, m: int, t: int)
    requires Tracks(s, first, m) && InWindow(t, m)
    ensures var (r, ok) := Update(s, t % SEQ_MOD);
            ok && Tracks(r, first, Max(m, t)) && r.received == (s.received + 1) % TWO_32
            && r.expectedPrior == s.expectedPrior && r.receivedPrior == s.receivedPrior
  {
    UDelta(t, m);
    if m <= t { CycleCarries(t, m, first); }
  }

  /** Within half the number space the window is exactly what the code accepts, but for the one
      number it remembers from a jump, which starts the count afresh. */
  lemma AcceptedIff(s: Source, first: int, m: int, t: int)
    requires Tracks(s, first, m) && m - SEQ_MOD / 2 <= t < m + SEQ_MOD / 2
    ensures Update(s, t % SEQ_MOD).1 <==> InWindow(t, m) || t % SEQ_MOD == s.badSeq
    ensures !InWindow(t, m) && t % SEQ_MOD == s.badSeq ==> Tracks(Update(s, t % SEQ_MOD).0, t, t)
    ensures !InWindow(t, m) && t % SEQ_MOD != s.badSeq ==> Tracks(Update(s, t % SEQ_MOD).0, first, m)
  {
    UDelta(t, m);
  }

  /** Numbers between 3000 ahead and 100 behind the greatest, modulo 2^16. */
  predicate FarOff(s: Source, seqno: Seq16) {
    3000 <= (seqno - s.maxSeq) % 65536 <= 65436
  }

  /** After a validated source's packet was refused, its successor is accepted, and, if that is far off
      too, starts the count afresh with itself; of the other numbers far off none is accepted. */
  lemma JumpNeedsTwo(s: Source, seqno: Seq16, first: int)
    requires s.probation == 0 && !Update(s, seqno).1 && first % SEQ_MOD == (seqno + 1) % SEQ_MOD
    ensures var t, (r, ok) := Update(s, seqno).0, Update(Update(s, seqno).0, first % SEQ_MOD);
            && FarOff(s, seqno) && t.received == s.received && ok
            && (FarOff(t, first % SEQ_MOD) ==>
                  Tracks(r, first, first) && r.received == 1 && r.expectedPrior == r.receivedPrior == 0)
            && (forall x: Seq16 :: FarOff(t, x) && x != first % SEQ_MOD ==> !Update(t, x).1)
  {
  }

  /** A stream of true, unbounded numbers seen by the source after it was set up on the first. */
  function MaxOf(first: int, ts: seq<int>, n: nat): int
    requires n <= |ts|
  {
    if n == 0 then first else Max(MaxOf(first, ts, n - 1), ts[n - 1])
  }

  function After(s: Source, ts: seq<int>, n: nat): Source
    requires n <= |ts|
  {
    if n == 0 then s else Update(After(s, ts, n - 1), ts[n - 1] % SEQ_MOD).0
  }

  /** Every packet lies in the window of the maximum before it. */
  ghost predicate Tame(first: int, ts: seq<int>) {
    forall n :: 0 <= n < |ts| ==> InWindow(ts[n], MaxOf(first, ts, n))
  }

  /** For every such stream, cycles and maxSeq together are the running maximum, shifted by the
      multiple of 65536 fixed at init_seq and taken modulo 2^32; every packet is counted. */
  lemma {:induction false} StreamTracks(s: Source, first: int, ts: seq<int>, n: nat)
    requires Tracks(s, first, first) && s.received < TWO_32 && Tame(first, ts) && n <= |ts|
    ensures var r := After(s, ts, n);
            && Tracks(r, first, MaxOf(first, ts, n))
            && (r.cycles + r.maxSeq) % TWO_32
               == (MaxOf(first, ts, n) - first / SEQ_MOD * SEQ_MOD) % TWO_32
            && r.received == (s.received + n) % TWO_32
            && r.expectedPrior == s.expectedPrior && r.receivedPrior == s.receivedPrior
  {
    hide Update, InWindow, Tracks;
    if n != 0 {
      StreamTracks(s, first, ts, n - 1);
      UpdateTracks(After(s, ts, n - 1), first, MaxOf(first, ts, n - 1), ts[n - 1]);
      OneMore(s.received + n - 1);
    }
    ExtendedIs(After(s, ts, n), first, MaxOf(first, ts, n));
  }

  lemma OneMore(a: int)
    ensures (a % TWO_32 + 1) % TWO_32 == (a + 1) % TWO_32
  {
  }

  lemma ExtendedIs(s: Source, first: int, m: int)
    requires Tracks(s, first, m)
    ensures (s.cycles + s.maxSeq) % TWO_32 == (m - first / SEQ_MOD * SEQ_MOD) % TWO_32
  {
    var a := (m / SEQ_MOD - first / SEQ_MOD) * SEQ_MOD;
    assert m == m / SEQ_MOD * SEQ_MOD + m % SEQ_MOD;
    ModAdds(a, m % SEQ_MOD);
  }
}

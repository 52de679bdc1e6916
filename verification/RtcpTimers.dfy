/** The queue of RTCP timers that all sessions of a process share: scheduling an event checks for
    expired ones, handling an expired one may schedule again. The clock stands still during a call. */
module RtcpTimers {
  import opened RtcpInterval

  datatype EventType = EventBye | EventReport

  /** serial counts the calls of rtcp_schedule, so it tells the order of events due together. */
  datatype Event = Event(sid: nat, kind: EventType, timeout: Timeval, serial: nat)

  datatype Session = Session(rule: Rule, lastSend: Timeval, nextSend: Timeval, sentPackets: nat)

  ghost predicate Sane(s: Session) {
    s.rule.bw > 0.0 && Proper(s.lastSend) && Proper(s.nextSend)
  }

  predicate Due(e: Event, now: Timeval) {
    TimeExpire(e.timeout, now)
  }

  /** Earlier, or due together and scheduled earlier. */
  predicate Ahead(x: Event, y: Event) {
    Micros(x.timeout) < Micros(y.timeout) || (Micros(x.timeout) == Micros(y.timeout) && x.serial < y.serial)
  }

  /** In order of time, ties in order of scheduling. */
  ghost predicate InOrder(q: seq<Event>, serial: nat) {
    && (forall i, j :: 0 <= i < j < |q| ==> Ahead(q[i], q[j]))
    && (forall i :: 0 <= i < |q| ==> Proper(q[i].timeout) && q[i].serial < serial)
  }

  /** How many events, from i on, are due one after the other. */
  function DueFrom(q: seq<Event>, now: Timeval, i: nat): (n: nat)
    requires i <= |q|
    ensures n <= |q| - i
    decreases |q| - i
  {
    if i == |q| || !Due(q[i], now) then 0 else 1 + DueFrom(q, now, i + 1)
  }

  function DueCount(q: seq<Event>, now: Timeval): (n: nat)
    ensures n <= |q|
  {
    DueFrom(q, now, 0)
  }

  /** Where the scan of rtcp_schedule stops: behind every event that is not later than t. */
  function Place(q: seq<Event>, t: Timeval, i: nat): (k: nat)
    requires i <= |q|
    ensures i <= k <= |q|
    decreases |q| - i
  {
    if i == |q| || !TimeExpire(q[i].timeout, t) then i else Place(q, t, i + 1)
  }

  function Put(q: seq<Event>, e: Event): seq<Event> {
    var k := Place(q, e.timeout, 0);
    q[..k] + [e] + q[k..]
  }

  lemma {:induction false} PlaceBounds(q: seq<Event>, t: Timeval, i: nat)
    requires i <= |q|
    ensures forall j :: i <= j < Place(q, t, i) ==> TimeExpire(q[j].timeout, t)
    ensures Place(q, t, i) < |q| ==> !TimeExpire(q[Place(q, t, i)].timeout, t)
    decreases |q| - i
  {
    if i < |q| && TimeExpire(q[i].timeout, t) { PlaceBounds(q, t, i + 1); }
  }

  /** The events behind the place are later, those in front of it are not. */
  lemma PlaceSplits(q: seq<Event>, e: Event)
    requires InOrder(q, e.serial) && Proper(e.timeout)
    ensures forall i :: 0 <= i < Place(q, e.timeout, 0) ==> Ahead(q[i], e)
    ensures forall i :: Place(q, e.timeout, 0) <= i < |q| ==> Ahead(e, q[i])
  {
    PlaceBounds(q, e.timeout, 0);
    var k := Place(q, e.timeout, 0);
    forall i | 0 <= i < |q| ensures TimeExpire(q[i].timeout, e.timeout) <==> Micros(q[i].timeout) <= Micros(e.timeout) {
      TimeArithmetic(q[i].timeout, e.timeout);
    }
    if k < |q| { assert forall i :: k < i < |q| ==> Ahead(q[k], q[i]); }
  }

  lemma PutKeepsOrder(q: seq<Event>, e: Event)
    requires InOrder(q, e.serial) && Proper(e.timeout)
    ensures InOrder(Put(q, e), e.serial + 1)
  {
    PlaceSplits(q, e);
    hide Place, Ahead;
  }

  lemma {:induction false} DueFromBounds(q: seq<Event>, now: Timeval, i: nat)
    requires i <= |q|
    ensures var n := DueFrom(q, now, i);
            && (forall j :: i <= j < i + n ==> Due(q[j], now))
            && (i + n < |q| ==> !Due(q[i + n], now))
    decreases |q| - i
  {
    if i < |q| && Due(q[i], now) { DueFromBounds(q, now, i + 1); }
  }

  /** In an ordered queue the due events are exactly the leading ones. */
  lemma DueLead(q: seq<Event>, serial: nat, now: Timeval)
    requires InOrder(q, serial) && Proper(now)
    ensures forall i :: 0 <= i < |q| ==> (Due(q[i], now) <==> i < DueCount(q, now))
  {
    var n := DueCount(q, now);
    DueFromBounds(q, now, 0);
    forall i | 0 <= i < |q| ensures Due(q[i], now) <==> i < n {
      TimeArithmetic(q[i].timeout, now);
      if n < |q| {
        TimeArithmetic(q[n].timeout, now);
        assert n < i ==> Ahead(q[n], q[i]);
      }
    }
  }

  lemma {:induction false} DueFromIs(q: seq<Event>, now: Timeval, i: nat, n: nat)
    requires i <= n <= |q|
    requires forall j :: i <= j < n ==> Due(q[j], now)
    requires n < |q| ==> !Due(q[n], now)
    ensures DueFrom(q, now, i) == n - i
    decreases n - i
  {
    if i < n { DueFromIs(q, now, i + 1, n); }
  }

  /** Taking the head of a queue whose head is due. */
  lemma DuePop(q: seq<Event>, serial: nat, now: Timeval)
    requires InOrder(q, serial) && Proper(now) && q != [] && Due(q[0], now)
    ensures DueCount(q[1..], now) == DueCount(q, now) - 1
    ensures q[..DueCount(q, now)] == [q[0]] + q[1..][..DueCount(q[1..], now)]
    ensures InOrder(q[1..], serial)
  {
    DueLead(q, serial, now);
    var n := DueCount(q, now);
    assert forall j :: 0 <= j < |q| - 1 ==> q[1..][j] == q[j + 1];
    DueFromIs(q[1..], now, 0, n - 1);
  }

  /** An event that is not due does not change the due ones. */
  lemma DuePut(q: seq<Event>, e: Event, now: Timeval)
    requires InOrder(q, e.serial) && Proper(e.timeout) && Proper(now) && !Due(e, now)
    ensures DueCount(Put(q, e), now) == DueCount(q, now)
    ensures Put(q, e)[..DueCount(q, now)] == q[..DueCount(q, now)]
  {
    var n, k := DueCount(q, now), Place(q, e.timeout, 0);
    DueLead(q, e.serial, now);
    PlaceBounds(q, e.timeout, 0);
    TimeArithmetic(e.timeout, now);
    if k < n {
      TimeArithmetic(q[k].timeout, now);
      TimeArithmetic(q[k].timeout, e.timeout);
    }
    assert n <= k;
    DueFromIs(Put(q, e), now, 0, n);
  }

  /** What has expired so far, and what will before the call is over. */
  function Fired(expired: seq<Event>, q: seq<Event>, now: Timeval): seq<Event> {
    expired + q[..DueCount(q, now)]
  }

  /** From q0 to q only due events have gone, and only new ones that are not due have come. */
  ghost predicate Kept(q0: seq<Event>, serial0: nat, q: seq<Event>, now: Timeval) {
    && (forall e :: e in q0 ==> e in q || Due(e, now))
    && (forall e :: e in q ==> e in q0 || (serial0 <= e.serial && !Due(e, now)))
  }

  lemma FiredPop(expired: seq<Event>, q: seq<Event>, serial: nat, now: Timeval)
    requires InOrder(q, serial) && Proper(now) && q != [] && Due(q[0], now)
    ensures Fired(expired + [q[0]], q[1..], now) == Fired(expired, q, now)
    ensures DueCount(q[1..], now) == DueCount(q, now) - 1
    ensures InOrder(q[1..], serial) && Kept(q, serial, q[1..], now)
  {
    DuePop(q, serial, now);
    assert q == [q[0]] + q[1..];
    var n := DueCount(q, now);
    assert expired + [q[0]] + q[1..][..n - 1] == expired + ([q[0]] + q[1..][..n - 1]);
  }

  lemma FiredPut(expired: seq<Event>, q: seq<Event>, e: Event, now: Timeval)
    requires InOrder(q, e.serial) && Proper(e.timeout) && Proper(now) && !Due(e, now)
    ensures Fired(expired, Put(q, e), now) == Fired(expired, q, now)
    ensures DueCount(Put(q, e), now) == DueCount(q, now)
    ensures Kept(q, e.serial, Put(q, e), now)
  {
    DuePut(q, e, now);
    var k := Place(q, e.timeout, 0);
    assert q == q[..k] + q[k..];
  }

  lemma KeptItself(q: seq<Event>, serial: nat, now: Timeval)
    ensures Kept(q, serial, q, now)
  {
  }

  lemma KeptOn(q0: seq<Event>, n0: nat, q1: seq<Event>, n1: nat, q2: seq<Event>, now: Timeval)
    requires Kept(q0, n0, q1, now) && Kept(q1, n1, q2, now) && n0 <= n1
    ensures Kept(q0, n0, q2, now)
  {
  }

  // ---------- What was sent, and what still waits ----------

  /** t is one interval after base, for some draw. */
  ghost predicate Drawn(t: Timeval, base: Timeval, r: Rule)
    requires r.bw > 0.0
  {
    exists draw: real :: 0.0 <= draw < 1.0 && t == NextTime(base, r, draw)
  }

  lemma DrawnLasts(t: Timeval, base: Timeval, r: Rule)
    requires r.bw > 0.0 && Proper(base) && Drawn(t, base, r)
    ensures Proper(t) && Micros(t) >= Micros(base) + MILLION
  {
    var draw: real :| 0.0 <= draw < 1.0 && t == NextTime(base, r, draw);
    NextTimeBounds(base, r, draw);
  }

  /** Nothing to say goodbye for: no packet was ever sent. */
  predicate Silent(s: Session) {
    s.rule.initial && s.sentPackets == 0
  }

  /** The same but for nextSend and pmembers, which the interval does not depend on. */
  ghost predicate SameTiming(s: Session, t: Session) {
    s.lastSend == t.lastSend && s.sentPackets == t.sentPackets && t.rule == s.rule.(pmembers := t.rule.pmembers)
  }

  /** Some draw ends the interval by now. */
  ghost predicate MayGo(s: Session, now: Timeval)
    requires Sane(s)
  {
    exists t :: Drawn(t, s.lastSend, s.rule) && Micros(t) <= Micros(now)
  }

  lemma SameMayGo(s: Session, t: Session, now: Timeval)
    requires Sane(s) && Sane(t) && SameTiming(s, t) && MayGo(t, now)
    ensures MayGo(s, now)
  {
    var x :| Drawn(x, t.lastSend, t.rule) && Micros(x) <= Micros(now);
    var draw: real :| 0.0 <= draw < 1.0 && x == NextTime(t.lastSend, t.rule, draw);
    SameNextTime(s.lastSend, s.rule, t.rule.pmembers, draw);
    hide NextTime;
    assert Drawn(x, s.lastSend, s.rule);
  }

  /** Who has just sent may not go again. */
  lemma SentMayNot(s: Session, now: Timeval)
    requires Sane(s) && s.lastSend == now
    ensures !MayGo(s, now)
  {
    forall t | Drawn(t, now, s.rule) ensures Micros(t) > Micros(now) {
      DrawnLasts(t, now, s.rule);
    }
  }

  ghost predicate AllSane(sessions: map<nat, Session>) {
    forall sid :: sid in sessions ==> Sane(sessions[sid])
  }

  ghost predicate SentFor(sent: seq<Event>, sid: nat) {
    exists i :: 0 <= i < |sent| && sent[i].sid == sid
  }

  /** Between two moments of one call: what was sent were due events, of sessions whose interval may be
      over, one for each session; these have sent now, unless an error ended the call, and the timing of
      all others is as it was. */
  ghost predicate Sends(s0: map<nat, Session>, q0: seq<Event>, sent: seq<Event>, s1: map<nat, Session>, now: Timeval,
                        ok: bool) {
    && AllSane(s0) && AllSane(s1) && s1.Keys == s0.Keys
    && (forall i :: 0 <= i < |sent| ==> sent[i] in q0 && Due(sent[i], now))
    && (forall i :: 0 <= i < |sent| ==> sent[i].sid in s0 && MayGo(s0[sent[i].sid], now))
    && (forall i, j :: 0 <= i < j < |sent| ==> sent[i].sid != sent[j].sid)
    && (forall sid :: sid in s0 && !SentFor(sent, sid) ==> SameTiming(s0[sid], s1[sid]))
    && (ok ==> forall sid :: sid in s0 && SentFor(sent, sid) ==> s1[sid].lastSend == now)
    && (forall sid :: sid in s0 && Silent(s1[sid]) ==> Silent(s0[sid]))
  }

  function Count(q: seq<Event>, sid: nat, kind: EventType): nat {
    if q == [] then 0
    else Count(q[..|q| - 1], sid, kind) + if q[|q| - 1].sid == sid && q[|q| - 1].kind == kind then 1 else 0
  }

  lemma {:induction false} CountJoins(a: seq<Event>, b: seq<Event>, sid: nat, kind: EventType)
    ensures Count(a + b, sid, kind) == Count(a, sid, kind) + Count(b, sid, kind)
  {
    if b == [] {
      assert a + b == a;
    } else {
      assert (a + b)[..|a + b| - 1] == a + b[..|b| - 1];
      CountJoins(a, b[..|b| - 1], sid, kind);
    }
  }

  lemma CountOne(e: Event, sid: nat, kind: EventType)
    ensures Count([e], sid, kind) == if e.sid == sid && e.kind == kind then 1 else 0
  {
    assert [e][..0] == [];
  }

  /** No session loses or gains a report; a BYE waits, or has been sent, or there was nothing to say
      goodbye for. */
  ghost predicate Tally(s0: map<nat, Session>, q0: seq<Event>, sent: seq<Event>, q1: seq<Event>) {
    forall sid :: sid in s0 ==>
      && Count(q1, sid, EventReport) == Count(q0, sid, EventReport)
      && (!Silent(s0[sid]) ==> Count(q1, sid, EventBye) + Count(sent, sid, EventBye) == Count(q0, sid, EventBye))
  }

  /** All that holds between two moments of one call. */
  ghost predicate Went(s0: map<nat, Session>, q0: seq<Event>, n0: nat, sent: seq<Event>,
                       s1: map<nat, Session>, q1: seq<Event>, n1: nat, now: Timeval, ok: bool) {
    && n0 <= n1 && Kept(q0, n0, q1, now)
    && Sends(s0, q0, sent, s1, now, ok)
    && (ok ==> Tally(s0, q0, sent, q1))
  }

  lemma WentNowhere(s: map<nat, Session>, q: seq<Event>, n: nat, now: Timeval)
    requires AllSane(s)
    ensures Went(s, q, n, [], s, q, n, now, true)
  {
    assert Count([], 0, EventBye) == 0;
  }

  lemma NotTwice(s0: map<nat, Session>, q0: seq<Event>, f: seq<Event>, s1: map<nat, Session>, sid: nat, now: Timeval)
    requires Sends(s0, q0, f, s1, now, true) && sid in s1 && MayGo(s1[sid], now)
    ensures MayGo(s0[sid], now) && forall j :: 0 <= j < |f| ==> f[j].sid != sid
  {
    hide MayGo, Due;
    if SentFor(f, sid) { SentMayNot(s1[sid], now); }
    SameMayGo(s0[sid], s1[sid], now);
  }

  lemma SendsOn(s0: map<nat, Session>, q0: seq<Event>, n0: nat, f: seq<Event>, s1: map<nat, Session>, q1: seq<Event>,
                g: seq<Event>, s2: map<nat, Session>, now: Timeval, ok: bool)
    requires Sends(s0, q0, f, s1, now, true) && Kept(q0, n0, q1, now) && Sends(s1, q1, g, s2, now, ok)
    ensures Sends(s0, q0, f + g, s2, now, ok)
  {
    hide MayGo, Due, SentFor;
    forall i | 0 <= i < |g|
      ensures g[i].sid in s0 && MayGo(s0[g[i].sid], now) && forall j :: 0 <= j < |f| ==> f[j].sid != g[i].sid
    {
      NotTwice(s0, q0, f, s1, g[i].sid, now);
    }
    forall sid ensures SentFor(f + g, sid) <==> SentFor(f, sid) || SentFor(g, sid) {
      SentForJoins(f, g, sid);
    }
  }

  lemma SentForJoins(f: seq<Event>, g: seq<Event>, sid: nat)
    ensures SentFor(f + g, sid) <==> SentFor(f, sid) || SentFor(g, sid)
  {
    assert forall i :: 0 <= i < |f| ==> (f + g)[i] == f[i];
    assert forall i :: 0 <= i < |g| ==> (f + g)[|f| + i] == g[i];
  }

  lemma TallyOn(s0: map<nat, Session>, q0: seq<Event>, f: seq<Event>, s1: map<nat, Session>, q1: seq<Event>,
                g: seq<Event>, q2: seq<Event>)
    requires s1.Keys == s0.Keys && forall sid :: sid in s0 && Silent(s1[sid]) ==> Silent(s0[sid])
    requires Tally(s0, q0, f, q1) && Tally(s1, q1, g, q2)
    ensures Tally(s0, q0, f + g, q2)
  {
    forall sid | sid in s0 ensures Count(f + g, sid, EventBye) == Count(f, sid, EventBye) + Count(g, sid, EventBye) {
      CountJoins(f, g, sid, EventBye);
    }
  }

  lemma WentOn(s0: map<nat, Session>, q0: seq<Event>, n0: nat, f: seq<Event>,
               s1: map<nat, Session>, q1: seq<Event>, n1: nat, g: seq<Event>,
               s2: map<nat, Session>, q2: seq<Event>, n2: nat, now: Timeval, ok: bool)
    requires Went(s0, q0, n0, f, s1, q1, n1, now, true) && Went(s1, q1, n1, g, s2, q2, n2, now, ok)
    ensures Went(s0, q0, n0, f + g, s2, q2, n2, now, ok)
  {
    SendsOn(s0, q0, n0, f, s1, q1, g, s2, now, ok);
    if ok { TallyOn(s0, q0, f, s1, q1, g, q2); }
    KeptOn(q0, n0, q1, n1, q2, now);
  }

  /** A change to one session that keeps its timing. */
  lemma WentRetimed(s: map<nat, Session>, sid: nat, t: Session, q: seq<Event>, n: nat, now: Timeval)
    requires AllSane(s) && sid in s && Sane(t) && SameTiming(s[sid], t)
    ensures Went(s, q, n, [], s[sid := t], q, n, now, true)
  {
    assert Count([], 0, EventBye) == 0;
  }

  /** A change to a session that has sent already, which keeps its time of sending. */
  lemma WentAfter(s0: map<nat, Session>, q0: seq<Event>, n0: nat, f: seq<Event>,
                  s1: map<nat, Session>, s2: map<nat, Session>, q1: seq<Event>, n1: nat, now: Timeval, sid: nat)
    requires Went(s0, q0, n0, f, s1, q1, n1, now, true) && sid in s0 && SentFor(f, sid)
    requires s2.Keys == s1.Keys && AllSane(s2) && forall i :: i in s1 && i != sid ==> s2[i] == s1[i]
    requires s2[sid].lastSend == s1[sid].lastSend && (Silent(s2[sid]) ==> Silent(s1[sid]))
    ensures Went(s0, q0, n0, f, s2, q1, n1, now, true)
  {
    hide Kept, Tally, MayGo, Due;
  }

  /** A due event was sent: it is gone if it was a BYE. */
  lemma WentSent(s: map<nat, Session>, e: Event, t: Session, q: seq<Event>, n: nat, now: Timeval, ok: bool)
    requires AllSane(s) && e.sid in s && Sane(t) && Due(e, now) && MayGo(s[e.sid], now)
    requires (ok ==> t.lastSend == now) && (Silent(t) ==> Silent(s[e.sid]))
    ensures ok && e.kind == EventReport ==>
              Went(s, [e] + q, n, [e], s[e.sid := t], [e] + q, n, now, true)
    ensures !ok || e.kind == EventBye ==> Went(s, [e] + q, n, [e], s[e.sid := t], q, n, now, ok)
  {
    forall sid, kind ensures Count([e], sid, kind) == (if e.sid == sid && e.kind == kind then 1 else 0)
                             && Count([e] + q, sid, kind) == Count([e], sid, kind) + Count(q, sid, kind) {
      CountOne(e, sid, kind);
      CountJoins([e], q, sid, kind);
    }
    assert SentFor([e], e.sid) by { assert [e][0].sid == e.sid; }
    hide Count, MayGo, Due;
    assert forall sid :: SentFor([e], sid) ==> sid == e.sid;
  }

  /** A due BYE of a silent session is forgotten. */
  lemma WentForgotten(s: map<nat, Session>, e: Event, q: seq<Event>, n: nat, now: Timeval)
    requires AllSane(s) && e.sid in s && Due(e, now) && e.kind == EventBye && Silent(s[e.sid])
    ensures Went(s, [e] + q, n, [], s, q, n, now, true)
  {
    forall sid, kind ensures Count([e] + q, sid, kind) == Count([e], sid, kind) + Count(q, sid, kind)
                             && Count([e], sid, kind) == (if e.sid == sid && e.kind == kind then 1 else 0)
                             && Count([], sid, kind) == 0 {
      CountOne(e, sid, kind);
      CountJoins([e], q, sid, kind);
    }
    hide Due;
  }

  /** A later event of the same kind stands for a due one. */
  lemma WentInstead(s: map<nat, Session>, e: Event, later: Event, q: seq<Event>, n: nat, f: seq<Event>,
                    s1: map<nat, Session>, q1: seq<Event>, n1: nat, now: Timeval, ok: bool)
    requires Went(s, [later] + q, n, f, s1, q1, n1, now, ok)
    requires e.sid == later.sid && e.kind == later.kind && Due(e, now) && !Due(later, now) && later.serial >= n
    ensures Went(s, [e] + q, n, f, s1, q1, n1, now, ok)
  {
    forall sid, kind ensures Count([e] + q, sid, kind) == Count([later] + q, sid, kind) {
      CountOne(e, sid, kind);
      CountOne(later, sid, kind);
      CountJoins([e], q, sid, kind);
      CountJoins([later], q, sid, kind);
    }
    hide Due, MayGo, Count;
  }

  /** Put in its place or put in front, an event counts the same. */
  lemma WentPut(s: map<nat, Session>, e: Event, q: seq<Event>, n: nat, f: seq<Event>,
                s1: map<nat, Session>, q1: seq<Event>, n1: nat, now: Timeval, ok: bool)
    requires Went(s, Put(q, e), n, f, s1, q1, n1, now, ok)
    ensures Went(s, [e] + q, n, f, s1, q1, n1, now, ok)
  {
    var k := Place(q, e.timeout, 0);
    forall sid, kind ensures Count([e] + q, sid, kind) == Count(Put(q, e), sid, kind) {
      assert q == q[..k] + q[k..];
      CountJoins([e], q, sid, kind);
      CountJoins(q[..k], q[k..], sid, kind);
      CountJoins(q[..k] + [e], q[k..], sid, kind);
      CountJoins(q[..k], [e], sid, kind);
    }
    SameMembers(q, e);
    hide Put, Due, MayGo, Count;
  }

  lemma SameMembers(q: seq<Event>, e: Event)
    ensures forall x :: x in Put(q, e) <==> x in [e] + q
  {
    var k := Place(q, e.timeout, 0);
    assert q == q[..k] + q[k..];
  }

  lemma WentKept(s0: map<nat, Session>, q0: seq<Event>, n0: nat, f: seq<Event>,
                 s1: map<nat, Session>, q1: seq<Event>, n1: nat, now: Timeval, ok: bool)
    requires Went(s0, q0, n0, f, s1, q1, n1, now, ok)
    ensures n0 <= n1 && Kept(q0, n0, q1, now) && s1.Keys == s0.Keys
  {
  }

  lemma WentEarlier(s0: map<nat, Session>, q0: seq<Event>, n0: nat, f: seq<Event>,
                    s1: map<nat, Session>, q1: seq<Event>, n1: nat, now: Timeval, ok: bool)
    requires Went(s0, q0, n0 + 1, f, s1, q1, n1, now, ok)
    ensures Went(s0, q0, n0, f, s1, q1, n1, now, ok)
  {
    hide Sends, Tally;
  }

  lemma WentByOk(s0: map<nat, Session>, q0: seq<Event>, n0: nat, f: seq<Event>,
                 s1: map<nat, Session>, q1: seq<Event>, n1: nat, now: Timeval, ok: bool)
    requires Went(s0, q0, n0, f, s1, q1, n1, now, true) || (!ok && Went(s0, q0, n0, f, s1, q1, n1, now, false))
    ensures Went(s0, q0, n0, f, s1, q1, n1, now, ok)
  {
  }

  /** An event of no known session, or one whose handling ends with an error. */
  lemma WentDropped(s: map<nat, Session>, e: Event, q: seq<Event>, n: nat, now: Timeval)
    requires AllSane(s) && Due(e, now)
    ensures Went(s, [e] + q, n, [], s, q, n, now, false)
  {
  }

  lemma WentOnlyDue(s0: map<nat, Session>, later: Event, q0: seq<Event>, n0: nat, f: seq<Event>,
                    s1: map<nat, Session>, q1: seq<Event>, n1: nat, now: Timeval, ok: bool)
    requires Went(s0, [later] + q0, n0, f, s1, q1, n1, now, ok) && !Due(later, now)
    ensures forall e :: e in f ==> e in q0
  {
    hide Due, MayGo;
  }

  lemma WentKeys(s0: map<nat, Session>, q0: seq<Event>, n0: nat, f: seq<Event>,
                 s1: map<nat, Session>, q1: seq<Event>, n1: nat, now: Timeval, e: Event)
    requires Went(s0, q0, n0, f, s1, q1, n1, now, true) && e in f
    ensures s1.Keys == s0.Keys && e.sid in s0 && SentFor(f, e.sid) && s1[e.sid].lastSend == now
  {
    hide Due, MayGo;
  }

  lemma GoesNow(s: Session, t: Timeval, now: Timeval)
    requires Sane(s) && Drawn(t, s.lastSend, s.rule) && Micros(t) <= Micros(now)
    ensures MayGo(s, now)
  {
  }

  /** So nothing goes out before half the deterministic interval after the last sending, divided by the
      compensation; a microsecond is cut off. */
  lemma GoesLate(s: Session, now: Timeval)
    requires Sane(s) && MayGo(s, now)
    ensures Micros(now) >= Micros(s.lastSend) + 1000000
    ensures Deterministic(s.rule) * 0.5 / 1.21828 * 1000000.0 < (Micros(now) - Micros(s.lastSend)) as real + 1.0
  {
    var t :| Drawn(t, s.lastSend, s.rule) && Micros(t) <= Micros(now);
    var draw: real :| 0.0 <= draw < 1.0 && t == NextTime(s.lastSend, s.rule, draw);
    NextTimeBounds(s.lastSend, s.rule, draw);
    hide Deterministic, NextTime;
  }

  lemma NotDueYet(e: Event, now: Timeval)
    requires Proper(e.timeout) && Proper(now) && Micros(now) < Micros(e.timeout)
    ensures !Due(e, now)
  {
    TimeArithmetic(e.timeout, now);
  }

  lemma HeadGone(q: seq<Event>, serial: nat)
    requires InOrder(q, serial) && q != []
    ensures q == [q[0]] + q[1..] && q[0] !in q[1..]
  {
  }

  /** What has been added to what was sent. */
  ghost function Fresh(sent0: seq<Event>, sent1: seq<Event>): seq<Event> {
    if sent0 <= sent1 then sent1[|sent0|..] else []
  }

  lemma FreshOn(sent0: seq<Event>, sent1: seq<Event>, sent2: seq<Event>)
    requires sent0 <= sent1 <= sent2
    ensures sent0 <= sent2 && Fresh(sent0, sent2) == Fresh(sent0, sent1) + Fresh(sent1, sent2)
    ensures Fresh(sent0, sent0) == []
  {
  }

  /** What is put in waits until it is due. */
  lemma PutWaits(q0: seq<Event>, e: Event, q: seq<Event>, serial: nat, now: Timeval)
    requires Kept(Put(q0, e), serial, q, now) && !Due(e, now)
    ensures e in q
  {
    assert Put(q0, e)[Place(q0, e.timeout, 0)] == e;
  }

  lemma HeadDue(q: seq<Event>, now: Timeval)
    ensures q != [] && Due(q[0], now) <==> DueCount(q, now) > 0
  {
  }

  const UNKNOWN_SESSION := 3

  /** Not a code of the program: the handling stops here because it would go into reverse
      reconsideration, which is left out. */
  const REVERSE := 1000

  class Process {
    var queue: seq<Event>
    var sessions: map<nat, Session>
    var serial: nat
    /** Logs: the events taken from the queue as expired, and those of them for which a packet was sent. */
    var expired: seq<Event>
    var sent: seq<Event>

    ghost predicate Valid()
      reads this
    {
      InOrder(queue, serial) && AllSane(sessions)
    }

    constructor ()
      ensures Valid() && queue == [] && expired == [] && sent == []
    {
      queue, sessions, serial, expired, sent := [], map[], 0, [], [];
    }

    /** rtcp_interval with a random draw, added to a base time. */
    method Later(sid: nat, base: Timeval) returns (t: Timeval)
      requires Valid() && sid in sessions && Proper(base)
      ensures Drawn(t, base, sessions[sid].rule) && Proper(t) && Micros(t) >= Micros(base) + MILLION
    {
      assert 0.0 <= 0.5 < 1.0;
      var draw: real :| 0.0 <= draw < 1.0;
      var interval := DoubleToTimeval(Interval(sessions[sid].rule, draw));
      IntervalLasts(sessions[sid].rule, draw);
      NextTimeBounds(base, sessions[sid].rule, draw);
      t := AddTimeval(base, interval);
      assert t == NextTime(base, sessions[sid].rule, draw);
    }

    /** rtcp_send: of the session it changes the average packet size, and it answers as it likes. */
    method RtcpSend(sid: nat) returns (err: int)
      requires Valid() && sid in sessions
      modifies this`sessions
      ensures Valid() && sessions.Keys == old(sessions.Keys)
      ensures var s, size := old(sessions[sid]), sessions[sid].rule.avgSize;
              sessions == old(sessions)[sid := s.(rule := s.rule.(avgSize := size))]
    {
      var size: real := *;
      var s := sessions[sid];
      sessions := sessions[sid := s.(rule := s.rule.(avgSize := size))];
      err := *;
    }

    /** rtp_timeout: it changes the counts of members and senders, and whether we are one; it may clear
        the initial mark, and answers as it likes. */
    method RtpTimeout(sid: nat) returns (err: int)
      requires Valid() && sid in sessions
      modifies this`sessions
      ensures Valid() && sessions.Keys == old(sessions.Keys)
      ensures forall i :: i in sessions && i != sid ==> sessions[i] == old(sessions)[i]
      ensures var s, r := old(sessions[sid]), sessions[sid].rule;
              && sessions[sid] == s.(rule := r)
              && r.bw == s.rule.bw && r.avgSize == s.rule.avgSize && r.pmembers == s.rule.pmembers
              && (r.initial ==> s.rule.initial)
    {
      var members: int, senders: int, weSent: bool, clear: bool := *, *, *, *;
      var s := sessions[sid];
      var r := s.rule.(members := members, senders := senders, weSent := weSent, initial := s.rule.initial && !clear);
      sessions := sessions[sid := s.(rule := r)];
      err := *;
    }

    /** The scan of rtcp_schedule and the linking in. */
    method Link(e: Event)
      modifies this`queue
      ensures queue == Put(old(queue), e)
    {
      var k := 0;
      while k < |queue| && TimeExpire(queue[k].timeout, e.timeout)
        invariant k <= |queue| && Place(queue, e.timeout, k) == Place(queue, e.timeout, 0)
      {
        k := k + 1;
      }
      queue := queue[..k] + [e] + queue[k..];
    }

    /** With nothing due, the event is in and nothing else has happened. */
    method Schedule(sid: nat, kind: EventType, t: Timeval, now: Timeval) returns (err: int)
      requires Valid() && Proper(t) && Proper(now)
      modifies this
      ensures Valid() && old(sent) <= sent
      ensures sid !in old(sessions) ==>
                err == UNKNOWN_SESSION && queue == old(queue) && expired == old(expired) && sent == old(sent)
      ensures sid in old(sessions) ==>
                var q := Put(old(queue), Event(sid, kind, t, old(serial)));
                && serial > old(serial)
                && Went(old(sessions), q, old(serial) + 1, Fresh(old(sent), sent),
                        sessions, queue, serial, now, err <= 0)
                && Fired(expired, queue, now) == Fired(old(expired), q, now)
                && DueCount(queue, now) <= DueCount(q, now)
                && (err <= 0 ==> DueCount(queue, now) == 0)
                && (DueCount(q, now) == 0 ==>
                      && err == 0 && queue == q && expired == old(expired) && sent == old(sent)
                      && sessions == old(sessions)[sid := old(sessions)[sid].(nextSend := t)])
      decreases DueCount(Put(queue, Event(sid, kind, t, serial)), now), 2
    {
      hide Went;
      if sid !in sessions {
        return UNKNOWN_SESSION;
      }
      ghost var s0, n0, sent0 := sessions, serial + 1, sent;
      PutKeepsOrder(queue, Event(sid, kind, t, serial));
      Link(Event(sid, kind, t, serial));
      serial := serial + 1;
      sessions := sessions[sid := sessions[sid].(nextSend := t)];
      ghost var s1, q := sessions, queue;
      WentRetimed(s0, sid, s1[sid], q, n0, now);
      err := CheckOnExpire(now);
      WentOn(s0, q, n0, [], s1, q, n0, Fresh(sent0, sent), sessions, queue, serial, now, err <= 0);
      assert [] + Fresh(sent0, sent) == Fresh(sent0, sent);
    }

    method CheckOnExpire(now: Timeval) returns (err: int)
      requires Valid() && Proper(now)
      modifies this
      ensures Valid() && old(sent) <= sent
      ensures Went(old(sessions), old(queue), old(serial), Fresh(old(sent), sent),
                   sessions, queue, serial, now, err <= 0)
      ensures Fired(expired, queue, now) == old(Fired(expired, queue, now))
      ensures DueCount(queue, now) <= old(DueCount(queue, now))
      ensures err <= 0 ==> DueCount(queue, now) == 0
      ensures old(DueCount(queue, now)) == 0 ==>
                && err == 0 && queue == old(queue) && sessions == old(sessions) && serial == old(serial)
                && expired == old(expired) && sent == old(sent)
      decreases DueCount(queue, now), 1
    {
      hide Went, Fired, InOrder, Due;
      ghost var s0, q0, n0, sent0 := sessions, queue, serial, sent;
      err := 0;
      WentNowhere(s0, q0, n0, now);
      FreshOn(sent0, sent, sent);
      HeadDue(queue, now);
      while queue != [] && Due(queue[0], now)
        invariant Valid() && sent0 <= sent
        invariant Went(s0, q0, n0, Fresh(sent0, sent), sessions, queue, serial, now, true)
        invariant Fired(expired, queue, now) == old(Fired(expired, queue, now))
        invariant DueCount(queue, now) <= old(DueCount(queue, now))
        invariant err <= 0
        invariant old(DueCount(queue, now)) == 0 ==>
                    && err == 0 && queue == old(queue) && sessions == old(sessions) && serial == old(serial)
                    && expired == old(expired) && sent == old(sent)
        decreases DueCount(queue, now)
      {
        ghost var s, q, n, out := sessions, queue, serial, sent;
        HeadDue(queue, now);
        err := OnExpire(now);
        WentOn(s0, q0, n0, Fresh(sent0, out), s, q, n, Fresh(out, sent), sessions, queue, serial, now, err <= 0);
        FreshOn(sent0, out, sent);
        if err > 0 {
          return;
        }
        HeadDue(queue, now);
      }
      HeadDue(queue, now);
    }

    /** rtp_check_on_expire, called from outside. Without an error every due event has been handled,
        in order of time and, among those due together, of scheduling; nothing due is left; every
        other event still waits; and what has been added is not due. What was sent were due events,
        at most one of each session, and none before its interval could be over; every session has as
        many reports waiting as before, and every BYE that had to be said waits or was sent. */
    method RtpCheckOnExpire(now: Timeval) returns (err: int)
      requires Valid() && Proper(now)
      modifies this
      ensures Valid() && Kept(old(queue), old(serial), queue, now)
      ensures old(sent) <= sent && Sends(old(sessions), old(queue), Fresh(old(sent), sent), sessions, now, err <= 0)
      ensures err <= 0 ==> Tally(old(sessions), old(queue), Fresh(old(sent), sent), queue)
      ensures err <= 0 ==> forall e :: e in queue ==> !Due(e, now)
      ensures err <= 0 ==>
                && expired == old(expired) + old(queue)[..old(DueCount(queue, now))]
                && forall i :: 0 <= i < |old(queue)| ==> (Due(old(queue)[i], now) <==> i < old(DueCount(queue, now)))
    {
      DueLead(queue, serial, now);
      err := CheckOnExpire(now);
      DueLead(queue, serial, now);
      hide Sends, Tally, Kept;
      assert Fired(expired, queue, now) == expired + queue[..DueCount(queue, now)];
    }

    method OnExpire(now: Timeval) returns (err: int)
      requires Valid() && Proper(now) && queue != [] && Due(queue[0], now)
      modifies this
      ensures Valid() && old(sent) <= sent
      ensures Went(old(sessions), old(queue), old(serial), Fresh(old(sent), sent),
                   sessions, queue, serial, now, err <= 0)
      ensures Fired(expired, queue, now) == old(Fired(expired, queue, now))
      ensures DueCount(queue, now) < old(DueCount(queue, now))
      decreases DueCount(queue, now), 0
    {
      hide Went, Fired, InOrder, Due;
      var head := queue[0];
      FiredPop(expired, queue, serial, now);
      HeadGone(queue, serial);
      queue, expired := queue[1..], expired + [head];
      if head.sid !in sessions {
        WentDropped(sessions, head, queue, serial, now);
        FreshOn(sent, sent, sent);
        return UNKNOWN_SESSION;
      }
      ghost var next;
      if head.kind == EventBye {
        err, next := ByeExpires(head, now);
      } else {
        err, next := ReportExpires(head, now);
      }
    }

    /** Schedule again at a time that is not due: the queue as it was, and then drained. */
    method Again(sid: nat, kind: EventType, t: Timeval, now: Timeval) returns (err: int)
      requires Valid() && Proper(t) && Proper(now) && sid in sessions && Micros(now) < Micros(t)
      modifies this
      ensures Valid() && old(sent) <= sent
      ensures Went(old(sessions), [Event(sid, kind, t, old(serial))] + old(queue), old(serial),
                   Fresh(old(sent), sent), sessions, queue, serial, now, err <= 0)
      ensures Fired(expired, queue, now) == old(Fired(expired, queue, now))
      ensures DueCount(queue, now) <= old(DueCount(queue, now))
      ensures Event(sid, kind, t, old(serial)) in queue
      decreases DueCount(queue, now), 3
    {
      ghost var e, s0, q0, n0, sent0 := Event(sid, kind, t, serial), sessions, queue, serial, sent;
      TimeArithmetic(t, now);
      FiredPut(expired, queue, e, now);
      hide Fired, InOrder, Put, Due, Kept, Went;
      err := Schedule(sid, kind, t, now);
      WentKept(s0, Put(q0, e), n0 + 1, Fresh(sent0, sent), sessions, queue, serial, now, err <= 0);
      PutWaits(q0, e, queue, n0 + 1, now);
      WentEarlier(s0, Put(q0, e), n0, Fresh(sent0, sent), sessions, queue, serial, now, err <= 0);
      WentPut(s0, e, q0, n0, Fresh(sent0, sent), sessions, queue, serial, now, err <= 0);
    }

    /** A BYE: forgotten if nothing was ever sent; else sent if one interval after the last sending is
        over, and scheduled again for that time if not. The branch for more than 50 departed members
        repeats the test that sends: it is dead. */
    method ByeExpires(e: Event, now: Timeval) returns (err: int, ghost next: Timeval)
      requires Valid() && Proper(now) && e.sid in sessions && e.kind == EventBye && Due(e, now) && e !in queue
      modifies this
      ensures Valid() && old(sent) <= sent
      ensures Went(old(sessions), [e] + old(queue), old(serial), Fresh(old(sent), sent),
                   sessions, queue, serial, now, err <= 0)
      ensures Fired(expired, queue, now) == old(Fired(expired, queue, now))
      ensures DueCount(queue, now) <= old(DueCount(queue, now))
      ensures var s := old(sessions[e.sid]);
              if Silent(s) then
                err == 0 && queue == old(queue) && sessions == old(sessions) && sent == old(sent)
              else
                && Drawn(next, s.lastSend, s.rule)
                && (Micros(next) <= Micros(now) ==>
                      sent == old(sent) + [e] && sessions[e.sid].lastSend == now && queue == old(queue))
                && (Micros(next) > Micros(now) ==>
                      Event(e.sid, EventBye, next, old(serial)) in queue && e !in Fresh(old(sent), sent))
      decreases DueCount(queue, now), 5
    {
      hide Went, Fired, InOrder, Due, Drawn, MayGo;
      ghost var s0, q0, n0, sent0 := sessions, queue, serial, sent;
      FreshOn(sent, sent, sent);
      var sid, s := e.sid, sessions[e.sid];
      if s.rule.initial && s.sentPackets == 0 {
        WentForgotten(s0, e, q0, n0, now);
        next := now;
        return 0, next;
      }
      var later := Later(sid, s.lastSend);
      next := later;
      TimeArithmetic(later, now);
      if TimeExpire(later, now) {
        GoesNow(s, later, now);
        err := SendBye(e, s, later, now);
      } else if TimeExpire(later, now) && s.rule.pmembers - s.rule.members > 50 {
        assert false;
      } else {
        sessions := sessions[sid := s.(nextSend := later)];
        ghost var s1 := sessions;
        WentRetimed(s0, sid, s1[sid], [e] + q0, n0, now);
        err := WaitLonger(e, later, now);
        WentOn(s0, [e] + q0, n0, [], s1, [e] + q0, n0, Fresh(sent0, sent), sessions, queue, serial, now, err <= 0);
        assert [] + Fresh(sent0, sent) == Fresh(sent0, sent);
      }
    }

    /** A BYE whose time has come. */
    method SendBye(e: Event, s: Session, later: Timeval, now: Timeval) returns (err: int)
      requires Valid() && Proper(now) && Proper(later) && e.sid in sessions && s == sessions[e.sid]
      requires e.kind == EventBye && Due(e, now) && MayGo(s, now)
      modifies this`sessions, this`sent
      ensures Valid() && sent == old(sent) + [e]
      ensures sessions.Keys == old(sessions.Keys) && sessions[e.sid].lastSend == now
      ensures Went(old(sessions), [e] + queue, serial, Fresh(old(sent), sent), sessions, queue, serial, now, err <= 0)
    {
      hide Went, Due, MayGo;
      ghost var s0, sent0 := sessions, sent;
      sessions := sessions[e.sid := s.(nextSend := later, lastSend := now)];
      sent := sent + [e];
      err := RtcpSend(e.sid);
      WentSent(s0, e, sessions[e.sid], queue, serial, now, err <= 0);
      assert sessions == s0[e.sid := sessions[e.sid]];
      assert Fresh(sent0, sent) == [e];
    }

    /** Schedule for a later time in place of an event that came too early. */
    method WaitLonger(e: Event, later: Timeval, now: Timeval) returns (err: int)
      requires Valid() && Proper(later) && Proper(now) && e.sid in sessions && Micros(now) < Micros(later)
      requires Due(e, now) && e !in queue
      modifies this
      ensures Valid() && old(sent) <= sent
      ensures Went(old(sessions), [e] + old(queue), old(serial), Fresh(old(sent), sent),
                   sessions, queue, serial, now, err <= 0)
      ensures Fired(expired, queue, now) == old(Fired(expired, queue, now))
      ensures DueCount(queue, now) <= old(DueCount(queue, now))
      ensures Event(e.sid, e.kind, later, old(serial)) in queue && e !in Fresh(old(sent), sent)
      decreases DueCount(queue, now), 4
    {
      hide Went, Fired, InOrder, Due;
      ghost var s0, q0, n0, sent0 := sessions, queue, serial, sent;
      ghost var instead := Event(e.sid, e.kind, later, serial);
      NotDueYet(instead, now);
      err := Again(e.sid, e.kind, later, now);
      WentOnlyDue(s0, instead, q0, n0, Fresh(sent0, sent), sessions, queue, serial, now, err <= 0);
      WentInstead(s0, e, instead, q0, n0, Fresh(sent0, sent), sessions, queue, serial, now, err <= 0);
    }

    /** A report whose time has come: sent, and scheduled again one interval from now. */
    method SendReport(e: Event, now: Timeval) returns (err: int, ghost again: Timeval)
      requires Valid() && Proper(now) && e.sid in sessions && e.kind == EventReport && Due(e, now) && e !in queue
      requires MayGo(sessions[e.sid], now)
      modifies this
      ensures Valid() && old(sent) + [e] <= sent
      ensures Went(old(sessions), [e] + old(queue), old(serial), Fresh(old(sent), sent),
                   sessions, queue, serial, now, err <= 0)
      ensures Fired(expired, queue, now) == old(Fired(expired, queue, now))
      ensures DueCount(queue, now) <= old(DueCount(queue, now))
      ensures err <= 0 ==>
                && sessions[e.sid].lastSend == now && Event(e.sid, EventReport, again, old(serial)) in queue
                && exists size :: Drawn(again, now, old(sessions[e.sid]).rule.(avgSize := size))
      decreases DueCount(queue, now), 5
    {
      hide Went, Fired, InOrder, Due, Drawn, MayGo;
      ghost var s0, q0, n0, sent0 := sessions, queue, serial, sent;
      var sid := e.sid;
      again := now;
      sent := sent + [e];
      err := RtcpSend(sid);
      assert sessions == s0[sid := sessions[sid]];
      if err > 0 {
        WentSent(s0, e, sessions[sid], q0, n0, now, false);
        return;
      }
      sessions := sessions[sid := sessions[sid].(lastSend := now)];
      assert sessions == s0[sid := sessions[sid]];
      WentSent(s0, e, sessions[sid], q0, n0, now, true);
      ghost var s1, sent1 := sessions, sent;
      var later := Later(sid, now);
      again := later;
      assert Drawn(again, now, s0[sid].rule.(avgSize := s1[sid].rule.avgSize));
      err := WaitLonger(e, later, now);
      WentOn(s0, [e] + q0, n0, [e], s1, [e] + q0, n0, Fresh(sent1, sent), sessions, queue, serial, now, err <= 0);
      FreshOn(sent0, sent1, sent);
      assert Fresh(sent0, sent1) == [e];
      if err > 0 {
        return;
      }
      err := AfterReport(e, s0, q0, n0, Fresh(sent0, sent), now);
    }

    /** The rest of a sent report: members and mark, then the timeouts. */
    method AfterReport(e: Event, ghost s0: map<nat, Session>, ghost q0: seq<Event>, ghost n0: nat,
                       ghost f: seq<Event>, ghost now: Timeval) returns (err: int)
      requires Valid() && e.sid in s0 && e in f
      requires Went(s0, [e] + q0, n0, f, sessions, queue, serial, now, true)
      modifies this`sessions
      ensures Valid() && Went(s0, [e] + q0, n0, f, sessions, queue, serial, now, err <= 0)
      ensures sessions.Keys == old(sessions.Keys) && sessions[e.sid].lastSend == now
      ensures sessions[e.sid].rule.pmembers == old(sessions[e.sid].rule.members)
    {
      WentKeys(s0, [e] + q0, n0, f, sessions, queue, serial, now, e);
      hide Went;
      ghost var s1 := sessions;
      Caught(e.sid, false);
      err := RtpTimeout(e.sid);
      WentAfter(s0, [e] + q0, n0, f, s1, sessions, queue, serial, now, e.sid);
      WentByOk(s0, [e] + q0, n0, f, sessions, queue, serial, now, err <= 0);
    }

    /** Bring pmembers up to date, after a report sent also the initial mark. */
    method Caught(sid: nat, keepInitial: bool)
      requires Valid() && sid in sessions
      modifies this`sessions
      ensures Valid() && sessions.Keys == old(sessions.Keys)
      ensures var r := old(sessions[sid].rule);
              sessions == old(sessions)[sid :=
                old(sessions[sid]).(rule := r.(pmembers := r.members, initial := keepInitial && r.initial))]
    {
      var r := sessions[sid].rule;
      r := r.(pmembers := r.members, initial := keepInitial && r.initial);
      sessions := sessions[sid := sessions[sid].(rule := r)];
    }

    /** A report: next is one interval after the last sending, for a new draw. It is sent exactly if that
        is over, and otherwise waits until then. */
    method ReportExpires(e: Event, now: Timeval) returns (err: int, ghost next: Timeval)
      requires Valid() && Proper(now) && e.sid in sessions && e.kind == EventReport && Due(e, now) && e !in queue
      modifies this
      ensures Valid() && old(sent) <= sent
      ensures Went(old(sessions), [e] + old(queue), old(serial), Fresh(old(sent), sent),
                   sessions, queue, serial, now, err <= 0)
      ensures Fired(expired, queue, now) == old(Fired(expired, queue, now))
      ensures DueCount(queue, now) <= old(DueCount(queue, now))
      ensures var s := old(sessions[e.sid]);
              if s.rule.weSent && s.rule.members < s.rule.pmembers then
                err == REVERSE && queue == old(queue) && sent == old(sent)
              else
                && Drawn(next, s.lastSend, s.rule)
                && (Micros(next) <= Micros(now) ==>
                      old(sent) + [e] <= sent && (err <= 0 ==> sessions[e.sid].lastSend == now))
                && (Micros(next) > Micros(now) ==>
                      && Event(e.sid, EventReport, next, old(serial)) in queue && e !in Fresh(old(sent), sent)
                      && (err <= 0 ==> sessions[e.sid].rule.pmembers == sessions[e.sid].rule.members))
      decreases DueCount(queue, now), 6
    {
      hide Went, Fired, InOrder, Due, Drawn, MayGo;
      ghost var s0, q0, n0, sent0 := sessions, queue, serial, sent;
      var sid, s := e.sid, sessions[e.sid];
      var later := Later(sid, s.lastSend);
      next := later;
      TimeArithmetic(later, now);
      sessions := sessions[sid := s.(nextSend := later)];
      ghost var s1 := sessions;
      WentRetimed(s0, sid, s1[sid], [e] + q0, n0, now);
      var rule := sessions[sid].rule;
      if rule.weSent && rule.members < rule.pmembers {
        WentDropped(s1, e, q0, n0, now);
        WentOn(s0, [e] + q0, n0, [], s1, [e] + q0, n0, [], s1, q0, n0, now, false);
        FreshOn(sent, sent, sent);
        err := REVERSE;
        return;
      }
      if TimeExpire(later, now) {
        GoesNow(s1[sid], later, now);
        ghost var again;
        err, again := SendReport(e, now);
      } else {
        err := WaitLonger(e, later, now);
        if err <= 0 {
          ghost var s2 := sessions;
          WentKept(s1, [e] + q0, n0, Fresh(sent0, sent), s2, queue, serial, now, true);
          Caught(sid, true);
          WentRetimed(s2, sid, sessions[sid], queue, serial, now);
          WentOn(s1, [e] + q0, n0, Fresh(sent0, sent), s2, queue, serial, [], sessions, queue, serial, now, true);
          assert Fresh(sent0, sent) + [] == Fresh(sent0, sent);
        }
      }
      WentOn(s0, [e] + q0, n0, [], s1, [e] + q0, n0, Fresh(sent0, sent), sessions, queue, serial, now, err <= 0);
      assert [] + Fresh(sent0, sent) == Fresh(sent0, sent);
    }
  }
}

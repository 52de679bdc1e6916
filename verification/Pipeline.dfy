/** A chain of base modules with flow control enabled and no upcalls: module i hands packets to
    module i + 1 through its send binder, the last module to a sink that may refuse. */
module Pipeline {
  import opened MbQueue

  /** One binder per module, in downstream order, with its capacity; the binders known to the
      poller; what the injector got accepted and what reached the sink. aborted is the
      "Queue is full" exit of put. */
  datatype Chain = Chain(caps: seq<int>, queues: seq<seq<Packet>>, registered: seq<nat>,
                         injected: seq<Packet>, delivered: seq<Packet>, aborted: bool)

  function Empty(caps: seq<int>): Chain {
    Chain(caps, seq(|caps|, i => []), [], [], [], false)
  }

  ghost predicate Sound(c: Chain) {
    && |c.queues| == |c.caps|
    && (forall i :: 0 <= i < |c.caps| ==> c.caps[i] >= 1 && |c.queues[i]| <= c.caps[i])
    && (forall i :: 0 <= i < |c.caps| && c.queues[i] != [] ==> i in c.registered)
    && (forall j :: 0 <= j < |c.registered| ==> c.registered[j] < |c.caps|)
    && !c.aborted
  }

  function Register(known: seq<nat>, i: nat): (r: seq<nat>)
    ensures i in r && forall j :: j in known ==> j in r
    ensures known <= r <= known + [i]
  {
    if i in known then known else known + [i]
  }

  /** get of module i, or of the sink when i is the length of the chain. A refusing module leaves
      the chain as it is. */
  function Get(c: Chain, i: nat, pkt: Packet, accepts: bool): (r: (Chain, bool))
    requires |c.queues| == |c.caps| && i <= |c.caps|
    requires forall j :: 0 <= j < |c.caps| ==> c.caps[j] >= 1
    ensures !r.1 ==> r.0 == c
    ensures r.0.caps == c.caps && |r.0.queues| == |c.queues| && r.0.injected == c.injected
    ensures forall j :: 0 <= j < i ==> r.0.queues[j] == c.queues[j]
    decreases |c.caps| - i, 0
  {
    if i == |c.caps| then
      if accepts then (c.(delivered := c.delivered + [pkt]), true) else (c, false)
    else if |c.queues[i]| >= c.caps[i] then (c, false)
    else (Put(c, i, pkt, accepts), true)
  }

  /** put of module i: try the neighbour, and queue the packet if it is busy. A packet handed back
      by the queue is the abort. */
  function Put(c: Chain, i: nat, pkt: Packet, accepts: bool): (r: Chain)
    requires |c.queues| == |c.caps| && i < |c.caps|
    requires forall j :: 0 <= j < |c.caps| ==> c.caps[j] >= 1
    ensures r.caps == c.caps && |r.queues| == |c.queues| && r.injected == c.injected
    ensures forall j :: 0 <= j < i ==> r.queues[j] == c.queues[j]
    decreases |c.caps| - i - 1, 1
  {
    var (d, passed) := Get(c, i + 1, pkt, accepts);
    if passed then d
    else
      var (q, out) := Arrive(c.queues[i], c.caps[i], pkt);
      c.(queues := c.queues[i := q], registered := Register(c.registered, i),
         aborted := c.aborted || out.Some?)
  }

  /** serve of binder i: the head goes downstream, or back to the front. */
  function Serve(c: Chain, i: nat, accepts: bool): (r: (Chain, bool))
    requires |c.queues| == |c.caps| && i < |c.caps|
    requires forall j :: 0 <= j < |c.caps| ==> c.caps[j] >= 1
    ensures !r.1 ==> r.0 == c
    ensures r.0.caps == c.caps && |r.0.queues| == |c.queues| && r.0.injected == c.injected
  {
    if c.queues[i] == [] then (c, false)
    else
      var pkt := c.queues[i][0];
      var (d, passed) := Get(c.(queues := c.queues[i := c.queues[i][1..]]), i + 1, pkt, accepts);
      if passed then (d, true) else (c, false)
  }

  /** A step of the environment, with the sink's answer if it is asked. */
  datatype Step = Inject(pkt: Packet, accepts: bool) | Poll(i: nat, accepts: bool)

  function Next(c: Chain, s: Step): (r: Chain)
    requires |c.queues| == |c.caps| && forall j :: 0 <= j < |c.caps| ==> c.caps[j] >= 1
    ensures r.caps == c.caps && |r.queues| == |c.queues|
  {
    match s
    case Inject(pkt, accepts) =>
      var (d, taken) := Get(c, 0, pkt, accepts);
      if taken then d.(injected := d.injected + [pkt]) else c
    case Poll(i, accepts) =>
      if i < |c.caps| then Serve(c, i, accepts).0 else c
  }

  /** The chain after the first n steps. */
  function After(caps: seq<int>, steps: seq<Step>, n: nat): (c: Chain)
    requires forall j :: 0 <= j < |caps| ==> caps[j] >= 1
    requires n <= |steps|
    ensures c.caps == caps && |c.queues| == |caps|
  {
    if n == 0 then Empty(caps) else Next(After(caps, steps, n - 1), steps[n - 1])
  }

  /** A module takes a packet exactly if its binder has room, the sink if it is willing. */
  lemma GetTakesIff(c: Chain, i: nat, pkt: Packet, accepts: bool)
    requires |c.queues| == |c.caps| && i <= |c.caps| && forall j :: 0 <= j < |c.caps| ==> c.caps[j] >= 1
    ensures Get(c, i, pkt, accepts).1 <==> if i < |c.caps| then |c.queues[i]| < c.caps[i] else accepts
  {
  }

  /** A binder gets rid of its head exactly if it has one and the module behind it takes that. */
  lemma ServeMovesIff(c: Chain, i: nat, accepts: bool)
    requires |c.queues| == |c.caps| && i < |c.caps| && forall j :: 0 <= j < |c.caps| ==> c.caps[j] >= 1
    ensures Serve(c, i, accepts).1
            <==> c.queues[i] != [] && if i + 1 < |c.caps| then |c.queues[i + 1]| < c.caps[i + 1] else accepts
  {
    if c.queues[i] != [] {
      GetTakesIff(c.(queues := c.queues[i := c.queues[i][1..]]), i + 1, c.queues[i][0], accepts);
    }
  }

  // ---------- Nothing is lost and the abort is never reached ----------

  /** The packets waiting in binders i and beyond, most advanced first. */
  function Waiting(queues: seq<seq<Packet>>, i: nat): seq<Packet>
    requires i <= |queues|
    decreases |queues| - i
  {
    if i == |queues| then [] else Waiting(queues, i + 1) + queues[i]
  }

  lemma {:induction false} WaitingLocal(a: seq<seq<Packet>>, b: seq<seq<Packet>>, i: nat)
    requires |a| == |b| && i <= |a|
    requires forall j :: i <= j < |a| ==> a[j] == b[j]
    ensures Waiting(a, i) == Waiting(b, i)
    decreases |a| - i
  {
    if i < |a| { WaitingLocal(a, b, i + 1); }
  }

  /** put aborts exactly when its own binder is full and the neighbour refuses; get asks first. */
  lemma PutAbortsIff(c: Chain, i: nat, pkt: Packet, accepts: bool)
    requires Sound(c) && i < |c.caps|
    ensures Put(c, i, pkt, accepts).aborted
            <==> |c.queues[i]| == c.caps[i] && !Get(c, i + 1, pkt, accepts).1
  {
    GetIsSound(c, i + 1, pkt, accepts);
  }

  lemma {:induction false} GetIsSound(c: Chain, i: nat, pkt: Packet, accepts: bool)
    requires Sound(c) && i <= |c.caps|
    ensures Sound(Get(c, i, pkt, accepts).0)
    decreases |c.caps| - i
  {
    hide Arrive;
    if i < |c.caps| && |c.queues[i]| < c.caps[i] {
      GetIsSound(c, i + 1, pkt, accepts);
    }
  }

  lemma Regroup(d: multiset<Packet>, w: multiset<Packet>, e: multiset<Packet>, v: multiset<Packet>,
                x: multiset<Packet>, q: multiset<Packet>)
    requires e + v == d + w + x
    ensures e + (v + q) == d + (w + q) + x
  {
    assert e + (v + q) == (e + v) + q;
  }

  lemma {:induction false} GetKeepsPackets(c: Chain, i: nat, pkt: Packet, accepts: bool)
    requires Sound(c) && i <= |c.caps|
    ensures var (d, taken) := Get(c, i, pkt, accepts);
            taken ==> multiset(d.delivered) + multiset(Waiting(d.queues, i))
                      == multiset(c.delivered) + multiset(Waiting(c.queues, i)) + multiset{pkt}
    decreases |c.caps| - i
  {
    hide Arrive;
    if i < |c.caps| && |c.queues[i]| < c.caps[i] {
      GetKeepsPackets(c, i + 1, pkt, accepts);
      var (e, passed) := Get(c, i + 1, pkt, accepts);
      if passed {
        Regroup(multiset(c.delivered), multiset(Waiting(c.queues, i + 1)),
                multiset(e.delivered), multiset(Waiting(e.queues, i + 1)), multiset{pkt}, multiset(c.queues[i]));
      } else {
        QueueKeepsPackets(c, i, pkt);
      }
    }
  }

  /** Queueing a packet in binder i adds it to those waiting. */
  lemma QueueKeepsPackets(c: Chain, i: nat, pkt: Packet)
    requires Sound(c) && i < |c.caps|
    requires |c.queues[i]| < c.caps[i]
    ensures multiset(Waiting(c.queues[i := Arrive(c.queues[i], c.caps[i], pkt).0], i))
            == multiset(Waiting(c.queues, i)) + multiset{pkt}
  {
    hide Arrive;
    var q := Arrive(c.queues[i], c.caps[i], pkt).0;
    ArrivalKeepsPackets(c.queues[i], c.caps[i], pkt);
    assert multiset(q) == multiset(c.queues[i]) + multiset{pkt};
    WaitingLocal(c.queues, c.queues[i := q], i + 1);
  }

  lemma ServeIsSound(c: Chain, i: nat, accepts: bool)
    requires Sound(c) && i < |c.caps|
    ensures Sound(Serve(c, i, accepts).0)
  {
    if c.queues[i] != [] {
      GetIsSound(c.(queues := c.queues[i := c.queues[i][1..]]), i + 1, c.queues[i][0], accepts);
    }
  }

  lemma HeadOut(q: seq<Packet>)
    requires q != []
    ensures multiset(q) == multiset(q[1..]) + multiset{q[0]}
  {
    assert q == [q[0]] + q[1..];
  }

  lemma WaitingNext(queues: seq<seq<Packet>>, k: nat)
    requires k < |queues|
    ensures multiset(Waiting(queues, k)) == multiset(Waiting(queues, k + 1)) + multiset(queues[k])
  {
  }

  lemma Aside(w: multiset<Packet>, v: multiset<Packet>, x: multiset<Packet>, q: multiset<Packet>)
    requires w == v + x
    ensures w + q == (v + q) + x && q + w == (q + v) + x
  {
  }

  lemma WaitingHead(queues: seq<seq<Packet>>, i: nat)
    requires i < |queues| && queues[i] != []
    ensures multiset(Waiting(queues, i))
            == multiset(Waiting(queues[i := queues[i][1..]], i)) + multiset{queues[i][0]}
  {
    var b := queues[i := queues[i][1..]];
    WaitingNext(queues, i);
    WaitingNext(b, i);
    WaitingLocal(queues, b, i + 1);
    HeadOut(queues[i]);
    hide Waiting;
    Aside(multiset(queues[i]), multiset(b[i]), multiset{queues[i][0]}, multiset(Waiting(queues, i + 1)));
  }

  /** Taking the head of binder i takes one packet from those waiting from any binder on. */
  lemma {:induction false} WaitingTail(queues: seq<seq<Packet>>, i: nat, k: nat)
    requires k <= i < |queues| && queues[i] != []
    ensures multiset(Waiting(queues, k))
            == multiset(Waiting(queues[i := queues[i][1..]], k)) + multiset{queues[i][0]}
    decreases i - k
  {
    hide Waiting;
    if k == i {
      WaitingHead(queues, i);
    } else {
      var b := queues[i := queues[i][1..]];
      WaitingTail(queues, i, k + 1);
      WaitingNext(queues, k);
      WaitingNext(b, k);
      Aside(multiset(Waiting(queues, k + 1)), multiset(Waiting(b, k + 1)), multiset{queues[i][0]}, multiset(queues[k]));
    }
  }

  /** Packets entering behind binder i count the same from every binder in front of it. */
  lemma {:induction false} WaitingAbove(a: Chain, b: Chain, x: multiset<Packet>, i: nat, k: nat)
    requires |a.queues| == |b.queues| && k <= i <= |a.queues|
    requires forall j :: k <= j < i ==> a.queues[j] == b.queues[j]
    requires multiset(b.delivered) + multiset(Waiting(b.queues, i))
             == multiset(a.delivered) + multiset(Waiting(a.queues, i)) + x
    ensures multiset(b.delivered) + multiset(Waiting(b.queues, k))
            == multiset(a.delivered) + multiset(Waiting(a.queues, k)) + x
    decreases i - k
  {
    if k < i {
      WaitingAbove(a, b, x, i, k + 1);
      Regroup(multiset(a.delivered), multiset(Waiting(a.queues, k + 1)),
              multiset(b.delivered), multiset(Waiting(b.queues, k + 1)), x, multiset(a.queues[k]));
    }
  }

  ghost function Held(c: Chain): multiset<Packet>
    requires |c.queues| == |c.caps|
  {
    multiset(c.delivered) + multiset(Waiting(c.queues, 0))
  }

  lemma ServeKeepsPackets(c: Chain, i: nat, accepts: bool)
    requires Sound(c) && i < |c.caps|
    ensures Held(Serve(c, i, accepts).0) == Held(c)
  {
    hide Get, Waiting;
    if c.queues[i] != [] {
      var pkt, b := c.queues[i][0], c.(queues := c.queues[i := c.queues[i][1..]]);
      assert Sound(b);
      var (d, passed) := Get(b, i + 1, pkt, accepts);
      if passed {
        hide Sound;
        GetKeepsPackets(b, i + 1, pkt, accepts);
        WaitingAbove(b, d, multiset{pkt}, i + 1, 0);
        WaitingTail(c.queues, i, 0);
      }
    }
  }

  lemma NextKeeps(c: Chain, s: Step)
    requires Sound(c) && Held(c) == multiset(c.injected)
    ensures Sound(Next(c, s)) && Held(Next(c, s)) == multiset(Next(c, s).injected)
  {
    match s
    case Inject(pkt, accepts) =>
      GetIsSound(c, 0, pkt, accepts);
      GetKeepsPackets(c, 0, pkt, accepts);
    case Poll(i, accepts) =>
      if i < |c.caps| {
        ServeIsSound(c, i, accepts);
        ServeKeepsPackets(c, i, accepts);
      }
  }

  /** For binders of any capacity, every run keeps within the capacities, never aborts, and holds
      exactly the packets that were taken in. */
  lemma {:induction false} NothingLost(caps: seq<int>, steps: seq<Step>, n: nat)
    requires forall j :: 0 <= j < |caps| ==> caps[j] >= 1
    requires n <= |steps|
    ensures Sound(After(caps, steps, n))
    ensures Held(After(caps, steps, n)) == multiset(After(caps, steps, n).injected)
  {
    hide Next;
    if n == 0 {
      EmptyWaits(caps, 0);
    } else {
      NothingLost(caps, steps, n - 1);
      NextKeeps(After(caps, steps, n - 1), steps[n - 1]);
    }
  }

  lemma {:induction false} EmptyWaits(caps: seq<int>, i: nat)
    requires i <= |caps|
    ensures Waiting(Empty(caps).queues, i) == []
    decreases |caps| - i
  {
    if i < |caps| { EmptyWaits(caps, i + 1); }
  }

  // ---------- One-slot binders deliver in order ----------

  ghost predicate OneSlot(caps: seq<int>) {
    forall j :: 0 <= j < |caps| ==> caps[j] == 1
  }

  lemma ArriveAtEmpty(pkt: Packet)
    ensures Arrive([], 1, pkt).0 == [pkt]
  {
  }

  /** The line of packets seen from binder i: those delivered, then those waiting from there on. */
  function Line(c: Chain, i: nat): seq<Packet>
    requires i <= |c.queues|
  {
    c.delivered + Waiting(c.queues, i)
  }

  lemma LineNext(c: Chain, i: nat)
    requires i < |c.queues|
    ensures Line(c, i) == Line(c, i + 1) + c.queues[i]
  {
  }

  /** Queueing at an empty one-slot binder puts the packet at the end of the line. */
  lemma QueueInOrder(c: Chain, i: nat, pkt: Packet)
    requires i < |c.queues| && c.queues[i] == []
    ensures Line(c.(queues := c.queues[i := [pkt]]), i) == Line(c, i) + [pkt]
  {
    WaitingLocal(c.queues, c.queues[i := [pkt]], i + 1);
  }

  lemma {:induction false} GetInOrder(c: Chain, i: nat, pkt: Packet, accepts: bool)
    requires Sound(c) && OneSlot(c.caps) && i <= |c.caps|
    ensures var (d, taken) := Get(c, i, pkt, accepts);
            taken ==> Line(d, i) == Line(c, i) + [pkt]
    decreases |c.caps| - i
  {
    hide Arrive, Line, Waiting;
    if i == |c.caps| {
      AtSink(c, pkt);
    } else if |c.queues[i]| < c.caps[i] {
      assert c.queues[i] == [];
      var (e, passed) := Get(c, i + 1, pkt, accepts);
      if passed {
        GetInOrder(c, i + 1, pkt, accepts);
        LineNext(c, i);
        LineNext(e, i);
      } else {
        ArriveAtEmpty(pkt);
        QueueInOrder(c, i, pkt);
        LineOnly(c.(queues := c.queues[i := [pkt]]), Get(c, i, pkt, accepts).0, i);
      }
    }
  }

  lemma AtSink(c: Chain, pkt: Packet)
    ensures Line(c.(delivered := c.delivered + [pkt]), |c.queues|) == Line(c, |c.queues|) + [pkt]
  {
  }

  /** The line depends on the queues and the delivered packets only. */
  lemma LineOnly(c: Chain, d: Chain, i: nat)
    requires i <= |c.queues| && d.queues == c.queues && d.delivered == c.delivered
    ensures Line(c, i) == Line(d, i)
  {
  }

  /** The line seen from binder k, when only binders from i on have changed. */
  lemma {:induction false} LineAbove(a: Chain, b: Chain, i: nat, k: nat)
    requires |a.queues| == |b.queues| && k <= i <= |a.queues|
    requires forall j :: k <= j < i ==> a.queues[j] == b.queues[j]
    requires Line(a, i) == Line(b, i)
    ensures Line(a, k) == Line(b, k)
    decreases i - k
  {
    hide Line;
    if k < i {
      LineAbove(a, b, i, k + 1);
      LineNext(a, k);
      LineNext(b, k);
    }
  }

  lemma PoppedLine(c: Chain, i: nat)
    requires i < |c.queues| && |c.queues[i]| == 1
    ensures Line(c.(queues := c.queues[i := []]), i + 1) == Line(c, i + 1)
    ensures Line(c, i) == Line(c, i + 1) + [c.queues[i][0]]
  {
    WaitingLocal(c.queues, c.queues[i := []], i + 1);
    assert c.queues[i] == [c.queues[i][0]];
  }

  lemma ServeInOrder(c: Chain, i: nat, accepts: bool)
    requires Sound(c) && OneSlot(c.caps) && i < |c.caps|
    ensures Line(Serve(c, i, accepts).0, 0) == Line(c, 0)
  {
    hide Get, Line;
    if c.queues[i] != [] {
      assert c.queues[i][1..] == [];
      var pkt, b := c.queues[i][0], c.(queues := c.queues[i := []]);
      var (d, passed) := Get(b, i + 1, pkt, accepts);
      if passed {
        GetInOrder(b, i + 1, pkt, accepts);
        PoppedLine(c, i);
        LineNext(d, i);
        LineAbove(c, d, i, 0);
      }
    }
  }

  lemma NextInOrder(c: Chain, s: Step)
    requires Sound(c) && OneSlot(c.caps) && Line(c, 0) == c.injected
    ensures Line(Next(c, s), 0) == Next(c, s).injected
  {
    match s
    case Inject(pkt, accepts) =>
      GetInOrder(c, 0, pkt, accepts);
      LineOnly(Get(c, 0, pkt, accepts).0, Get(c, 0, pkt, accepts).0.(injected := c.injected + [pkt]), 0);
    case Poll(i, accepts) => if i < |c.caps| { ServeInOrder(c, i, accepts); }
  }

  /** With one-slot binders every run delivers the packets in the order they were taken in, and
      those still waiting are the rest of that order. */
  lemma {:induction false} DeliversInOrder(caps: seq<int>, steps: seq<Step>, n: nat)
    requires OneSlot(caps) && n <= |steps|
    ensures var c := After(caps, steps, n);
            c.delivered + Waiting(c.queues, 0) == c.injected
  {
    hide Next;
    if n == 0 {
      EmptyWaits(caps, 0);
    } else {
      DeliversInOrder(caps, steps, n - 1);
      NothingLost(caps, steps, n - 1);
      NextInOrder(After(caps, steps, n - 1), steps[n - 1]);
    }
  }

  // ---------- A longer binder lets a packet overtake ----------

  /** A refused packet rests in the last binder it can enter. */
  lemma {:induction false} GetParks(c: Chain, a: nat, pkt: Packet, p: nat)
    requires |c.queues| == |c.caps| && forall j :: 0 <= j < |c.caps| ==> c.caps[j] >= 1
    requires a <= p < |c.caps| && forall j :: a <= j <= p ==> |c.queues[j]| < c.caps[j]
    requires p + 1 < |c.caps| ==> |c.queues[p + 1]| >= c.caps[p + 1]
    ensures var (d, taken) := Get(c, a, pkt, false);
            taken && d.delivered == c.delivered
            && d.queues == c.queues[p := Arrive(c.queues[p], c.caps[p], pkt).0]
    decreases p - a
  {
    if a < p {
      GetParks(c, a + 1, pkt, p);
    } else {
      assert !Get(c, p + 1, pkt, false).1;
    }
  }

  /** With room everywhere below and a willing sink, a packet goes all the way. */
  lemma {:induction false} GetPasses(c: Chain, a: nat, pkt: Packet)
    requires |c.queues| == |c.caps| && forall j :: 0 <= j < |c.caps| ==> c.caps[j] >= 1
    requires a <= |c.caps| && forall j :: a <= j < |c.caps| ==> |c.queues[j]| < c.caps[j]
    ensures Get(c, a, pkt, true) == (c.(delivered := c.delivered + [pkt]), true)
    decreases |c.caps| - a
  {
    if a < |c.caps| { GetPasses(c, a + 1, pkt); }
  }

  lemma {:induction false} AfterPrefix(caps: seq<int>, steps: seq<Step>, s: Step, n: nat)
    requires forall j :: 0 <= j < |caps| ==> caps[j] >= 1
    requires n <= |steps|
    ensures After(caps, steps + [s], n) == After(caps, steps, n)
  {
    hide Next;
    if n != 0 { AfterPrefix(caps, steps, s, n - 1); }
  }

  /** The chain after a whole run. */
  function Final(caps: seq<int>, steps: seq<Step>): (c: Chain)
    requires forall j :: 0 <= j < |caps| ==> caps[j] >= 1
    ensures c.caps == caps && |c.queues| == |caps|
  {
    After(caps, steps, |steps|)
  }

  lemma FinalExtends(caps: seq<int>, steps: seq<Step>, s: Step)
    requires forall j :: 0 <= j < |caps| ==> caps[j] >= 1
    ensures Final(caps, steps + [s]) == Next(Final(caps, steps), s)
  {
    AfterPrefix(caps, steps, s, |steps|);
  }

  ghost predicate OneSlotBeyond(caps: seq<int>, i: nat) {
    && i < |caps| && caps[i] >= 2
    && (forall j :: 0 <= j < |caps| ==> caps[j] >= 1)
    && (forall j :: i < j < |caps| ==> caps[j] == 1)
  }

  const FIRST := Packet(0, 0)
  const SLOW := Packet(1, 0)
  const FAST := Packet(2, 0)

  ghost predicate Only(ps: seq<Packet>, x: Packet) {
    forall j :: 0 <= j < |ps| ==> ps[j] == x
  }

  /** Fill the one-slot binders from k on, with the sink refusing. */
  lemma {:induction false} Fill(caps: seq<int>, i: nat, k: nat) returns (steps: seq<Step>)
    requires OneSlotBeyond(caps, i) && i < k <= |caps|
    ensures var c := Final(caps, steps);
            && (forall j :: 0 <= j < |caps| ==> c.queues[j] == if j < k then [] else [FIRST])
            && c.delivered == [] && |c.injected| == |caps| - k && Only(c.injected, FIRST)
    decreases |caps| - k
  {
    if k == |caps| {
      steps := [];
    } else {
      var before := Fill(caps, i, k + 1);
      var c := Final(caps, before);
      GetParks(c, 0, FIRST, k);
      steps := before + [Inject(FIRST, false)];
      FinalExtends(caps, before, Inject(FIRST, false));
    }
  }

  /** The slow packet rests in binder i; of the others, those that filled the binders from k on
      have been delivered. */
  ghost predicate Drained(c: Chain, i: nat, k: nat) {
    && i < k <= |c.caps| == |c.queues|
    && (forall j :: 0 <= j < |c.caps| ==>
          c.queues[j] == if j == i then [SLOW] else if i < j < k then [FIRST] else [])
    && |c.delivered| == |c.caps| - k && Only(c.delivered, FIRST)
    && |c.injected| == |c.caps| - i && c.injected[|c.caps| - i - 1] == SLOW
  }

  lemma DrainOne(c: Chain, i: nat, k: nat)
    requires OneSlotBeyond(c.caps, i) && k < |c.caps| && Drained(c, i, k + 1) && i < k
    ensures Drained(Next(c, Poll(k, true)), i, k)
  {
    GetPasses(c.(queues := c.queues[k := c.queues[k][1..]]), k + 1, FIRST);
  }

  /** Park the slow packet in binder i and empty the binders from k on. */
  lemma {:induction false} Drain(caps: seq<int>, i: nat, k: nat) returns (steps: seq<Step>)
    requires OneSlotBeyond(caps, i) && i < k <= |caps|
    ensures Drained(Final(caps, steps), i, k)
    decreases |caps| - k
  {
    var before;
    var step := if k == |caps| then Inject(SLOW, false) else Poll(k, true);
    if k == |caps| {
      before := Fill(caps, i, i + 1);
      GetParks(Final(caps, before), 0, SLOW, i);
    } else {
      before := Drain(caps, i, k + 1);
      DrainOne(Final(caps, before), i, k);
    }
    steps := before + [step];
    FinalExtends(caps, before, step);
  }

  /** The fast packet, taken in after the slow one, is delivered while the slow one waits. */
  lemma Overtakes(caps: seq<int>, i: nat) returns (steps: seq<Step>)
    requires OneSlotBeyond(caps, i)
    ensures !(Final(caps, steps).delivered <= Final(caps, steps).injected)
  {
    var before := Drain(caps, i, i + 1);
    var c := Final(caps, before);
    GetPasses(c, 0, FAST);
    steps := before + [Inject(FAST, true)];
    FinalExtends(caps, before, Inject(FAST, true));
    var d := Final(caps, steps);
    assert d.delivered[|caps| - i - 1] == FAST && d.injected[|caps| - i - 1] == SLOW;
  }

  lemma {:induction false} LastLongBinder(caps: seq<int>, k: nat) returns (i: nat)
    requires k <= |caps| && forall j :: 0 <= j < |caps| ==> caps[j] >= 1
    requires exists j :: 0 <= j < k && caps[j] != 1
    requires forall j :: k <= j < |caps| ==> caps[j] == 1
    ensures OneSlotBeyond(caps, i)
  {
    i := k - 1;
    if caps[i] == 1 { i := LastLongBinder(caps, k - 1); }
  }

  /** Delivery is in order on every run exactly when every binder has one slot. */
  lemma InOrderIffOneSlot(caps: seq<int>)
    requires forall j :: 0 <= j < |caps| ==> caps[j] >= 1
    ensures OneSlot(caps)
            <==> forall steps: seq<Step> :: Final(caps, steps).delivered <= Final(caps, steps).injected
  {
    if OneSlot(caps) {
      forall steps: seq<Step> ensures Final(caps, steps).delivered <= Final(caps, steps).injected {
        DeliversInOrder(caps, steps, |steps|);
      }
    } else {
      var i := LastLongBinder(caps, |caps|);
      var steps := Overtakes(caps, i);
    }
  }
}

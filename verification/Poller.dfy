/** The poller of a node's binders and what it guarantees: every pass moves something when the
    sink is willing, and the poller's loop ends whatever the sink answers. */
module Poller {
  import opened MbQueue
  import opened Pipeline

  /** top is the most advanced occupied binder. */
  ghost predicate TopAt(c: Chain, top: nat)
    requires |c.queues| == |c.caps|
  {
    top < |c.caps| && c.queues[top] != [] && forall j :: top < j < |c.caps| ==> c.queues[j] == []
  }

  ghost predicate AllEmpty(c: Chain)
    requires |c.queues| == |c.caps|
  {
    forall j :: 0 <= j < |c.caps| ==> c.queues[j] == []
  }

  lemma {:induction false} TopExists(c: Chain, k: nat) returns (top: nat)
    requires |c.queues| == |c.caps| && k <= |c.caps|
    requires exists j :: 0 <= j < k && c.queues[j] != []
    requires forall j :: k <= j < |c.caps| ==> c.queues[j] == []
    ensures TopAt(c, top)
  {
    top := k - 1;
    if c.queues[top] == [] { top := TopExists(c, k - 1); }
  }

  /** Serving the most advanced binder reaches a willing sink. */
  lemma TopDelivers(c: Chain, top: nat)
    requires Sound(c) && TopAt(c, top)
    ensures var (d, moved) := Serve(c, top, true);
            moved && d.delivered == c.delivered + [c.queues[top][0]]
  {
    GetPasses(c.(queues := c.queues[top := c.queues[top][1..]]), top + 1, c.queues[top][0]);
  }

  /** Either something was delivered, or top is still the most advanced occupied binder. */
  ghost predicate Progress(c: Chain, d: Chain, top: nat)
    requires |d.queues| == |d.caps|
  {
    |d.delivered| > |c.delivered| || (TopAt(d, top) && d.delivered == c.delivered)
  }

  lemma {:induction false} GetBelowTop(c: Chain, a: nat, pkt: Packet, top: nat)
    requires Sound(c) && TopAt(c, top) && a <= top
    ensures Progress(c, Get(c, a, pkt, true).0, top)
    decreases top - a
  {
    hide Arrive;
    if |c.queues[a]| < c.caps[a] {
      if a < top {
        GetBelowTop(c, a + 1, pkt, top);
      } else {
        GetPasses(c, a + 1, pkt);
      }
    }
  }

  lemma ServeKeepsTop(c: Chain, i: nat, top: nat)
    requires Sound(c) && TopAt(c, top) && i < |c.caps|
    ensures Progress(c, Serve(c, i, true).0, top)
    ensures i == top ==> |Serve(c, i, true).0.delivered| > |c.delivered|
  {
    if i == top {
      TopDelivers(c, top);
    } else if c.queues[i] != [] {
      GetBelowTop(c.(queues := c.queues[i := c.queues[i][1..]]), i + 1, c.queues[i][0], top);
    }
  }

  lemma {:induction false} GetGrows(c: Chain, a: nat, pkt: Packet)
    requires Sound(c) && a <= |c.caps|
    ensures |Get(c, a, pkt, true).0.delivered| >= |c.delivered|
    decreases |c.caps| - a
  {
    hide Arrive;
    if a < |c.caps| { GetGrows(c, a + 1, pkt); }
  }

  lemma ServeGrows(c: Chain, i: nat)
    requires Sound(c) && i < |c.caps|
    ensures |Serve(c, i, true).0.delivered| >= |c.delivered|
  {
    if c.queues[i] != [] {
      GetGrows(c.(queues := c.queues[i := c.queues[i][1..]]), i + 1, c.queues[i][0]);
    }
  }

  // ---------- Passes ----------

  /** One pass: serve the first k binders of order, in that order. */
  function Pass(c: Chain, order: seq<nat>, k: nat): (d: Chain)
    requires |c.queues| == |c.caps| && k <= |order|
    requires forall j :: 0 <= j < |c.caps| ==> c.caps[j] >= 1
    requires forall j :: 0 <= j < |order| ==> order[j] < |c.caps|
    ensures d.caps == c.caps && |d.queues| == |c.queues|
  {
    if k == 0 then c else Serve(Pass(c, order, k - 1), order[k - 1], true).0
  }

  lemma {:induction false} PassKeeps(c: Chain, order: seq<nat>, k: nat)
    requires Sound(c) && k <= |order| && forall j :: 0 <= j < |order| ==> order[j] < |c.caps|
    ensures Sound(Pass(c, order, k)) && Held(Pass(c, order, k)) == Held(c)
  {
    hide Serve;
    if k != 0 {
      PassKeeps(c, order, k - 1);
      ServeIsSound(Pass(c, order, k - 1), order[k - 1], true);
      ServeKeepsPackets(Pass(c, order, k - 1), order[k - 1], true);
    }
  }

  lemma {:induction false} PassReachesTop(c: Chain, order: seq<nat>, k: nat, top: nat)
    requires Sound(c) && TopAt(c, top)
    requires k <= |order| && forall j :: 0 <= j < |order| ==> order[j] < |c.caps|
    ensures Progress(c, Pass(c, order, k), top)
    ensures (exists j :: 0 <= j < k && order[j] == top) ==> |Pass(c, order, k).delivered| > |c.delivered|
  {
    hide Serve;
    if k != 0 {
      PassReachesTop(c, order, k - 1, top);
      PassKeeps(c, order, k - 1);
      var d := Pass(c, order, k - 1);
      ServeGrows(d, order[k - 1]);
      if |d.delivered| <= |c.delivered| { ServeKeepsTop(d, order[k - 1], top); }
    }
  }

  /** order serves every binder that is occupied when the pass begins. */
  ghost predicate Covers(c: Chain, order: seq<nat>)
    requires |c.queues| == |c.caps|
  {
    && (forall j :: 0 <= j < |order| ==> order[j] < |c.caps|)
    && (forall i :: 0 <= i < |c.caps| && c.queues[i] != [] ==> exists j :: 0 <= j < |order| && order[j] == i)
  }

  /** If the sink is willing, a pass over the occupied binders in any order delivers something. */
  lemma PassDelivers(c: Chain, order: seq<nat>)
    requires Sound(c) && !AllEmpty(c) && Covers(c, order)
    ensures |Pass(c, order, |order|).delivered| > |c.delivered|
  {
    var top := TopExists(c, |c.caps|);
    PassReachesTop(c, order, |order|, top);
  }

  lemma {:induction false} NoneWaiting(queues: seq<seq<Packet>>, i: nat)
    requires i <= |queues|
    ensures |Waiting(queues, i)| == 0 <==> forall j :: i <= j < |queues| ==> queues[j] == []
    decreases |queues| - i
  {
    if i < |queues| { NoneWaiting(queues, i + 1); }
  }

  lemma HeldSize(c: Chain, d: Chain)
    requires |c.queues| == |c.caps| && |d.queues| == |d.caps| && Held(c) == Held(d)
    ensures |c.delivered| + |Waiting(c.queues, 0)| == |d.delivered| + |Waiting(d.queues, 0)|
  {
    assert |Held(c)| == |c.delivered| + |Waiting(c.queues, 0)|;
    assert |Held(d)| == |d.delivered| + |Waiting(d.queues, 0)|;
  }

  /** states records the chain before each of a row of passes and after the last one, each pass
      covering the binders occupied when it begins. */
  ghost predicate PassRun(states: seq<Chain>, orders: seq<seq<nat>>) {
    && |states| == |orders| + 1 && Sound(states[0])
    && forall p :: 0 <= p < |orders| ==>
         && Sound(states[p]) && Covers(states[p], orders[p])
         && states[p + 1] == Pass(states[p], orders[p], |orders[p]|)
  }

  lemma {:induction false} PassOverEmpty(c: Chain, order: seq<nat>, k: nat)
    requires Sound(c) && AllEmpty(c) && k <= |order| && forall j :: 0 <= j < |order| ==> order[j] < |c.caps|
    ensures Pass(c, order, k) == c
  {
    if k != 0 { PassOverEmpty(c, order, k - 1); }
  }

  lemma PassShrinks(c: Chain, order: seq<nat>)
    requires Sound(c) && Covers(c, order)
    ensures var d := Pass(c, order, |order|);
            |Waiting(d.queues, 0)| == 0 || |Waiting(d.queues, 0)| < |Waiting(c.queues, 0)|
  {
    NoneWaiting(c.queues, 0);
    PassKeeps(c, order, |order|);
    HeldSize(c, Pass(c, order, |order|));
    if AllEmpty(c) {
      PassOverEmpty(c, order, |order|);
    } else {
      PassDelivers(c, order);
    }
  }

  lemma RunStart(states: seq<Chain>, orders: seq<seq<nat>>)
    requires PassRun(states, orders)
    ensures |states| == |orders| + 1 && |states[0].queues| == |states[0].caps|
  {
  }

  /** One pass of a run. */
  lemma RunStep(states: seq<Chain>, orders: seq<seq<nat>>, p: nat)
    requires PassRun(states, orders) && p < |orders|
    ensures |states| == |orders| + 1 && |states[p + 1].queues| == |states[p + 1].caps|
    ensures |Waiting(states[p + 1].queues, 0)| == 0
            || |Waiting(states[p + 1].queues, 0)| < |Waiting(states[p].queues, 0)|
  {
    assert Sound(states[p]) && Covers(states[p], orders[p]);
    hide Waiting, Pass;
    PassShrinks(states[p], orders[p]);
    PassKeeps(states[p], orders[p], |orders[p]|);
  }

  lemma EmptyIff(c: Chain)
    requires |c.queues| == |c.caps|
    ensures |Waiting(c.queues, 0)| == 0 <==> AllEmpty(c)
  {
    NoneWaiting(c.queues, 0);
  }

  /** After p passes at most the packets beyond the first p are still waiting: a pipeline that
      holds p packets is empty after p passes. */
  lemma {:induction false} PassesEmpty(states: seq<Chain>, orders: seq<seq<nat>>, p: nat)
    requires PassRun(states, orders) && p <= |orders|
    ensures |states[p].queues| == |states[p].caps|
    ensures var waiting := |Waiting(states[p].queues, 0)|;
            waiting == 0 || waiting <= |Waiting(states[0].queues, 0)| - p
    ensures p >= |Waiting(states[0].queues, 0)| ==> AllEmpty(states[p])
  {
    hide PassRun, Pass, Waiting, Covers, AllEmpty;
    if p == 0 {
      RunStart(states, orders);
    } else {
      RunStep(states, orders, p - 1);
      PassesEmpty(states, orders, p - 1);
    }
    EmptyIff(states[p]);
  }

  // ---------- The poller's loop ----------

  /** How far the waiting packets still have to go. */
  function Distance(queues: seq<seq<Packet>>, i: nat): nat
    requires i <= |queues|
    decreases |queues| - i
  {
    if i == |queues| then 0 else Distance(queues, i + 1) + |queues[i]| * (|queues| - i)
  }

  lemma {:induction false} DistanceLocal(a: seq<seq<Packet>>, b: seq<seq<Packet>>, i: nat)
    requires |a| == |b| && i <= |a|
    requires forall j :: i <= j < |a| ==> a[j] == b[j]
    ensures Distance(a, i) == Distance(b, i)
    decreases |a| - i
  {
    if i < |a| { DistanceLocal(a, b, i + 1); }
  }

  lemma {:induction false} GetDistance(c: Chain, i: nat, pkt: Packet, accepts: bool)
    requires Sound(c) && i <= |c.caps|
    ensures Distance(Get(c, i, pkt, accepts).0.queues, i) <= Distance(c.queues, i) + (|c.caps| - i)
    decreases |c.caps| - i
  {
    hide Arrive;
    if i < |c.caps| && |c.queues[i]| < c.caps[i] {
      GetDistance(c, i + 1, pkt, accepts);
      var d := Get(c, i, pkt, accepts).0;
      if !Get(c, i + 1, pkt, accepts).1 {
        DistanceLocal(c.queues, d.queues, i + 1);
        OneMore(|c.queues[i]|, |c.queues| - i);
      }
    }
  }

  lemma OneMore(a: nat, b: nat)
    ensures (a + 1) * b == a * b + b
  {
  }

  lemma {:induction false} DistanceAbove(a: seq<seq<Packet>>, b: seq<seq<Packet>>, i: nat, k: nat)
    requires |a| == |b| && k <= i <= |a|
    requires forall j :: k <= j < i ==> a[j] == b[j]
    requires Distance(b, i) < Distance(a, i)
    ensures Distance(b, k) < Distance(a, k)
    decreases i - k
  {
    if k < i { DistanceAbove(a, b, i, k + 1); }
  }

  /** Every successful serve brings a packet nearer to the sink. */
  lemma ServeAdvances(c: Chain, i: nat, accepts: bool)
    requires Sound(c) && i < |c.caps|
    ensures var (d, moved) := Serve(c, i, accepts);
            moved ==> Distance(d.queues, 0) < Distance(c.queues, 0)
  {
    if c.queues[i] != [] {
      var b := c.(queues := c.queues[i := c.queues[i][1..]]);
      var (d, passed) := Get(b, i + 1, c.queues[i][0], accepts);
      if passed {
        GetDistance(b, i + 1, c.queues[i][0], accepts);
        DistanceLocal(b.queues, c.queues, i + 1);
        OneMore(|d.queues[i]|, |c.queues| - i);
        DistanceAbove(c.queues, d.queues, i, 0);
      }
    }
  }

  lemma {:induction false} GetRegisters(c: Chain, i: nat, pkt: Packet, accepts: bool)
    requires Sound(c) && i <= |c.caps|
    ensures c.registered <= Get(c, i, pkt, accepts).0.registered
    decreases |c.caps| - i
  {
    hide Arrive;
    if i < |c.caps| { GetRegisters(c, i + 1, pkt, accepts); }
  }

  lemma ServeRegisters(c: Chain, i: nat, accepts: bool)
    requires Sound(c) && i < |c.caps|
    ensures c.registered <= Serve(c, i, accepts).0.registered
  {
    if c.queues[i] != [] {
      GetRegisters(c.(queues := c.queues[i := c.queues[i][1..]]), i + 1, c.queues[i][0], accepts);
    }
  }

  ghost predicate KeepsAll(c: Chain, d: Chain) {
    && Sound(c) && Sound(d) && d.caps == c.caps
    && Held(d) == Held(c)
    && (OneSlot(c.caps) ==> Line(d, 0) == Line(c, 0))
  }

  lemma ServeKeepsAll(c: Chain, i: nat, accepts: bool)
    requires Sound(c) && i < |c.caps|
    ensures KeepsAll(c, Serve(c, i, accepts).0)
  {
    ServeIsSound(c, i, accepts);
    ServeKeepsPackets(c, i, accepts);
    if OneSlot(c.caps) { ServeInOrder(c, i, accepts); }
  }

  /** A willing sink and a round in which no registered binder got rid of a packet. */
  lemma IdleMeansEmpty(c: Chain)
    requires Sound(c)
    requires forall j :: 0 <= j < |c.registered| ==> !Serve(c, c.registered[j], true).1
    ensures AllEmpty(c)
  {
    if !AllEmpty(c) {
      var top := TopExists(c, |c.caps|);
      TopDelivers(c, top);
    }
  }

  /** After a round in which nothing moved every waiting head but the last is blocked. */
  lemma IdleMeansBlocked(c: Chain, accepts: bool)
    requires Sound(c)
    requires forall j :: 0 <= j < |c.registered| ==> !Serve(c, c.registered[j], accepts).1
    ensures forall i :: 0 <= i < |c.caps| - 1 && c.queues[i] != [] ==> |c.queues[i + 1]| == c.caps[i + 1]
  {
    forall i | 0 <= i < |c.caps| - 1 && c.queues[i] != [] ensures |c.queues[i + 1]| == c.caps[i + 1] {
      ServeMovesIff(c, i, accepts);
    }
  }

  lemma DeliveredAll(c: Chain, d: Chain)
    requires KeepsAll(c, d) && AllEmpty(d)
    ensures multiset(d.delivered) == Held(c) && |d.delivered| == |Line(c, 0)|
    ensures OneSlot(c.caps) ==> d.delivered == Line(c, 0)
  {
    NoneWaiting(d.queues, 0);
    HeldSize(c, d);
  }

  /** The modules of one node and the poller that serves their binders. */
  class Node {
    var chain: Chain

    constructor (caps: seq<int>)
      requires forall j :: 0 <= j < |caps| ==> caps[j] >= 1
      ensures chain == Empty(caps)
    {
      chain := Empty(caps);
    }

    /** get of module i: refuse when the send binder is full, else send; at the end, the sink. */
    method GetAt(i: nat, pkt: Packet, accepts: bool) returns (r: int)
      requires Sound(chain) && i <= |chain.caps|
      modifies this
      ensures (chain, r > 0) == Get(old(chain), i, pkt, accepts) && (r == 1 || r == -1)
      decreases |chain.caps| - i, 0
    {
      if i == |chain.caps| {
        if accepts {
          chain := chain.(delivered := chain.delivered + [pkt]);
          return 1;
        }
        return -1;
      }
      if |chain.queues[i]| < chain.caps[i] {
        r := PutAt(i, pkt, accepts);
      } else {
        return -1;
      }
    }

    /** put of module i: the neighbour first, else the binder's queue. aborted stands for the exit. */
    method PutAt(i: nat, pkt: Packet, accepts: bool) returns (r: int)
      requires Sound(chain) && i < |chain.caps|
      modifies this
      ensures chain == Put(old(chain), i, pkt, accepts) && r == 1
      decreases |chain.caps| - i - 1, 1
    {
      var got := GetAt(i + 1, pkt, accepts);
      if got < 0 {
        var (q, out) := Arrive(chain.queues[i], chain.caps[i], pkt);
        chain := chain.(queues := chain.queues[i := q], registered := Register(chain.registered, i),
                        aborted := chain.aborted || out.Some?);
      }
      return 1;
    }

    /** serve of binder i: take the head, offer it downstream, put it back in front if refused. */
    method ServeAt(i: nat, accepts: bool) returns (r: int)
      requires Sound(chain) && i < |chain.caps|
      modifies this
      ensures (chain, r > 0) == Serve(old(chain), i, accepts)
    {
      if chain.queues[i] == [] {
        return -1;
      }
      var pkt := chain.queues[i][0];
      chain := chain.(queues := chain.queues[i := chain.queues[i][1..]]);
      r := GetAt(i + 1, pkt, accepts);
      if r <= 0 {
        chain := chain.(queues := chain.queues[i := [pkt] + chain.queues[i]]);
        assert [pkt] + old(chain).queues[i][1..] == old(chain).queues[i];
        assert chain.queues == old(chain).queues;
      }
    }

    /** The poller: serve the registered binders in turn, and start again as long as the last
        round served something. willing says that the sink accepts throughout; otherwise it
        answers as it likes. In the end every waiting head is blocked by a full binder in front of it,
        but for the last module's, which only the sink can take. */
    method PollAll(willing: bool)
      requires Sound(chain)
      modifies this
      ensures KeepsAll(old(chain), chain)
      ensures forall i :: 0 <= i < |chain.caps| - 1 && chain.queues[i] != [] ==>
                |chain.queues[i + 1]| == chain.caps[i + 1]
      ensures willing ==> AllEmpty(chain) && multiset(chain.delivered) == old(Held(chain))
      ensures willing && OneSlot(chain.caps) ==> chain.delivered == old(Line(chain, 0))
    {
      hide Serve, Held, Line, Distance, AllEmpty;
      var k, served := 0, false;
      while k < |chain.registered|
        invariant KeepsAll(old(chain), chain) && k <= |chain.registered|
        invariant k == |chain.registered| ==> !served
        invariant !served ==> forall j :: 0 <= j < k ==> !Serve(chain, chain.registered[j], willing).1
        decreases Distance(chain.queues, 0), served, |chain.registered| - k
      {
        var i, accepts := chain.registered[k], *;
        if willing {
          accepts := true;
        }
        ServeKeepsAll(chain, i, accepts);
        ServeAdvances(chain, i, accepts);
        ServeRegisters(chain, i, accepts);
        ServeMovesIff(chain, i, accepts);
        ServeMovesIff(chain, i, willing);
        var r := ServeAt(i, accepts);
        if r > 0 {
          served := true;
        }
        k := k + 1;
        if k == |chain.registered| && served {
          k, served := 0, false;
        }
      }
      IdleMeansBlocked(chain, willing);
      if willing {
        IdleMeansEmpty(chain);
        DeliveredAll(old(chain), chain);
      }
    }
  }
}

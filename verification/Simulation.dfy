/** Runs of the simulator's event loop: events and timers inserted by callouts at any point, and the
    loop taking the earlier of the heap's root and the timer list's head. */
module Simulation {
  import opened Heap
  import opened Scheduler

  /** An event that was executed, and where it came from. */
  datatype Executed = Executed(e: Event, fromHeap: bool)

  /** halted stands for the exits of the program: a full heap, an event inserted in the past, or an
      event found too late when it is dequeued. limit is the time to simulate. */
  datatype Sim = Sim(heap: seq<Event>, n: nat, timers: seq<Event>, clock: nat, limit: nat,
                     accepted: multiset<Event>, out: seq<Executed>, halted: bool)

  /** What callouts and the loop do: setFuncEvent and its like, setEventReuse, schedule_timer, and
      one round of executeEvent. */
  datatype Op = Set(e: Event) | Reuse(e: Event) | Timer(e: Event) | Execute

  function Begin(capacity: nat, limit: nat): Sim {
    Sim(seq(capacity, i => Event(0, 0, 0, 0, false)), 0, [], 0, limit, multiset{}, [], false)
  }

  function SetEvent(s: Sim, e: Event): Sim {
    match Admit(|s.heap|, s.n, e, s.clock, s.limit)
    case Full => s.(halted := true)
    case Past => s.(halted := true)
    case BeyondLimit => s
    case _ => s.(heap := Inserted(s.heap, s.n, e), n := s.n + 1, accepted := s.accepted + multiset{e})
  }

  /** The first place, from i on, of a timer later than t. */
  function TimerSpot(timers: seq<Event>, t: Event, i: nat): (k: nat)
    requires i <= |timers|
    ensures i <= k <= |timers|
    decreases |timers| - i
  {
    if i == |timers| || t.time < timers[i].time then i else TimerSpot(timers, t, i + 1)
  }

  function TimerIn(timers: seq<Event>, t: Event): seq<Event> {
    var k := TimerSpot(timers, t, 0);
    timers[..k] + [t] + timers[k..]
  }

  function ScheduleTimer(s: Sim, t: Event): Sim {
    if t.time < s.clock then s
    else s.(timers := TimerIn(s.timers, t), accepted := s.accepted + multiset{t})
  }

  function DequeueHeap(s: Sim): Sim
    requires 1 <= s.n < |s.heap|
  {
    var e := s.heap[1];
    var t := s.(heap := Dequeued(s.heap, s.n), n := s.n - 1);
    if e.time < s.clock then t.(halted := true)
    else t.(clock := e.time, out := s.out + [Executed(e, true)])
  }

  /** A periodic timer is put back one period later, unless it is flagged. */
  function DequeueTimer(s: Sim): Sim
    requires s.timers != []
  {
    var e := s.timers[0];
    var t := s.(timers := s.timers[1..]);
    if e.time < s.clock then t.(halted := true)
    else
      var u := t.(clock := e.time, out := s.out + [Executed(e, false)]);
      if e.period > 0 && !e.flagged then ScheduleTimer(u, e.(time := e.time + e.period)) else u
  }

  /** Which queue the loop serves: the earlier, the higher priority, the heap. */
  predicate HeapFirst(s: Sim)
    requires 1 <= s.n < |s.heap|
  {
    s.timers == [] || s.heap[1].time < s.timers[0].time
    || (s.heap[1].time == s.timers[0].time && s.heap[1].priority >= s.timers[0].priority)
  }

  /** The loop goes on only while the clock is within the limit. */
  function ExecuteOne(s: Sim): Sim
    requires s.n < |s.heap|
  {
    if s.clock > s.limit then s
    else if s.n > 0 && HeapFirst(s) then DequeueHeap(s)
    else if s.timers != [] then DequeueTimer(s)
    else s.(clock := s.limit + 1)
  }

  function Step(s: Sim, op: Op): (t: Sim)
    requires s.n < |s.heap|
    ensures t.n < |t.heap|
  {
    if s.halted then s
    else
      match op
      case Set(e) => SetEvent(s, e)
      case Reuse(e) => if e.period > 0 then SetEvent(s, e.(time := s.clock + e.period)) else s
      case Timer(e) => ScheduleTimer(s, e)
      case Execute => ExecuteOne(s)
  }

  function Run(capacity: nat, limit: nat, ops: seq<Op>, k: nat): (s: Sim)
    requires capacity > 0 && k <= |ops|
    ensures s.n < |s.heap|
  {
    if k == 0 then Begin(capacity, limit) else Step(Run(capacity, limit, ops, k - 1), ops[k - 1])
  }

  // ---------- What every run keeps ----------

  ghost predicate TimersSorted(timers: seq<Event>) {
    forall i, j :: 0 <= i < j < |timers| ==> timers[i].time <= timers[j].time
  }

  /** Nothing that waits is in the past, and no event of the heap lies beyond the limit. */
  ghost predicate Ahead(s: Sim)
    requires s.n < |s.heap|
  {
    && Ordered(false, s.heap, s.n)
    && (forall e :: e in Events(s.heap, s.n) ==> s.clock <= e.time && (s.limit > 0 ==> e.time <= s.limit))
    && TimersSorted(s.timers)
    && (forall k :: 0 <= k < |s.timers| ==> s.clock <= s.timers[k].time)
  }

  /** The executed events are in order of time, up to the clock; those of the heap are within the
      limit, and only the last may lie beyond it. */
  ghost predicate InOrder(s: Sim) {
    && (forall i, j :: 0 <= i < j < |s.out| ==> s.out[i].e.time <= s.out[j].e.time)
    && (forall i :: 0 <= i < |s.out| ==> s.out[i].e.time <= s.clock)
    && (forall i :: 0 <= i < |s.out| && s.out[i].fromHeap && s.limit > 0 ==> s.out[i].e.time <= s.limit)
    && (forall i :: 0 <= i < |s.out| - 1 ==> s.out[i].e.time <= s.limit)
    && (s.out != [] && s.clock <= s.limit ==> s.out[|s.out| - 1].e.time == s.clock)
  }

  function OutEvents(out: seq<Executed>, k: nat): multiset<Event>
    requires k <= |out|
  {
    if k == 0 then multiset{} else OutEvents(out, k - 1) + multiset{out[k - 1].e}
  }

  lemma {:induction false} OutEventsPrefix(out: seq<Executed>, x: Executed, k: nat)
    requires k <= |out|
    ensures OutEvents(out + [x], k) == OutEvents(out, k)
  {
    if k != 0 { OutEventsPrefix(out, x, k - 1); }
  }

  /** Every accepted event is executed or still waiting, and counted once. */
  ghost predicate Conserved(s: Sim)
    requires s.n < |s.heap|
  {
    s.accepted == OutEvents(s.out, |s.out|) + Events(s.heap, s.n) + multiset(s.timers)
  }

  /** What every run keeps. */
  ghost predicate Good(s: Sim) {
    s.n < |s.heap| && Ahead(s) && InOrder(s) && Conserved(s)
  }

  lemma Accept(all: multiset<Event>, out: multiset<Event>, heap: multiset<Event>, timers: multiset<Event>,
               x: multiset<Event>)
    requires all == out + heap + timers
    ensures all + x == out + (heap + x) + timers
    ensures all + x == out + heap + (timers + x)
  {
  }

  lemma Leave(all: multiset<Event>, out: multiset<Event>, heap: multiset<Event>, timers: multiset<Event>,
              x: multiset<Event>)
    ensures all == out + (heap + x) + timers ==> all == (out + x) + heap + timers
    ensures all == out + heap + (x + timers) ==> all == (out + x) + heap + timers
  {
    assert out + (heap + x) + timers == (out + x) + heap + timers;
    assert out + heap + (x + timers) == (out + x) + heap + timers;
  }

  lemma InsertIsGood(s: Sim, e: Event)
    requires Good(s) && s.n + 1 < |s.heap| && s.clock <= e.time && (s.limit > 0 ==> e.time <= s.limit)
    ensures Good(s.(heap := Inserted(s.heap, s.n, e), n := s.n + 1, accepted := s.accepted + multiset{e}))
  {
    hide Inserted, Ordered, Events, OutEvents;
    InsertKeepsOrder(false, s.heap, s.n, e);
    InsertKeepsEvents(s.heap, s.n, e);
    Accept(s.accepted, OutEvents(s.out, |s.out|), Events(s.heap, s.n), multiset(s.timers), multiset{e});
  }

  lemma SetEventKeeps(s: Sim, e: Event)
    requires Good(s)
    ensures Good(SetEvent(s, e))
  {
    hide Inserted, Good;
    if Admit(|s.heap|, s.n, e, s.clock, s.limit) == Done {
      InsertIsGood(s, e);
    } else {
      HaltIsGood(s);
    }
  }

  lemma HaltIsGood(s: Sim)
    requires Good(s)
    ensures Good(s.(halted := true))
  {
    hide Ordered, Events, OutEvents;
  }

  lemma {:induction false} TimerSpotBounds(timers: seq<Event>, t: Event, i: nat)
    requires i <= |timers|
    ensures var k := TimerSpot(timers, t, i);
            && (forall j :: i <= j < k ==> timers[j].time <= t.time)
            && (k < |timers| ==> t.time < timers[k].time)
    decreases |timers| - i
  {
    if i < |timers| && t.time >= timers[i].time { TimerSpotBounds(timers, t, i + 1); }
  }

  lemma TimerInSorted(timers: seq<Event>, t: Event)
    requires TimersSorted(timers)
    ensures TimersSorted(TimerIn(timers, t))
  {
    TimerSpotBounds(timers, t, 0);
    var k := TimerSpot(timers, t, 0);
    assert forall i :: k <= i < |timers| ==> t.time < timers[i].time;
  }

  lemma TimerInAhead(timers: seq<Event>, t: Event, clock: nat)
    requires clock <= t.time && forall k :: 0 <= k < |timers| ==> clock <= timers[k].time
    ensures forall k :: 0 <= k < |TimerIn(timers, t)| ==> clock <= TimerIn(timers, t)[k].time
  {
  }

  lemma TimerInAdds(timers: seq<Event>, t: Event)
    ensures multiset(TimerIn(timers, t)) == multiset(timers) + multiset{t}
  {
    var k := TimerSpot(timers, t, 0);
    assert timers == timers[..k] + timers[k..];
  }

  lemma TimerIsGood(s: Sim, t: Event)
    requires Good(s) && s.clock <= t.time
    ensures Good(s.(timers := TimerIn(s.timers, t), accepted := s.accepted + multiset{t}))
  {
    hide Events, Ordered, OutEvents, TimersSorted, TimerIn;
    TimerInSorted(s.timers, t);
    TimerInAhead(s.timers, t, s.clock);
    TimerInAdds(s.timers, t);
    Accept(s.accepted, OutEvents(s.out, |s.out|), Events(s.heap, s.n), multiset(s.timers), multiset{t});
  }

  lemma ScheduleTimerKeeps(s: Sim, t: Event)
    requires Good(s)
    ensures Good(ScheduleTimer(s, t))
  {
    hide Good, TimerIn;
    if t.time >= s.clock { TimerIsGood(s, t); }
  }

  lemma OutExtends(s: Sim, x: Executed, t: Sim)
    requires InOrder(s) && s.clock <= s.limit && s.clock <= x.e.time
    requires x.fromHeap && s.limit > 0 ==> x.e.time <= s.limit
    requires t.out == s.out + [x] && t.clock == x.e.time && t.limit == s.limit
    ensures InOrder(t)
    ensures OutEvents(t.out, |t.out|) == OutEvents(s.out, |s.out|) + multiset{x.e}
  {
    OutEventsPrefix(s.out, x, |s.out|);
  }

  lemma HeapPopped(s: Sim)
    requires Good(s) && 1 <= s.n && HeapFirst(s)
    ensures var e, t := s.heap[1], Dequeued(s.heap, s.n);
            && s.clock <= e.time && (s.limit > 0 ==> e.time <= s.limit)
            && Ordered(false, t, s.n - 1)
            && Events(t, s.n - 1) + multiset{e} == Events(s.heap, s.n)
            && (forall x :: x in Events(t, s.n - 1) ==> e.time <= x.time && (s.limit > 0 ==> x.time <= s.limit))
            && (forall k :: 0 <= k < |s.timers| ==> e.time <= s.timers[k].time)
  {
    hide Dequeued, Ordered, Events, InOrder, Conserved;
    var e, t := s.heap[1], Dequeued(s.heap, s.n);
    LeastOfAll(s.heap, s.n);
    DequeueKeepsOrder(s.heap, s.n);
    DequeueKeepsEvents(s.heap, s.n);
    assert e in Events(t, s.n - 1) + multiset{e};
    assert forall x :: x in Events(t, s.n - 1) ==> x in Events(s.heap, s.n);
  }

  lemma HeapConserved(s: Sim, t: Sim, e: Event)
    requires s.n < |s.heap| && t.n < |t.heap| && Conserved(s)
    requires t.accepted == s.accepted && t.timers == s.timers
    requires OutEvents(t.out, |t.out|) == OutEvents(s.out, |s.out|) + multiset{e}
    requires Events(t.heap, t.n) + multiset{e} == Events(s.heap, s.n)
    ensures Conserved(t)
  {
    Leave(s.accepted, OutEvents(s.out, |s.out|), Events(t.heap, t.n), multiset(s.timers), multiset{e});
  }

  lemma HeapAhead(s: Sim)
    requires Good(s) && 1 <= s.n && HeapFirst(s)
    ensures s.clock <= s.heap[1].time && Ahead(DequeueHeap(s))
  {
    HeapPopped(s);
    hide Dequeued, Ordered, Events, InOrder, Conserved, HeapFirst;
  }

  /** The loop never finds an event of the heap too late. */
  lemma DequeueHeapKeeps(s: Sim)
    requires Good(s) && 1 <= s.n && HeapFirst(s) && s.clock <= s.limit
    ensures DequeueHeap(s).halted == s.halted && Good(DequeueHeap(s))
  {
    HeapPopped(s);
    HeapAhead(s);
    hide Dequeued, Ordered, Events, OutEvents, InOrder, HeapFirst, Ahead, Conserved;
    OutExtends(s, Executed(s.heap[1], true), DequeueHeap(s));
    HeapConserved(s, DequeueHeap(s), s.heap[1]);
  }

  lemma TimerPopped(s: Sim)
    requires Good(s) && s.timers != [] && (s.n > 0 ==> !HeapFirst(s)) && s.clock <= s.limit
    ensures var e := s.timers[0];
            s.clock <= e.time && Good(s.(timers := s.timers[1..], clock := e.time, out := s.out + [Executed(e, false)]))
  {
    hide Events, OutEvents, Ordered, InOrder;
    var e := s.timers[0];
    var u := s.(timers := s.timers[1..], clock := e.time, out := s.out + [Executed(e, false)]);
    if s.n > 0 { LeastOfAll(s.heap, s.n); } else { NoEvents(s.heap); }
    assert s.timers == [e] + u.timers;
    OutExtends(s, Executed(e, false), u);
    Leave(s.accepted, OutEvents(s.out, |s.out|), Events(s.heap, s.n), multiset(u.timers), multiset{e});
  }

  lemma NoEvents(heap: seq<Event>)
    requires 0 < |heap|
    ensures Events(heap, 0) == multiset{}
  {
    assert heap[1..1] == [];
  }

  /** Nor a timer. */
  lemma DequeueTimerKeeps(s: Sim)
    requires Good(s) && s.timers != [] && (s.n > 0 ==> !HeapFirst(s)) && s.clock <= s.limit
    ensures DequeueTimer(s).halted == s.halted && Good(DequeueTimer(s))
  {
    hide Good;
    TimerPopped(s);
    var e := s.timers[0];
    var u := s.(timers := s.timers[1..], clock := e.time, out := s.out + [Executed(e, false)]);
    ScheduleTimerKeeps(u, e.(time := e.time + e.period));
  }

  lemma BeginIsGood(capacity: nat, limit: nat)
    requires capacity > 0
    ensures Good(Begin(capacity, limit))
  {
    NoEvents(Begin(capacity, limit).heap);
  }

  lemma IdleIsGood(s: Sim)
    requires Good(s) && s.n == 0 && s.timers == [] && s.clock <= s.limit
    ensures Good(s.(clock := s.limit + 1))
  {
    hide OutEvents, Events;
    NoEvents(s.heap);
  }

  lemma StepKeeps(s: Sim, op: Op)
    requires s.n < |s.heap| && Good(s)
    ensures Good(Step(s, op))
    ensures op.Execute? ==> Step(s, op).halted == s.halted
  {
    hide Good, SetEvent, ScheduleTimer, DequeueHeap, DequeueTimer, HeapFirst;
    if !s.halted {
      match op
      case Set(e) => SetEventKeeps(s, e);
      case Reuse(e) => SetEventKeeps(s, e.(time := s.clock + e.period));
      case Timer(e) => ScheduleTimerKeeps(s, e);
      case Execute =>
        if s.clock > s.limit {
        } else if s.n > 0 && HeapFirst(s) {
          DequeueHeapKeeps(s);
        } else if s.timers != [] {
          DequeueTimerKeeps(s);
        } else if s.n == 0 {
          IdleIsGood(s);
        } else {
          NotIdle(s);
        }
    }
  }

  lemma NotIdle(s: Sim)
    requires 1 <= s.n < |s.heap| && s.timers == []
    ensures HeapFirst(s)
  {
  }

  /** Over every interleaving of insertions, reinsertions, timers and rounds of the loop: the
      executed times never go back and respect the limit, nothing accepted is lost or executed
      twice, and the loop's own late-event exits are never taken. */
  lemma {:induction false} EveryRun(capacity: nat, limit: nat, ops: seq<Op>, k: nat)
    requires capacity > 0 && k <= |ops|
    ensures Good(Run(capacity, limit, ops, k))
    ensures k > 0 && ops[k - 1].Execute? ==>
              Run(capacity, limit, ops, k).halted == Run(capacity, limit, ops, k - 1).halted
  {
    hide Step, Good, Begin;
    if k == 0 {
      BeginIsGood(capacity, limit);
    } else {
      EveryRun(capacity, limit, ops, k - 1);
      StepKeeps(Run(capacity, limit, ops, k - 1), ops[k - 1]);
    }
  }

  /** An accepted event comes out at most as often as it was accepted, and exactly so once heap and
      timer list are empty. */
  lemma OnceEach(capacity: nat, limit: nat, ops: seq<Op>, k: nat, e: Event)
    requires capacity > 0 && k <= |ops|
    ensures var s := Run(capacity, limit, ops, k);
            && OutEvents(s.out, |s.out|)[e] <= s.accepted[e]
            && (s.n == 0 && s.timers == [] ==> OutEvents(s.out, |s.out|)[e] == s.accepted[e])
  {
    EveryRun(capacity, limit, ops, k);
    NoEvents(Run(capacity, limit, ops, k).heap);
  }

  // ---------- What the operations do ----------

  /** An event that is set is taken in unless it would fill the heap or is in the past, which ends the
      program, or lies beyond the limit, if there is one, in which case nothing happens. */
  lemma SetDoes(s: Sim, e: Event)
    requires s.n < |s.heap| && !s.halted
    ensures var t := Step(s, Set(e));
            if s.n + 2 > |s.heap| || e.time < s.clock then t == s.(halted := true)
            else if 0 < s.limit < e.time then t == s
            else
              && t == s.(heap := t.heap, n := s.n + 1, accepted := s.accepted + multiset{e})
              && Events(t.heap, t.n) == Events(s.heap, s.n) + multiset{e}
  {
    hide Inserted, Events;
    if s.n + 1 < |s.heap| { InsertKeepsEvents(s.heap, s.n, e); }
  }

  /** A periodic event that is reused is set one period from now; another is refused. */
  lemma ReuseDoes(s: Sim, e: Event)
    requires s.n < |s.heap| && !s.halted
    ensures Step(s, Reuse(e)) == if e.period > 0 then Step(s, Set(e.(time := s.clock + e.period))) else s
  {
  }

  /** A timer in the past is ignored; another is put behind all that are not later and before all that
      are. */
  lemma TimerDoes(s: Sim, e: Event) returns (k: nat)
    requires s.n < |s.heap| && !s.halted && TimersSorted(s.timers)
    ensures e.time < s.clock ==> Step(s, Timer(e)) == s
    ensures k <= |s.timers|
    ensures forall j :: 0 <= j < |s.timers| ==> (s.timers[j].time <= e.time <==> j < k)
    ensures e.time >= s.clock ==>
              Step(s, Timer(e))
              == s.(timers := s.timers[..k] + [e] + s.timers[k..], accepted := s.accepted + multiset{e})
  {
    k := TimerSpot(s.timers, e, 0);
    TimerSpotBounds(s.timers, e, 0);
  }

  predicate Idle(s: Sim) {
    s.n == 0 && s.timers == []
  }

  /** Whether the heap's root is before the first timer, at a tie of time by priority, at a tie of both
      at once. */
  predicate RootFirst(s: Sim)
    requires s.n < |s.heap|
  {
    s.n > 0 && (s.timers == [] || s.heap[1].time < s.timers[0].time
                || (s.heap[1].time == s.timers[0].time && s.heap[1].priority >= s.timers[0].priority))
  }

  /** A round within the limit executes one event, and no other waiting event is due before it; the
      clock is then its time. */
  lemma RoundExecutes(s: Sim)
    requires s.n < |s.heap| && Good(s) && !s.halted && s.clock <= s.limit && !Idle(s)
    ensures var t, x := Step(s, Execute), Executed(if RootFirst(s) then s.heap[1] else s.timers[0], RootFirst(s));
            && t.out == s.out + [x] && t.clock == x.e.time && !t.halted && t.limit == s.limit
            && (forall e :: e in Events(s.heap, s.n) ==> x.e.time <= e.time)
            && (forall k :: 0 <= k < |s.timers| ==> x.e.time <= s.timers[k].time)
  {
    hide Good, DequeueHeap, DequeueTimer;
    if RootFirst(s) {
      DequeueHeapKeeps(s);
      HeapRound(s);
    } else {
      if s.n > 0 { assert !HeapFirst(s); }
      DequeueTimerKeeps(s);
      TimerRound(s);
    }
  }

  lemma HeapRound(s: Sim)
    requires s.n < |s.heap| && Good(s) && !s.halted && s.clock <= s.limit && RootFirst(s)
    ensures var t, e := DequeueHeap(s), s.heap[1];
            && t == s.(heap := t.heap, n := s.n - 1, clock := e.time, out := s.out + [Executed(e, true)])
            && Events(t.heap, t.n) + multiset{e} == Events(s.heap, s.n)
            && (forall x :: x in Events(s.heap, s.n) ==> e.time <= x.time)
            && (forall k :: 0 <= k < |s.timers| ==> e.time <= s.timers[k].time)
  {
    hide Dequeued, Events, Ordered, Conserved, InOrder;
    HeapPopped(s);
    LeastOfAll(s.heap, s.n);
  }

  /** A timer that is executed is put back one period later if it is periodic and not flagged. */
  lemma TimerRound(s: Sim)
    requires s.n < |s.heap| && Good(s) && !s.halted && s.clock <= s.limit && !RootFirst(s) && s.timers != []
    ensures var t, e := DequeueTimer(s), s.timers[0];
            var again := e.(time := e.time + e.period);
            && t == s.(timers := if e.period > 0 && !e.flagged then TimerIn(s.timers[1..], again) else s.timers[1..],
                       clock := e.time, out := s.out + [Executed(e, false)],
                       accepted := if e.period > 0 && !e.flagged then s.accepted + multiset{again} else s.accepted)
            && (forall x :: x in Events(s.heap, s.n) ==> e.time <= x.time)
            && (forall k :: 0 <= k < |s.timers| ==> e.time <= s.timers[k].time)
  {
    hide Events, Ordered, Conserved, InOrder, TimerIn;
    if s.n > 0 { LeastOfAll(s.heap, s.n); } else { NoEvents(s.heap); }
  }

  /** With nothing waiting the loop ends: the clock passes the limit. */
  lemma IdleEnds(s: Sim)
    requires s.n < |s.heap| && !s.halted && s.clock <= s.limit && Idle(s)
    ensures Step(s, Execute) == s.(clock := s.limit + 1)
  {
  }

  // ---------- The loop ends ----------

  /** At most how many rounds an event can still take part in within the limit, and one. */
  function Turns(t: Event, limit: nat): nat {
    if t.time <= limit then limit - t.time + 2 else 1
  }

  function TimerWork(timers: seq<Event>, limit: nat): nat {
    if timers == [] then 0 else TimerWork(timers[..|timers| - 1], limit) + Turns(timers[|timers| - 1], limit)
  }

  lemma {:induction false} WorkJoins(a: seq<Event>, b: seq<Event>, limit: nat)
    ensures TimerWork(a + b, limit) == TimerWork(a, limit) + TimerWork(b, limit)
  {
    if b == [] {
      assert a + b == a;
    } else {
      assert (a + b)[..|a + b| - 1] == a + b[..|b| - 1];
      WorkJoins(a, b[..|b| - 1], limit);
    }
  }

  lemma WorkOfOne(t: Event, limit: nat)
    ensures TimerWork([t], limit) == Turns(t, limit)
  {
    assert [t][..0] == [];
  }

  lemma WorkIn(timers: seq<Event>, t: Event, limit: nat)
    ensures TimerWork(TimerIn(timers, t), limit) == TimerWork(timers, limit) + Turns(t, limit)
  {
    var k := TimerSpot(timers, t, 0);
    assert timers == timers[..k] + timers[k..];
    WorkJoins(timers[..k], timers[k..], limit);
    WorkJoins(timers[..k] + [t], timers[k..], limit);
    WorkJoins(timers[..k], [t], limit);
    WorkOfOne(t, limit);
  }

  function Work(s: Sim): nat {
    s.n + TimerWork(s.timers, s.limit)
  }

  lemma WorkIdle(s: Sim)
    ensures Work(s) == 0 ==> Idle(s)
  {
  }

  /** Every round takes work away, periodic timers included, or passes the limit. */
  lemma RoundShrinks(s: Sim)
    requires s.n < |s.heap| && Good(s) && !s.halted && s.clock <= s.limit && !Idle(s)
    ensures var t := Step(s, Execute); t.limit == s.limit && (t.clock > s.limit || Work(t) < Work(s))
  {
    hide Good, DequeueHeap, DequeueTimer, TimerWork, TimerIn, Events;
    if RootFirst(s) {
      HeapRound(s);
    } else {
      if s.n > 0 { assert !HeapFirst(s); }
      TimerRound(s);
      var e, rest := s.timers[0], s.timers[1..];
      var again := e.(time := e.time + e.period);
      assert s.timers == [e] + rest;
      WorkJoins([e], rest, s.limit);
      WorkOfOne(e, s.limit);
      WorkIn(rest, again, s.limit);
    }
  }

  /** The loop alone: k rounds without anything being set. */
  function Rounds(s: Sim, k: nat): (t: Sim)
    requires s.n < |s.heap|
    ensures t.n < |t.heap|
  {
    if k == 0 then s else Step(Rounds(s, k - 1), Execute)
  }

  lemma {:induction false} RoundsShrink(s: Sim, k: nat)
    requires s.n < |s.heap| && Good(s) && !s.halted
    ensures var t := Rounds(s, k);
            && t.n < |t.heap| && Good(t) && !t.halted && t.limit == s.limit
            && (t.clock > s.limit || Work(t) + k <= Work(s))
  {
    hide Good, Step, Work;
    if k != 0 {
      RoundsShrink(s, k - 1);
      var t := Rounds(s, k - 1);
      StepKeeps(t, Execute);
      RoundIs(t);
    }
  }

  lemma RoundIs(s: Sim)
    requires s.n < |s.heap| && Good(s) && !s.halted
    ensures var t := Step(s, Execute); t.limit == s.limit && (t.clock > s.limit || Work(t) < Work(s))
    ensures s.clock > s.limit ==> Step(s, Execute) == s
  {
    hide Good, Work;
    if s.clock <= s.limit {
      if Idle(s) { IdleEnds(s); } else { RoundShrinks(s); }
    }
  }

  /** From every state of every run the loop comes to its end, and then nothing that is due within the
      limit waits: every accepted event within it has been executed as often as it was accepted. */
  lemma LoopEnds(s: Sim, e: Event)
    requires s.n < |s.heap| && Good(s) && !s.halted
    ensures var t := Rounds(s, Work(s) + 1);
            && t.clock > t.limit == s.limit && !t.halted
            && (e.time <= s.limit ==>
                  && e !in Events(t.heap, t.n) && e !in t.timers && OutEvents(t.out, |t.out|)[e] == t.accepted[e])
  {
    hide Rounds, Work;
    RoundsShrink(s, Work(s) + 1);
    hide OutEvents, Events;
  }
}

/** The event heap of the simulator on values: a 1-based binary heap in a sequence whose element 0
    is unused. The two sift loops are the recursive functions SiftUp and SiftDown. */
module Heap {

  /** flagged: for the kernel, a tunnel or the command server, not for a callout. */
  datatype Event = Event(id: nat, time: nat, period: nat, priority: nat, flagged: bool)

  /** Earlier, or at the same time with a priority at least as high. */
  predicate Before(x: Event, y: Event) {
    x.time < y.time || (x.time == y.time && x.priority >= y.priority)
  }

  /** The order kept between parent and child: by time, or by time and priority. */
  predicate Rel(full: bool, x: Event, y: Event) {
    if full then Before(x, y) else x.time <= y.time
  }

  /** a[1..n] is a heap. */
  ghost predicate Ordered(full: bool, a: seq<Event>, n: nat) {
    n < |a| && forall k :: 2 <= k <= n ==> Rel(full, a[k / 2], a[k])
  }

  /** The loop of insertEvent: move parents down from the hole at i until e may stand there. */
  function SiftUp(a: seq<Event>, i: nat, e: Event): (r: seq<Event>)
    requires 1 <= i < |a|
    ensures |r| == |a|
    decreases i
  {
    if i == 1 || Before(a[i / 2], e) then a[i := e]
    else SiftUp(a[i := a[i / 2]], i / 2, e)
  }

  /** The child of i that the loop of dequeueEvent compares with: on a tie in time, the right one. */
  function Child(a: seq<Event>, n: nat, i: nat): nat
    requires 1 <= i && 2 * i <= n < |a|
  {
    if 2 * i < n && a[2 * i].time >= a[2 * i + 1].time then 2 * i + 1 else 2 * i
  }

  predicate Rests(last: Event, child: Event) {
    last.time < child.time || (last.time == child.time && last.priority > child.priority)
  }

  /** The loop of dequeueEvent: move children up into the hole at i until last may stand there. */
  function SiftDown(a: seq<Event>, n: nat, i: nat, last: Event): (r: seq<Event>)
    requires 1 <= i < |a| && n < |a|
    ensures |r| == |a|
    decreases n - i
  {
    if 2 * i > n then a[i := last]
    else
      var c := Child(a, n, i);
      if Rests(last, a[c]) then a[i := last]
      else SiftDown(a[i := a[c]], n, c, last)
  }

  // ---------- Insertion ----------

  /** a[1..n] with e in the hole at i is a heap but for e and its parent. */
  ghost predicate UpHole(full: bool, a: seq<Event>, n: nat, i: nat, e: Event) {
    && 1 <= i <= n < |a|
    && (forall k :: 2 <= k <= n && k != i && k / 2 != i ==> Rel(full, a[k / 2], a[k]))
    && (forall k :: 2 <= k <= n && k / 2 == i ==> Rel(full, e, a[k]))
    && (forall k :: 2 <= k <= n && k / 2 == i && i >= 2 ==> Rel(full, a[i / 2], a[k]))
  }

  lemma UpHoleFilled(full: bool, a: seq<Event>, n: nat, i: nat, e: Event)
    requires UpHole(full, a, n, i, e)
    requires i == 1 || Before(a[i / 2], e)
    ensures Ordered(full, a[i := e], n)
  {
  }

  lemma UpHoleMoves(full: bool, a: seq<Event>, n: nat, i: nat, e: Event)
    requires UpHole(full, a, n, i, e)
    requires i != 1 && !Before(a[i / 2], e)
    ensures UpHole(full, a[i := a[i / 2]], n, i / 2, e)
  {
  }

  lemma {:induction false} SiftUpOrders(full: bool, a: seq<Event>, n: nat, i: nat, e: Event)
    requires UpHole(full, a, n, i, e)
    ensures Ordered(full, SiftUp(a, i, e), n)
    decreases i
  {
    hide Before, Ordered, Rel;
    if i == 1 || Before(a[i / 2], e) {
      UpHoleFilled(full, a, n, i, e);
    } else {
      UpHoleMoves(full, a, n, i, e);
      SiftUpOrders(full, a[i := a[i / 2]], n, i / 2, e);
    }
  }

  lemma SwapHole(a: seq<Event>, i: nat, j: nat, e: Event)
    requires i < |a| && j < |a| && i != j
    ensures multiset(a[i := a[j]][j := e]) == multiset(a[i := e])
  {
    assert multiset(a[i := a[j]]) == multiset(a) - multiset{a[i]} + multiset{a[j]};
  }

  lemma {:induction false} SiftUpPermutes(a: seq<Event>, i: nat, e: Event)
    requires 1 <= i < |a|
    ensures multiset(SiftUp(a, i, e)) == multiset(a[i := e])
    ensures SiftUp(a, i, e)[0] == a[0]
    ensures forall k :: i < k < |a| ==> SiftUp(a, i, e)[k] == a[k]
    decreases i
  {
    if i == 1 || Before(a[i / 2], e) {
    } else {
      SiftUpPermutes(a[i := a[i / 2]], i / 2, e);
      SwapHole(a, i, i / 2, e);
    }
  }

  // ---------- Removal ----------

  /** a[1..n] with last in the hole at i is a heap but for last and its children. */
  ghost predicate DownHole(full: bool, a: seq<Event>, n: nat, i: nat, last: Event) {
    && 1 <= i <= n < |a|
    && (forall k :: 2 <= k <= n && k != i && k / 2 != i ==> Rel(full, a[k / 2], a[k]))
    && (i >= 2 ==> Rel(full, a[i / 2], last))
    && (forall k :: 2 <= k <= n && k / 2 == i && i >= 2 ==> Rel(full, a[i / 2], a[k]))
  }

  lemma DownHoleFilled(full: bool, a: seq<Event>, n: nat, i: nat, last: Event)
    requires DownHole(full, a, n, i, last)
    requires 2 * i <= n ==> Rests(last, a[Child(a, n, i)]) && (full ==> TieFair(a, n, i, last))
    ensures Ordered(full, a[i := last], n)
  {
  }

  lemma DownHoleMoves(full: bool, a: seq<Event>, n: nat, i: nat, last: Event)
    requires DownHole(full, a, n, i, last)
    requires 2 * i <= n && !Rests(last, a[Child(a, n, i)]) && (full ==> TieFair(a, n, i, last))
    ensures DownHole(full, a[i := a[Child(a, n, i)]], n, Child(a, n, i), last)
  {
  }

  lemma {:induction false} SiftDownOrders(a: seq<Event>, n: nat, i: nat, last: Event)
    requires DownHole(false, a, n, i, last)
    ensures Ordered(false, SiftDown(a, n, i, last), n)
    decreases n - i
  {
    hide Ordered, Rests, Rel;
    if 2 * i > n || Rests(last, a[Child(a, n, i)]) {
      DownHoleFilled(false, a, n, i, last);
    } else {
      DownHoleMoves(false, a, n, i, last);
      SiftDownOrders(a[i := a[Child(a, n, i)]], n, Child(a, n, i), last);
    }
  }

  lemma {:induction false} SiftDownPermutes(a: seq<Event>, n: nat, i: nat, last: Event)
    requires 1 <= i < |a| && n < |a|
    ensures multiset(SiftDown(a, n, i, last)) == multiset(a[i := last])
    ensures forall k :: 0 <= k < i || (n < k < |a| && k != i) ==> SiftDown(a, n, i, last)[k] == a[k]
    decreases n - i
  {
    if 2 * i <= n {
      var c := Child(a, n, i);
      if !Rests(last, a[c]) {
        SiftDownPermutes(a[i := a[c]], n, c, last);
        SwapHole(a, i, c, last);
      }
    }
  }

  // ---------- When removal keeps the full order ----------

  /** At i, a left child that ties in time with the right one does not have a higher priority than
      the event that ends up above it. */
  predicate TieFair(a: seq<Event>, n: nat, i: nat, last: Event)
    requires 1 <= i && 2 * i <= n < |a|
  {
    var c := Child(a, n, i);
    var above := if Rests(last, a[c]) then last else a[c];
    2 * i < n && a[2 * i].time == a[2 * i + 1].time == above.time ==> a[2 * i].priority <= above.priority
  }

  /** So it is all along the way of last down from i. */
  predicate TiesFair(a: seq<Event>, n: nat, i: nat, last: Event)
    requires 1 <= i < |a| && n < |a|
    decreases n - i
  {
    2 * i <= n ==>
      && TieFair(a, n, i, last)
      && (Rests(last, a[Child(a, n, i)]) || TiesFair(a, n, Child(a, n, i), last))
  }

  lemma {:induction false} TiesFairLocal(a: seq<Event>, b: seq<Event>, n: nat, i: nat, last: Event)
    requires |a| == |b| && 1 <= i < |a| && n < |a|
    requires forall k :: i < k < |a| ==> a[k] == b[k]
    ensures TiesFair(a, n, i, last) == TiesFair(b, n, i, last)
    decreases n - i
  {
    if 2 * i <= n { TiesFairLocal(a, b, n, Child(a, n, i), last); }
  }

  lemma {:induction false} FairKeepsFull(a: seq<Event>, n: nat, i: nat, last: Event)
    requires DownHole(true, a, n, i, last)
    requires TiesFair(a, n, i, last)
    ensures Ordered(true, SiftDown(a, n, i, last), n)
    decreases n - i
  {
    hide TieFair, Ordered, Rests, Rel;
    if 2 * i > n || Rests(last, a[Child(a, n, i)]) {
      DownHoleFilled(true, a, n, i, last);
    } else {
      var c := Child(a, n, i);
      DownHoleMoves(true, a, n, i, last);
      TiesFairLocal(a, a[i := a[c]], n, c, last);
      FairKeepsFull(a[i := a[c]], n, c, last);
    }
  }

  /** An unfair tie at i leaves the left child below an event of lower priority. */
  lemma UnfairTieShows(a: seq<Event>, n: nat, i: nat, last: Event)
    requires 1 <= i && 2 * i <= n < |a| && !TieFair(a, n, i, last)
    ensures !Ordered(true, SiftDown(a, n, i, last), n)
  {
    var c := Child(a, n, i);
    var r := SiftDown(a, n, i, last);
    SiftDownPermutes(a[i := a[c]], n, c, last);
    assert !Rel(true, r[2 * i / 2], r[2 * i]);
  }

  lemma {:induction false} UnfairBreaksFull(a: seq<Event>, n: nat, i: nat, last: Event)
    requires DownHole(true, a, n, i, last)
    requires !TiesFair(a, n, i, last)
    ensures !Ordered(true, SiftDown(a, n, i, last), n)
    decreases n - i
  {
    hide TieFair, Ordered, Rests, Rel;
    if !TieFair(a, n, i, last) {
      UnfairTieShows(a, n, i, last);
    } else {
      var c := Child(a, n, i);
      DownHoleMoves(true, a, n, i, last);
      TiesFairLocal(a, a[i := a[c]], n, c, last);
      UnfairBreaksFull(a[i := a[c]], n, c, last);
    }
  }

  // ---------- Whole calls ----------

  function Events(a: seq<Event>, n: nat): multiset<Event>
    requires 0 < |a| && n < |a|
  {
    multiset(a[1..n + 1])
  }

  function Inserted(a: seq<Event>, n: nat, e: Event): (r: seq<Event>)
    requires n + 1 < |a|
    ensures |r| == |a|
  {
    SiftUp(a, n + 1, e)
  }

  function Dequeued(a: seq<Event>, n: nat): (r: seq<Event>)
    requires 1 <= n < |a|
    ensures |r| == |a|
  {
    SiftDown(a, n - 1, 1, a[n])
  }

  lemma ThreeParts(a: seq<Event>, n: nat)
    requires n < |a|
    ensures multiset(a) == multiset{a[0]} + Events(a, n) + multiset(a[n + 1..])
  {
    assert a == [a[0]] + a[1..n + 1] + a[n + 1..];
  }

  lemma Cancel(h: multiset<Event>, x: multiset<Event>, y: multiset<Event>, t: multiset<Event>)
    requires h + x + t == h + y + t
    ensures x == y
  {
    assert x == h + x + t - h - t;
    assert y == h + y + t - h - t;
  }

  lemma InnerMultiset(a: seq<Event>, b: seq<Event>, n: nat)
    requires |a| == |b| && n < |a|
    requires multiset(a) == multiset(b) && a[0] == b[0]
    requires forall k :: n < k < |a| ==> a[k] == b[k]
    ensures Events(a, n) == Events(b, n)
  {
    ThreeParts(a, n);
    ThreeParts(b, n);
    hide Events;
    assert a[n + 1..] == b[n + 1..];
    Cancel(multiset{a[0]}, Events(a, n), Events(b, n), multiset(a[n + 1..]));
  }

  lemma AddedAtEnd(a: seq<Event>, n: nat, e: Event)
    requires n + 1 < |a|
    ensures Events(a[n + 1 := e], n + 1) == Events(a, n) + multiset{e}
  {
    assert a[n + 1 := e][1..n + 2] == a[1..n + 1] + [e];
  }

  lemma LastToRoot(a: seq<Event>, n: nat)
    requires 2 <= n < |a|
    ensures Events(a[1 := a[n]], n - 1) + multiset{a[1]} == Events(a, n)
  {
    var inner := a[2..n];
    assert a[1 := a[n]][1..n] == [a[n]] + inner;
    assert a[1..n + 1] == [a[1]] + inner + [a[n]];
  }

  /** An insertion keeps the order by time, and the full order if the heap has it. */
  lemma InsertKeepsOrder(full: bool, a: seq<Event>, n: nat, e: Event)
    requires Ordered(full, a, n) && n + 1 < |a|
    ensures Ordered(full, Inserted(a, n, e), n + 1)
  {
    SiftUpOrders(full, a, n + 1, n + 1, e);
  }

  lemma InsertKeepsEvents(a: seq<Event>, n: nat, e: Event)
    requires n + 1 < |a|
    ensures Events(Inserted(a, n, e), n + 1) == Events(a, n) + multiset{e}
  {
    hide SiftUp, Events;
    SiftUpPermutes(a, n + 1, e);
    InnerMultiset(Inserted(a, n, e), a[n + 1 := e], n + 1);
    AddedAtEnd(a, n, e);
  }

  lemma DequeueKeepsOrder(a: seq<Event>, n: nat)
    requires Ordered(false, a, n) && 1 <= n
    ensures Ordered(false, Dequeued(a, n), n - 1)
  {
    if n > 1 { SiftDownOrders(a, n - 1, 1, a[n]); }
  }

  lemma DequeueKeepsEvents(a: seq<Event>, n: nat)
    requires 1 <= n < |a|
    ensures Events(Dequeued(a, n), n - 1) + multiset{a[1]} == Events(a, n)
  {
    hide SiftDown, Events;
    if n == 1 {
      OneEvent(a, Dequeued(a, n));
    } else {
      SiftDownPermutes(a, n - 1, 1, a[n]);
      InnerMultiset(Dequeued(a, n), a[1 := a[n]], n - 1);
      LastToRoot(a, n);
    }
  }

  lemma OneEvent(a: seq<Event>, r: seq<Event>)
    requires 1 < |a| == |r|
    ensures Events(r, 0) + multiset{a[1]} == Events(a, 1)
  {
    assert a[1..2] == [a[1]] && r[1..1] == [];
  }

  /** The event that leaves comes before all others: by time, and by time and priority as long as
      the full order holds. */
  lemma {:induction false} RootIsLeast(full: bool, a: seq<Event>, n: nat, k: nat)
    requires Ordered(full, a, n) && 1 <= k <= n
    ensures Rel(full, a[1], a[k])
  {
    if k > 1 { RootIsLeast(full, a, n, k / 2); }
  }

  /** A removal keeps the full order exactly when the ties on the way down are fair. */
  lemma FullOrderKeptIff(a: seq<Event>, n: nat)
    requires Ordered(true, a, n) && 1 <= n
    ensures Ordered(true, Dequeued(a, n), n - 1) <==> TiesFair(a, n - 1, 1, a[n])
  {
    if n > 1 {
      if TiesFair(a, n - 1, 1, a[n]) {
        FairKeepsFull(a, n - 1, 1, a[n]);
      } else {
        UnfairBreaksFull(a, n - 1, 1, a[n]);
      }
    }
  }

  /** The heap after inserting the first k of es, from a heap of n events. */
  function InsertedAll(a: seq<Event>, n: nat, es: seq<Event>, k: nat): (r: seq<Event>)
    requires k <= |es| && n + k < |a|
    ensures |r| == |a|
  {
    if k == 0 then a else Inserted(InsertedAll(a, n, es, k - 1), n + k - 1, es[k - 1])
  }

  /** x is more urgent than y: earlier, or at the same time with a higher priority. */
  predicate Urgent(x: Event, y: Event) {
    x.time < y.time || (x.time == y.time && x.priority > y.priority)
  }

  /** An event that is inserted pushes aside only less urgent ones, each one level down; behind equals it
      stays. */
  lemma {:induction false} PushesLessUrgent(a: seq<Event>, i: nat, e: Event, k: nat)
    requires 1 <= i < |a| && 1 <= k < |a|
    ensures var r := SiftUp(a, i, e);
            || (r[k] == a[k] && k != i)
            || (r[k] == e && (k == i || Urgent(e, a[k])))
            || (k > 1 && r[k] == a[k / 2] && Urgent(e, a[k / 2]))
    decreases i
  {
    if i == 1 || Before(a[i / 2], e) {
    } else {
      SiftUpPermutes(a[i := a[i / 2]], i / 2, e);
      PushesLessUrgent(a[i := a[i / 2]], i / 2, e, k);
    }
  }

  /** So the root is the new event exactly if it is more urgent than the root before. */
  lemma RootAfterInsert(a: seq<Event>, n: nat, e: Event)
    requires Ordered(true, a, n) && n + 1 < |a|
    ensures Inserted(a, n, e)[1] == if n == 0 || Urgent(e, a[1]) then e else a[1]
  {
    InsertKeepsOrder(true, a, n, e);
    PushesLessUrgent(a, n + 1, e, 1);
    var r := Inserted(a, n, e);
    if n > 0 && Urgent(e, a[1]) {
      var k := SiftedIsThere(a, n + 1, e);
      RootIsLeast(true, r, n + 1, k);
    }
  }

  lemma {:induction false} SiftedIsThere(a: seq<Event>, i: nat, e: Event) returns (k: nat)
    requires 1 <= i < |a|
    ensures 1 <= k <= i && SiftUp(a, i, e)[k] == e
    decreases i
  {
    k := i;
    if i != 1 && !Before(a[i / 2], e) {
      k := SiftedIsThere(a[i := a[i / 2]], i / 2, e);
    }
  }

  /** After a removal the root is the left child of the old one if it is strictly earlier than the right
      one, else the right one; unless the last event is more urgent than that. */
  lemma RootAfterRemoval(a: seq<Event>, n: nat)
    requires 4 <= n < |a|
    ensures var child := if a[2].time < a[3].time then a[2] else a[3];
            Dequeued(a, n)[1] == if Urgent(a[n], child) then a[n] else child
  {
    var last, c := a[n], Child(a, n - 1, 1);
    if !Rests(last, a[c]) { SiftDownPermutes(a[1 := a[c]], n - 1, c, last); }
  }

  /** Insertions alone keep the full order, so the next event to leave is the earliest and, among
      the earliest, one of the highest priority. */
  lemma {:induction false} InsertsKeepFullOrder(a: seq<Event>, n: nat, es: seq<Event>, k: nat)
    requires Ordered(true, a, n) && k <= |es| && n + k < |a|
    ensures Ordered(true, InsertedAll(a, n, es, k), n + k)
    ensures forall j :: 1 <= j <= n + k ==> Before(InsertedAll(a, n, es, k)[1], InsertedAll(a, n, es, k)[j])
  {
    if k != 0 {
      InsertsKeepFullOrder(a, n, es, k - 1);
      InsertKeepsOrder(true, InsertedAll(a, n, es, k - 1), n + k - 1, es[k - 1]);
    }
    forall j | 1 <= j <= n + k ensures Before(InsertedAll(a, n, es, k)[1], InsertedAll(a, n, es, k)[j]) {
      RootIsLeast(true, InsertedAll(a, n, es, k), n + k, j);
    }
  }

  /** The full order is lost on a heap that the program builds: of four events inserted one after the
      other, two are due at time 2, and after one removal the one of priority 1 leaves before the one
      of priority 5. */
  lemma TieLosesPriority()
    ensures exists a: seq<Event>, es: seq<Event> ::
              && |a| > |es| + 1 && |es| == 4
              && var b := Dequeued(InsertedAll(a, 0, es, 4), 4);
                 && !Ordered(true, b, 3)
                 && b[1].time == b[2].time && b[1].priority < b[2].priority
  {
    var first, high := Event(0, 1, 0, 0, false), Event(1, 2, 0, 5, false);
    var low, late := Event(2, 2, 0, 1, false), Event(3, 3, 0, 0, false);
    var a, es := [first, first, first, first, first, first], [first, high, low, late];
    assert InsertedAll(a, 0, es, 1) == a;
    assert InsertedAll(a, 0, es, 2) == a[2 := high];
    assert InsertedAll(a, 0, es, 3) == a[2 := high][3 := low];
    var full := a[2 := high][3 := low][4 := late];
    assert InsertedAll(a, 0, es, 4) == full;
    var b := full[1 := low];
    assert SiftDown(b, 3, 3, late) == b[3 := late];
    assert Dequeued(full, 4) == b[3 := late];
    assert !Rel(true, b[3 := late][2 / 2], b[3 := late][2]);
  }
}

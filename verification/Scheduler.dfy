/** The event heap as an object, and the scheduler's run over the heap and the timer list. */
module Scheduler {
  import opened Common
  import opened Heap

  /** insertEvent's answers: -1, the two exits, 0 and 1. */
  datatype Answer = Null | Full | Past | BeyondLimit | Done

  const TWO_64: nat := 0x1_0000_0000_0000_0000

  /** A limit of 0 is no limit. */
  function Admit(capacity: nat, n: nat, e: Event, now: nat, limit: nat): Answer {
    if n + 1 >= capacity then Full
    else if e.time < now then Past
    else if limit > 0 && e.time > limit then BeyondLimit
    else Done
  }

  class HeapObject {
    var eventHeap: array<Event>
    var numEvent: nat
    var numInsertEvent: nat
    var numDequeueEvent: nat

    ghost predicate Valid()
      reads this, eventHeap
    {
      Ordered(false, eventHeap[..], numEvent)
    }

    constructor (maxEvent: nat)
      requires maxEvent > 0
      ensures Valid() && fresh(eventHeap) && eventHeap.Length == maxEvent
      ensures numEvent == numInsertEvent == numDequeueEvent == 0
    {
      eventHeap := new Event[maxEvent];
      numEvent, numInsertEvent, numDequeueEvent := 0, 0, 0;
    }

    method InsertEvent(ep: Option<Event>, now: nat, limit: nat) returns (r: Answer)
      requires Valid()
      modifies this, eventHeap
      ensures Valid() && eventHeap == old(eventHeap) && numDequeueEvent == old(numDequeueEvent)
      ensures r == if ep.None? then Null else Admit(eventHeap.Length, old(numEvent), ep.value, now, limit)
      ensures r == Done ==>
                && eventHeap[..] == Inserted(old(eventHeap[..]), old(numEvent), ep.value)
                && numEvent == old(numEvent) + 1
                && numInsertEvent == (old(numInsertEvent) + 1) % TWO_64
      ensures r != Done ==>
                && eventHeap[..] == old(eventHeap[..]) && numEvent == old(numEvent)
                && numInsertEvent == old(numInsertEvent)
    {
      if ep.None? {
        return Null;
      }
      var e := ep.value;
      if numEvent >= eventHeap.Length - 1 {
        return Full;
      }
      if e.time < now {
        return Past;
      }
      if limit > 0 && e.time > limit {
        return BeyondLimit;
      }
      InsertKeepsOrder(false, eventHeap[..], numEvent, e);
      ghost var want := Inserted(eventHeap[..], numEvent, e);
      numEvent := numEvent + 1;
      numInsertEvent := (numInsertEvent + 1) % TWO_64;
      SiftUpFrom(numEvent, e, want);
      return Done;
    }

    method SiftUpFrom(start: nat, e: Event, ghost want: seq<Event>)
      requires 1 <= start < eventHeap.Length && want == SiftUp(eventHeap[..], start, e)
      modifies eventHeap
      ensures eventHeap[..] == want
    {
      var a := eventHeap;
      var i, notDone := start, true;
      while notDone
        invariant 1 <= i < a.Length
        invariant notDone ==> SiftUp(a[..], i, e) == want
        invariant !notDone ==> a[..][i := e] == want
        decreases i, notDone
      {
        ghost var before := a[..];
        if i == 1 {
          notDone := false;
        } else {
          var p := a[i / 2];
          if e.time > p.time {
            notDone := false;
          } else if e.time == p.time && e.priority <= p.priority {
            notDone := false;
          } else if e.time == p.time && e.priority > p.priority {
            a[i] := p;
            assert a[..] == before[i := p];
            i := i / 2;
          } else {
            a[i] := p;
            assert a[..] == before[i := p];
            i := i / 2;
          }
        }
      }
      ghost var before := a[..];
      a[i] := e;
      assert a[..] == before[i := e];
    }

    method DequeueEvent() returns (ep: Option<Event>)
      requires Valid()
      modifies this, eventHeap
      ensures Valid() && eventHeap == old(eventHeap) && numInsertEvent == old(numInsertEvent)
      ensures old(numEvent) == 0 ==>
                && ep == None && eventHeap[..] == old(eventHeap[..]) && numEvent == 0
                && numDequeueEvent == old(numDequeueEvent)
      ensures old(numEvent) > 0 ==>
                && ep == Some(old(eventHeap[1]))
                && eventHeap[..] == Dequeued(old(eventHeap[..]), old(numEvent))
                && numEvent == old(numEvent) - 1
                && numDequeueEvent == (old(numDequeueEvent) + 1) % TWO_64
      ensures old(numEvent) > 0 ==>
                && Events(eventHeap[..], numEvent) + multiset{ep.value} == old(Events(eventHeap[..], numEvent))
                && forall e :: e in Events(eventHeap[..], numEvent) ==> ep.value.time <= e.time
    {
      hide Dequeued, Events;
      if numEvent == 0 {
        return None;
      }
      DequeueKeepsOrder(eventHeap[..], numEvent);
      DequeueKeepsEvents(eventHeap[..], numEvent);
      LeastOfAll(eventHeap[..], numEvent);
      DequeuedIs(eventHeap[..], numEvent);
      var last := eventHeap[numEvent];
      ghost var want := Dequeued(eventHeap[..], numEvent);
      ep := Some(eventHeap[1]);
      numEvent := numEvent - 1;
      numDequeueEvent := (numDequeueEvent + 1) % TWO_64;
      SiftDownFrom(last, want);
    }

    method SiftDownFrom(last: Event, ghost want: seq<Event>)
      requires 1 < eventHeap.Length && numEvent < eventHeap.Length
      requires want == SiftDown(eventHeap[..], numEvent, 1, last)
      modifies eventHeap
      ensures eventHeap[..] == want
    {
      var a := eventHeap;
      var i, j, notDone := 1, 2, true;
      while j <= numEvent && notDone
        invariant 1 <= i < a.Length && j >= 0 && (notDone ==> j == 2 * i)
        invariant notDone ==> SiftDown(a[..], numEvent, i, last) == want
        invariant !notDone ==> a[..][i := last] == want
        decreases numEvent - i, notDone
      {
        if j < numEvent {
          var left, right := a[j], a[j + 1];
          if left.time >= right.time {
            j := j + 1;
          } else if left.time == right.time && left.priority < right.priority {
            j := j + 1;
          }
        }
        assert j == Child(a[..], numEvent, i);
        if last.time < a[j].time {
          notDone := false;
        } else if last.time == a[j].time && last.priority > a[j].priority {
          notDone := false;
        } else {
          ghost var before := a[..];
          a[i] := a[j];
          assert a[..] == before[i := before[j]];
          i := j;
          j := 2 * i;
        }
      }
      ghost var before := a[..];
      a[i] := last;
      assert a[..] == before[i := last];
    }
  }

  lemma DequeuedIs(a: seq<Event>, n: nat)
    requires 1 <= n < |a|
    ensures Dequeued(a, n) == SiftDown(a, n - 1, 1, a[n])
  {
  }

  lemma LeastOfAll(a: seq<Event>, n: nat)
    requires Ordered(false, a, n) && 1 <= n
    ensures forall e :: e in Events(a, n) ==> a[1].time <= e.time
  {
    forall e | e in Events(a, n) ensures a[1].time <= e.time {
      assert e in a[1..n + 1];
      var k :| 0 <= k < n && a[1..n + 1][k] == e;
      RootIsLeast(false, a, n, k + 1);
    }
  }
}

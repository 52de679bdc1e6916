/** The bounded, priority-ordered queue of a module binder, on values: the specification of
    class MBinder and the queues of the module pipeline. */
module MbQueue {
  import opened Common

  /** A packet event: its identity and its level, the two most significant bits of its
      priority byte (0x00, 0x40, 0x80 or 0xc0). Nothing below depends on the range. */
  datatype Packet = Packet(id: nat, level: nat)

  /** The first place, from i on, whose packet has a lower level than x. */
  function SpotFrom(q: seq<Packet>, x: Packet, i: nat): (n: nat)
    requires i <= |q|
    ensures i <= n <= |q|
    decreases |q| - i
  {
    if i == |q| || q[i].level < x.level then i else SpotFrom(q, x, i + 1)
  }

  function Insert(q: seq<Packet>, x: Packet): seq<Packet> {
    var n := SpotFrom(q, x, 0);
    q[..n] + [x] + q[n..]
  }

  /** The last of the packets of lowest level among the first n. */
  function VictimOf(q: seq<Packet>, n: nat): (v: nat)
    requires 0 < n <= |q|
    ensures v < n
  {
    if n == 1 then 0
    else
      var v := VictimOf(q, n - 1);
      if q[n - 1].level <= q[v].level then n - 1 else v
  }

  function Victim(q: seq<Packet>): (v: nat)
    requires q != []
    ensures v < |q|
  {
    VictimOf(q, |q|)
  }

  function RemoveAt(q: seq<Packet>, i: nat): seq<Packet>
    requires i < |q|
  {
    q[..i] + q[i + 1..]
  }

  /** One arrival at a queue of capacity k: the new queue and the packet handed back. */
  function Arrive(q: seq<Packet>, k: int, x: Packet): (r: (seq<Packet>, Option<Packet>))
    requires |q| < k || q != []
    ensures |r.0| == if |q| < k then |q| + 1 else |q|
    ensures r.1.None? <==> |q| < k
  {
    if |q| < k then
      (Insert(q, x), None)
    else
      var v := Victim(q);
      if x.level <= q[v].level then (q, Some(x))
      else (Insert(RemoveAt(q, v), x), Some(q[v]))
  }

  ghost predicate Descending(q: seq<Packet>) {
    forall i, j :: 0 <= i < j < |q| ==> q[i].level >= q[j].level
  }

  /** The packets of level l among the first n of q. */
  function AtLevel(q: seq<Packet>, n: nat, l: nat): seq<Packet>
    requires n <= |q|
  {
    if n == 0 then []
    else if q[n - 1].level == l then AtLevel(q, n - 1, l) + [q[n - 1]]
    else AtLevel(q, n - 1, l)
  }

  /** s is q in descending level, packets of one level in their order of arrival. */
  ghost predicate IsStableSort(q: seq<Packet>, s: seq<Packet>) {
    && |s| == |q|
    && Descending(s)
    && multiset(s) == multiset(q)
    && forall l: nat :: AtLevel(s, |s|, l) == AtLevel(q, |q|, l)
  }

  /** Sorting the first n packets by repeated stable insertion. */
  function Sorted(xs: seq<Packet>, n: nat): (s: seq<Packet>)
    requires n <= |xs|
    ensures |s| == n
  {
    if n == 0 then [] else Insert(Sorted(xs, n - 1), xs[n - 1])
  }

  function Returned(out: Option<Packet>): seq<Packet> {
    if out.Some? then [out.value] else []
  }

  datatype Run = Run(queue: seq<Packet>, returned: seq<Packet>, drops: nat)

  /** The history of a binder of capacity k: n arrivals in order, from the empty queue. */
  function Arrivals(xs: seq<Packet>, n: nat, k: int): (r: Run)
    requires n <= |xs| && k >= 1
    ensures |r.queue| == Min(n, k)
  {
    if n == 0 then Run([], [], 0)
    else
      var r := Arrivals(xs, n - 1, k);
      var (q, out) := Arrive(r.queue, k, xs[n - 1]);
      Run(q, r.returned + Returned(out), r.drops + (if |r.queue| < k then 0 else 1))
  }

  // ---------- Insertion ----------

  lemma {:induction false} SpotBounds(q: seq<Packet>, x: Packet, i: nat)
    requires i <= |q|
    ensures var n := SpotFrom(q, x, i);
            && (forall j :: i <= j < n ==> q[j].level >= x.level)
            && (n < |q| ==> q[n].level < x.level)
    decreases |q| - i
  {
    if i < |q| && q[i].level >= x.level { SpotBounds(q, x, i + 1); }
  }

  lemma {:induction false} VictimIsLowest(q: seq<Packet>, n: nat)
    requires 0 < n <= |q|
    ensures var v := VictimOf(q, n);
            && (forall i :: 0 <= i < n ==> q[v].level <= q[i].level)
            && (forall i :: v < i < n ==> q[v].level < q[i].level)
  {
    if n > 1 { VictimIsLowest(q, n - 1); }
  }

  lemma InsertDescends(q: seq<Packet>, x: Packet)
    requires Descending(q)
    ensures Descending(Insert(q, x))
  {
    SpotBounds(q, x, 0);
  }

  lemma InsertAdds(q: seq<Packet>, x: Packet)
    ensures multiset(Insert(q, x)) == multiset(q) + multiset{x}
  {
    var n := SpotFrom(q, x, 0);
    assert q == q[..n] + q[n..];
  }

  lemma {:induction false} AtLevelPrefix(a: seq<Packet>, b: seq<Packet>, n: nat, l: nat)
    requires n <= |a| && n <= |b| && a[..n] == b[..n]
    ensures AtLevel(a, n, l) == AtLevel(b, n, l)
  {
    if n != 0 {
      assert a[n - 1] == a[..n][n - 1] == b[..n][n - 1];
      assert a[..n - 1] == a[..n][..n - 1] == b[..n - 1];
      AtLevelPrefix(a, b, n - 1, l);
    }
  }

  /** Inserting x moves nothing of another level and puts x behind its own. */
  lemma {:induction false} InsertAtLevel(q: seq<Packet>, x: Packet, m: nat, l: nat)
    requires Descending(q) && SpotFrom(q, x, 0) <= m <= |q|
    ensures AtLevel(Insert(q, x), m + 1, l)
            == if x.level == l then AtLevel(q, m, l) + [x] else AtLevel(q, m, l)
  {
    var n := SpotFrom(q, x, 0);
    SpotBounds(q, x, 0);
    if m == n {
      AtLevelPrefix(Insert(q, x), q, n, l);
    } else {
      InsertAtLevel(q, x, m - 1, l);
      assert Insert(q, x)[m] == q[m - 1];
      assert q[m - 1].level < x.level;
    }
  }

  lemma PrefixAdds(xs: seq<Packet>, n: nat)
    requires 0 < n <= |xs|
    ensures multiset(xs[..n]) == multiset(xs[..n - 1]) + multiset{xs[n - 1]}
  {
    assert xs[..n] == xs[..n - 1] + [xs[n - 1]];
  }

  lemma {:induction false} SortedDescends(xs: seq<Packet>, n: nat)
    requires n <= |xs|
    ensures Descending(Sorted(xs, n)) && multiset(Sorted(xs, n)) == multiset(xs[..n])
  {
    if n != 0 {
      hide Insert, Descending;
      SortedDescends(xs, n - 1);
      InsertDescends(Sorted(xs, n - 1), xs[n - 1]);
      InsertAdds(Sorted(xs, n - 1), xs[n - 1]);
      PrefixAdds(xs, n);
    }
  }

  lemma AtLevelNext(q: seq<Packet>, n: nat, l: nat)
    requires n < |q|
    ensures AtLevel(q, 0, l) == []
    ensures AtLevel(q, n + 1, l) == if q[n].level == l then AtLevel(q, n, l) + [q[n]] else AtLevel(q, n, l)
  {
  }

  lemma {:induction false} SortedKeepsOrder(xs: seq<Packet>, n: nat, l: nat)
    requires n <= |xs|
    ensures AtLevel(Sorted(xs, n), n, l) == AtLevel(xs, n, l)
  {
    if n != 0 {
      hide Insert, Descending, SpotFrom, AtLevel;
      SortedKeepsOrder(xs, n - 1, l);
      SortedDescends(xs, n - 1);
      InsertAtLevel(Sorted(xs, n - 1), xs[n - 1], n - 1, l);
      AtLevelNext(xs, n - 1, l);
    }
  }

  /** Every list has a stable sort. */
  lemma SortedIsStable(xs: seq<Packet>)
    ensures IsStableSort(xs, Sorted(xs, |xs|))
  {
    var n := |xs|;
    SortedDescends(xs, n);
    assert xs[..n] == xs;
    forall l: nat ensures AtLevel(Sorted(xs, n), n, l) == AtLevel(xs, n, l) {
      SortedKeepsOrder(xs, n, l);
    }
  }

  // ---------- The stable sort is unique ----------

  lemma {:induction false} AtLevelNone(s: seq<Packet>, n: nat, l: nat)
    requires n <= |s| && forall i :: 0 <= i < n ==> s[i].level != l
    ensures AtLevel(s, n, l) == []
  {
    if n != 0 { AtLevelNone(s, n - 1, l); }
  }

  lemma LowestIsLast(s: seq<Packet>, t: seq<Packet>, n: nat, m: nat)
    requires 0 < n <= |s| && 0 < m <= |t| && Descending(s)
    requires forall l: nat :: AtLevel(s, n, l) == AtLevel(t, m, l)
    ensures s[n - 1].level <= t[m - 1].level
  {
    var l := t[m - 1].level;
    assert AtLevel(s, n, l) == AtLevel(t, m, l);
    if l < s[n - 1].level {
      AtLevelNone(s, n, l);
    }
  }

  lemma LastCancels(a: seq<Packet>, x: Packet, b: seq<Packet>, y: Packet)
    requires a + [x] == b + [y]
    ensures a == b && x == y
  {
    assert |a + [x]| == |b + [y]|;
    assert a == (a + [x])[..|a|] && b == (b + [y])[..|b|];
    assert x == (a + [x])[|a|] && y == (b + [y])[|b|];
  }

  /** A list has one stable sort only, so the reference definition fixes the queue. */
  lemma {:induction false} StableSortUnique(s: seq<Packet>, t: seq<Packet>, n: nat)
    requires n <= |s| && n <= |t| && Descending(s) && Descending(t)
    requires forall l: nat :: AtLevel(s, n, l) == AtLevel(t, n, l)
    ensures s[..n] == t[..n]
  {
    if n != 0 {
      LowestIsLast(s, t, n, n);
      LowestIsLast(t, s, n, n);
      var x, y := s[n - 1], t[n - 1];
      assert AtLevel(s, n, x.level) == AtLevel(t, n, x.level);
      var m := n - 1;
      LastCancels(AtLevel(s, m, x.level), x, AtLevel(t, m, x.level), y);
      forall l: nat ensures AtLevel(s, m, l) == AtLevel(t, m, l) {
        assert AtLevel(s, n, l) == AtLevel(t, n, l);
      }
      StableSortUnique(s, t, m);
      assert s[..n] == s[..n - 1] + [x] && t[..n] == t[..n - 1] + [y];
    }
  }

  // ---------- Arrival at a full queue ----------

  lemma VictimOfDescending(q: seq<Packet>)
    requires Descending(q)
    ensures q != [] ==> Victim(q) == |q| - 1
  {
    if q != [] { VictimIsLowest(q, |q|); }
  }

  lemma ArriveDescends(q: seq<Packet>, k: int, x: Packet)
    requires |q| < k || q != []
    requires Descending(q)
    ensures Descending(Arrive(q, k, x).0)
  {
    if |q| < k {
      InsertDescends(q, x);
    } else {
      VictimOfDescending(q);
      InsertDescends(RemoveAt(q, Victim(q)), x);
    }
  }

  /** The place of x does not depend on what lies behind the first k packets. */
  lemma SpotInPrefix(s: seq<Packet>, k: nat, x: Packet)
    requires k <= |s|
    ensures SpotFrom(s[..k], x, 0) == Min(SpotFrom(s, x, 0), k)
  {
    var p := s[..k];
    SpotBounds(s, x, 0);
    SpotBounds(p, x, 0);
    assert forall i :: 0 <= i < k ==> p[i] == s[i];
  }

  lemma LowestRefused(q: seq<Packet>, x: Packet)
    requires q != [] && Descending(q) && x.level <= q[|q| - 1].level
    ensures Insert(q, x) == q + [x]
  {
    SpotBounds(q, x, 0);
  }

  lemma LastEvicted(q: seq<Packet>, x: Packet)
    requires q != [] && Descending(q) && x.level > q[|q| - 1].level
    ensures Insert(q, x) == Insert(q[..|q| - 1], x) + [q[|q| - 1]]
  {
    SpotBounds(q, x, 0);
    SpotInPrefix(q, |q| - 1, x);
    var n := SpotFrom(q, x, 0);
    assert q[n..] == q[n..|q| - 1] + [q[|q| - 1]];
  }

  /** In a full queue the packet that falls off is the last one after a stable insertion. */
  lemma FullArrival(q: seq<Packet>, k: int, x: Packet)
    requires |q| == k >= 1 && Descending(q)
    ensures |Insert(q, x)| == k + 1
    ensures Arrive(q, k, x).0 == Insert(q, x)[..k]
    ensures Arrive(q, k, x).1 == Some(Insert(q, x)[k])
  {
    VictimOfDescending(q);
    assert RemoveAt(q, k - 1) == q[..k - 1];
    hide Descending, Victim, RemoveAt;
    if x.level <= q[k - 1].level {
      LowestRefused(q, x);
    } else {
      LastEvicted(q, x);
    }
  }

  /** One more packet, and whether it takes the place of the victim so far. */
  lemma VictimNext(q: seq<Packet>, n: nat)
    requires 0 < n < |q|
    ensures VictimOf(q, 1) == 0
    ensures VictimOf(q, n + 1) == if q[n].level <= q[VictimOf(q, n)].level then n else VictimOf(q, n)
  {
  }

  /** Truncating before the insertion loses nothing of the first k. */
  lemma InsertTruncates(s: seq<Packet>, k: nat, x: Packet)
    requires k <= |s| && Descending(s)
    ensures Insert(s[..k], x)[..k] == Insert(s, x)[..k]
  {
    SpotInPrefix(s, k, x);
    var n := SpotFrom(s, x, 0);
    if n >= k {
      assert Insert(s[..k], x) == s[..k] + [x];
      assert Insert(s, x)[..k] == s[..k];
    } else {
      assert Insert(s[..k], x) == s[..n] + [x] + s[n..k];
      assert s[n..] == s[n..k] + s[k..];
    }
  }

  lemma ArrivalKeepsTruncation(s: seq<Packet>, q: seq<Packet>, k: int, x: Packet)
    requires k >= 1 && Descending(s)
    requires q == s[..Min(|s|, k)]
    ensures Arrive(q, k, x).0 == Insert(s, x)[..Min(|s| + 1, k)]
  {
    if |s| < k {
      assert q == s;
    } else {
      FullArrival(q, k, x);
      InsertTruncates(s, k, x);
    }
  }

  lemma RemoveAtTakes(q: seq<Packet>, i: nat)
    requires i < |q|
    ensures multiset(RemoveAt(q, i)) + multiset{q[i]} == multiset(q)
  {
    assert q == q[..i] + [q[i]] + q[i + 1..];
  }

  lemma ArrivalKeepsPackets(q: seq<Packet>, k: int, x: Packet)
    requires |q| < k || q != []
    ensures multiset(q) + multiset{x} == multiset(Arrive(q, k, x).0) + multiset(Returned(Arrive(q, k, x).1))
  {
    if |q| < k {
      InsertAdds(q, x);
    } else {
      var v := Victim(q);
      RemoveAtTakes(q, v);
      InsertAdds(RemoveAt(q, v), x);
    }
  }

  ghost function Bag(xs: seq<Packet>, n: nat): multiset<Packet>
    requires n <= |xs|
  {
    if n == 0 then multiset{} else Bag(xs, n - 1) + multiset{xs[n - 1]}
  }

  lemma {:induction false} BagIsMultiset(xs: seq<Packet>, n: nat)
    requires n <= |xs|
    ensures Bag(xs, n) == multiset(xs[..n])
  {
    if n != 0 {
      BagIsMultiset(xs, n - 1);
      assert xs[..n] == xs[..n - 1] + [xs[n - 1]];
    }
  }

  lemma ArrivalKeepsAll(all: multiset<Packet>, q: seq<Packet>, out: seq<Packet>, k: int, x: Packet)
    requires |q| < k || q != []
    requires all == multiset(q) + multiset(out)
    ensures all + multiset{x} == multiset(Arrive(q, k, x).0) + multiset(out + Returned(Arrive(q, k, x).1))
  {
    ArrivalKeepsPackets(q, k, x);
    assert all + multiset{x} == (multiset(q) + multiset{x}) + multiset(out);
  }

  lemma {:induction false} ArrivalsKeepPackets(xs: seq<Packet>, n: nat, k: int)
    requires n <= |xs| && k >= 1
    ensures Bag(xs, n) == multiset(Arrivals(xs, n, k).queue) + multiset(Arrivals(xs, n, k).returned)
  {
    hide Arrive, Returned;
    if n != 0 {
      ArrivalsKeepPackets(xs, n - 1, k);
      var r := Arrivals(xs, n - 1, k);
      ArrivalKeepsAll(Bag(xs, n - 1), r.queue, r.returned, k, xs[n - 1]);
    }
  }

  lemma {:induction false} ArrivalsDrop(xs: seq<Packet>, n: nat, k: int)
    requires n <= |xs| && k >= 1
    ensures Arrivals(xs, n, k).drops == |Arrivals(xs, n, k).returned| == n - Min(n, k)
  {
    hide Arrive;
    if n != 0 {
      ArrivalsDrop(xs, n - 1, k);
    }
  }

  lemma {:induction false} ArrivalsTruncate(xs: seq<Packet>, n: nat, k: int)
    requires n <= |xs| && k >= 1
    ensures Arrivals(xs, n, k).queue == Sorted(xs, n)[..Min(n, k)]
  {
    hide Arrive, Insert;
    if n != 0 {
      ArrivalsTruncate(xs, n - 1, k);
      SortedDescends(xs, n - 1);
      ArrivalKeepsTruncation(Sorted(xs, n - 1), Arrivals(xs, n - 1, k).queue, k, xs[n - 1]);
    }
  }

  /** The binder after any arrivals: the first k of their stable sort; every full call counts
      one drop and hands back one packet, and no packet is lost or invented. */
  lemma QueueIsTruncatedStableSort(xs: seq<Packet>, s: seq<Packet>, k: int)
    requires k >= 1 && IsStableSort(xs, s)
    ensures Arrivals(xs, |xs|, k).queue == s[..Min(|xs|, k)]
    ensures Arrivals(xs, |xs|, k).drops == |Arrivals(xs, |xs|, k).returned| == |xs| - Min(|xs|, k)
    ensures multiset(xs) == multiset(Arrivals(xs, |xs|, k).queue) + multiset(Arrivals(xs, |xs|, k).returned)
  {
    var n := |xs|;
    assert xs[..n] == xs && s[..n] == s && Sorted(xs, n)[..n] == Sorted(xs, n);
    SortedIsStable(xs);
    StableSortUnique(s, Sorted(xs, n), n);
    ArrivalsTruncate(xs, n, k);
    ArrivalsKeepPackets(xs, n, k);
    BagIsMultiset(xs, n);
    ArrivalsDrop(xs, n, k);
  }
}

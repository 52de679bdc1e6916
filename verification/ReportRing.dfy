/** Which sources the report blocks of an SR or RR cover: the session walks round a circular list
    and goes on next time where it stopped. */
module ReportRing {
  import opened Common

  const MAX_BLOCKS := 31
  const BLOCK := 24

  // The answers of build_sr and build_rr.
  const OK := 0
  const BUFFER_NOT_ENOUGH := 27
  const BUFFER_NOT_ENOUGH_LENGTH := -35
  const TOO_MANY_REPORT_BLOCK := -36

  /** i places further round a ring of n. */
  function Turn(n: nat, p: nat, i: nat): (r: nat)
    requires p < n && i <= n
    ensures r < n
  {
    if p + i < n then p + i else p + i - n
  }

  /** The places from p until the walk meets stop again; a whole turn if it starts there. */
  function Distance(n: nat, p: nat, stop: nat): (d: nat)
    requires p < n && stop < n
    ensures 1 <= d <= n
  {
    if stop > p then stop - p else stop - p + n
  }

  function Ahead(ring: seq<nat>, p: nat, d: nat): (s: seq<nat>)
    requires p < |ring| && d <= |ring|
    ensures |s| == d
  {
    seq(d, i requires 0 <= i < d => ring[Turn(|ring|, p, i)])
  }

  /** The sources among the first v of s, without our own. */
  function Others(s: seq<nat>, own: nat, v: nat): (r: seq<nat>)
    requires v <= |s|
    ensures |r| <= v
  {
    if v == 0 then []
    else if s[v - 1] == own then Others(s, own, v - 1)
    else Others(s, own, v - 1) + [s[v - 1]]
  }

  /** The loop of build_sr and build_rr over the places s ahead, v of them visited: how many it has
      visited when it stops. room is what is left of the buffer behind the fixed part. */
  function Stop(s: seq<nat>, own: nat, room: int, v: nat): (r: nat)
    requires 1 <= v <= |s|
    ensures v <= r <= |s|
    decreases |s| - v
  {
    var index := |Others(s, own, v)|;
    if index < MAX_BLOCKS && room - BLOCK * index >= BLOCK && v < |s| then Stop(s, own, room, v + 1) else v
  }

  /** One call: the blocks, and the room left. */
  function Blocks(ring: seq<nat>, own: nat, p: nat, stop: nat, room: int): seq<nat>
    requires p < |ring| && stop < |ring|
  {
    var s := Ahead(ring, p, Distance(|ring|, p, stop));
    Others(s, own, Stop(s, own, room, 1))
  }

  function NextPlace(ring: seq<nat>, own: nat, p: nat, stop: nat, room: int): (q: nat)
    requires p < |ring| && stop < |ring|
    ensures q < |ring|
  {
    var s := Ahead(ring, p, Distance(|ring|, p, stop));
    Turn(|ring|, p, Stop(s, own, room, 1))
  }

  /** One round of the loop. */
  lemma StopStep(s: seq<nat>, own: nat, room: int, v: nat)
    requires 1 <= v <= |s|
    ensures Stop(s, own, room, v)
            == if |Others(s, own, v)| < MAX_BLOCKS && room - BLOCK * |Others(s, own, v)| >= BLOCK && v < |s|
               then Stop(s, own, room, v + 1) else v
  {
  }

  lemma OthersNext(s: seq<nat>, own: nat, v: nat)
    requires v < |s|
    ensures Others(s, own, 0) == []
    ensures Others(s, own, v + 1) == if s[v] == own then Others(s, own, v) else Others(s, own, v) + [s[v]]
  {
  }

  lemma TurnNone(n: nat, p: nat)
    requires p < n
    ensures Turn(n, p, 0) == p
  {
  }

  /** One place further, and whether the walk has come to stop. */
  lemma TurnStep(n: nat, p: nat, stop: nat, v: nat)
    requires p < n && stop < n && v < Distance(n, p, stop)
    ensures Turn(n, p, v + 1) == if Turn(n, p, v) + 1 < n then Turn(n, p, v) + 1 else 0
    ensures Turn(n, p, v + 1) == stop <==> v + 1 == Distance(n, p, stop)
  {
  }

  class ReportList {
    /** The list from some fixed entry on, and the entry the session points at. */
    var ring: seq<nat>
    var at: nat

    ghost predicate Valid()
      reads this
    {
      && (ring != [] ==> at < |ring|)
      && forall i, j :: 0 <= i < j < |ring| ==> ring[i] != ring[j]
    }

    constructor (ring: seq<nat>)
      requires forall i, j :: 0 <= i < j < |ring| ==> ring[i] != ring[j]
      ensures Valid() && this.ring == ring && at == 0
    {
      this.ring, at := ring, 0;
    }

    /** The loop that build_sr and build_rr share. */
    method Collect(own: nat, original: nat, room: int) returns (blocks: seq<nat>, left: int)
      requires Valid() && ring != [] && original < |ring|
      modifies this`at
      ensures blocks == Blocks(ring, own, old(at), original, room)
      ensures at == NextPlace(ring, own, old(at), original, room)
      ensures left == room - BLOCK * |blocks|
    {
      hide Turn, Distance, Stop, Others;
      ghost var p := at;
      ghost var d := Distance(|ring|, p, original);
      TurnNone(|ring|, p);
      ghost var s := Ahead(ring, p, d);
      OthersNext(s, own, 0);
      blocks, left := [], room;
      var rb := at;
      ghost var v := 0;
      var more := true;
      while more
        invariant v <= d && (more ==> v < d) && rb == Turn(|ring|, p, v)
        invariant blocks == Others(s, own, v) && left == room - BLOCK * |blocks|
        invariant more ==> Stop(s, own, room, v + 1) == Stop(s, own, room, 1)
        invariant !more ==> v >= 1 && v == Stop(s, own, room, 1)
        decreases d - v, more
      {
        TurnStep(|ring|, p, original, v);
        OthersNext(s, own, v);
        StopStep(s, own, room, v + 1);
        assert ring[rb] == s[v];
        if ring[rb] != own {
          blocks, left := blocks + [ring[rb]], left - BLOCK;
        }
        rb := if rb + 1 < |ring| then rb + 1 else 0;
        v := v + 1;
        more := |blocks| < MAX_BLOCKS && left >= BLOCK && rb != original;
      }
      at := rb;
    }

    /** build_sr and build_rr: the fixed part is 28 or 8 bytes; a sender report asks for one block's
        room beyond it, a receiver report does not. */
    method Build(sender: bool, own: nat, original: nat, remainder: int)
      returns (err: int, blocks: seq<nat>, left: int)
      requires Valid() && (ring != [] ==> original < |ring|)
      modifies this`at
      ensures Valid()
      ensures err == BUFFER_NOT_ENOUGH <==> remainder < (if sender then 52 else 8)
      ensures err == BUFFER_NOT_ENOUGH ==> blocks == [] && left == remainder && at == old(at)
      ensures err != BUFFER_NOT_ENOUGH ==>
                var room := remainder - (if sender then 28 else 8);
                && left == room - BLOCK * |blocks|
                && (ring == [] ==> blocks == [] && at == old(at))
                && (ring != [] ==>
                      && blocks == Blocks(ring, own, old(at), original, room)
                      && at == NextPlace(ring, own, old(at), original, room))
                && err == if left < BLOCK then BUFFER_NOT_ENOUGH_LENGTH
                          else if |blocks| >= MAX_BLOCKS then TOO_MANY_REPORT_BLOCK else OK
    {
      blocks, left := [], remainder;
      if left < (if sender then 52 else 8) {
        return BUFFER_NOT_ENOUGH, [], remainder;
      }
      left := left - (if sender then 28 else 8);
      if ring != [] {
        blocks, left := Collect(own, original, left);
      }
      err := if left < BLOCK then BUFFER_NOT_ENOUGH_LENGTH
             else if |blocks| >= MAX_BLOCKS then TOO_MANY_REPORT_BLOCK else OK;
    }
  }

  // ---------- One packet ----------

  /** Going on after v places is working through the rest of the list ahead. */
  lemma {:induction false} OthersGoOn(s: seq<nat>, own: nat, v: nat, w: nat)
    requires v + w <= |s|
    ensures Others(s, own, v + w) == Others(s, own, v) + Others(s[v..], own, w)
  {
    if w != 0 { OthersGoOn(s, own, v, w - 1); }
  }

  /** A further call in the same packet continues where the last one stopped. */
  lemma CallGoesOn(ring: seq<nat>, own: nat, p: nat, room: int, v: nat) returns (w: nat)
    requires p < |ring| && v < |ring|
    ensures var s, q := Ahead(ring, p, |ring|), Turn(|ring|, p, v);
            && v < w <= |ring|
            && w == v + Stop(s[v..], own, room, 1)
            && Blocks(ring, own, q, p, room) == Others(s[v..], own, w - v)
            && Others(s, own, w) == Others(s, own, v) + Blocks(ring, own, q, p, room)
            && NextPlace(ring, own, q, p, room) == Turn(|ring|, p, w)
  {
    hide Stop, Others;
    var s, q := Ahead(ring, p, |ring|), Turn(|ring|, p, v);
    var rest := Ahead(ring, q, Distance(|ring|, q, p));
    assert rest == s[v..];
    var x := Stop(rest, own, room, 1);
    w := v + x;
    OthersGoOn(s, own, v, x);
  }

  lemma BackAtStart(n: nat, p: nat, v: nat)
    requires p < n && 1 <= v <= n
    ensures Turn(n, p, v) == p <==> v == n
    ensures Turn(n, p, 0) == p
  {
  }

  /** The caller's test for a further RR: two places are left. */
  lemma TwoLeft(n: nat, p: nat, v: nat)
    requires p < n && 1 <= v <= n
    ensures var at := Turn(n, p, v);
            at != p && (if at + 1 < n then at + 1 else 0) != p <==> v + 2 <= n
  {
  }

  function Flat(blocks: seq<seq<nat>>, k: nat): seq<nat>
    requires k <= |blocks|
  {
    if k == 0 then [] else Flat(blocks, k - 1) + blocks[k - 1]
  }

  lemma {:induction false} FlatPrefix(blocks: seq<seq<nat>>, b: seq<nat>, k: nat)
    requires k <= |blocks|
    ensures Flat(blocks + [b], k) == Flat(blocks, k)
  {
    if k != 0 { FlatPrefix(blocks, b, k - 1); }
  }

  // ---------- How long the reports get ----------

  /** The blocks of one call over the sources s ahead. */
  function Fill(s: seq<nat>, own: nat, room: int): nat {
    if s == [] then 0
    else if room >= BLOCK then Min(|Others(s, own, |s|)|, Min(MAX_BLOCKS, room / BLOCK))
    else if s[0] != own then 1 else 0
  }

  /** The places, from v on, up to and with the k-th of the others. */
  function PlaceOf(s: seq<nat>, own: nat, k: nat, v: nat): (w: nat)
    requires v <= |s|
    ensures v <= w <= |s|
    decreases |s| - v
  {
    if v == |s| || |Others(s, own, v)| >= k then v else PlaceOf(s, own, k, v + 1)
  }

  /** At least two places follow the 31st of the others. */
  predicate MoreFollow(s: seq<nat>, own: nat) {
    |s| >= 2 && |Others(s, own, |s| - 2)| >= MAX_BLOCKS
  }

  /** What the blocks take of the room, and the RRs that follow. */
  function BlockBytes(s: seq<nat>, own: nat, room: int): nat
    decreases room
  {
    var left := room - BLOCK * MAX_BLOCKS;
    BLOCK * Fill(s, own, room)
    + if left >= BLOCK && MoreFollow(s, own) then 8 + BlockBytes(s[PlaceOf(s, own, MAX_BLOCKS, 0)..], own, left - 8)
      else 0
  }

  /** The places that one packet visits. */
  function Visits(s: seq<nat>, own: nat, room: int): (v: nat)
    requires s != [] && room >= 0
    ensures 1 <= v <= |s|
    decreases room
  {
    var w := Stop(s, own, room, 1);
    var left := room - BLOCK * |Others(s, own, w)|;
    if |Others(s, own, w)| >= MAX_BLOCKS && left >= BLOCK && w + 2 <= |s| then w + Visits(s[w..], own, left - 8) else w
  }

  lemma StopFills(s: seq<nat>, own: nat, room: int)
    requires s != [] && room >= 0
    ensures |Others(s, own, Stop(s, own, room, 1))| == Fill(s, own, room)
  {
    OthersStep(s, own, 0, 1);
    if room >= BLOCK {
      StopIs(s, own, room, 1);
      OthersStep(s, own, Stop(s, own, room, 1), |s|);
    } else {
      OthersNext(s, own, 0);
      StopStep(s, own, room, 1);
    }
  }

  /** A call that ends with its 31st block ends at the source of that block. */
  lemma {:induction false} StopsAtOther(s: seq<nat>, own: nat, room: int, v: nat)
    requires 1 <= v <= |s| && |Others(s, own, v - 1)| < MAX_BLOCKS
    ensures var r := Stop(s, own, room, v);
            |Others(s, own, r)| == MAX_BLOCKS ==> |Others(s, own, r - 1)| == MAX_BLOCKS - 1
    decreases |s| - v
  {
    StopStep(s, own, room, v);
    OthersNext(s, own, v - 1);
    if Stop(s, own, room, v) != v { StopsAtOther(s, own, room, v + 1); }
  }

  lemma {:induction false} PlaceIs(s: seq<nat>, own: nat, k: nat, v: nat, w: nat)
    requires v <= w <= |s| && |Others(s, own, w)| >= k
    requires w == v || |Others(s, own, w - 1)| < k
    ensures PlaceOf(s, own, k, v) == w
    decreases w - v
  {
    if v < w {
      OthersStep(s, own, v, w - 1);
      PlaceIs(s, own, k, v + 1, w);
    }
  }

  /** After w places and the 31st block, two places are left exactly when two follow that source. */
  lemma MoreFollowIff(s: seq<nat>, own: nat, w: nat)
    requires 1 <= w <= |s| && |Others(s, own, w)| == MAX_BLOCKS && |Others(s, own, w - 1)| < MAX_BLOCKS
    ensures MoreFollow(s, own) <==> w + 2 <= |s|
    ensures PlaceOf(s, own, MAX_BLOCKS, 0) == w
  {
    PlaceIs(s, own, MAX_BLOCKS, 0, w);
    if w + 2 <= |s| {
      OthersStep(s, own, w, |s| - 2);
    } else if |s| >= 2 {
      OthersStep(s, own, |s| - 2, w - 1);
    }
  }

  lemma NoMore(s: seq<nat>, own: nat)
    requires |Others(s, own, |s|)| < MAX_BLOCKS
    ensures !MoreFollow(s, own)
  {
    if |s| >= 2 { OthersStep(s, own, |s| - 2, |s|); }
  }

  /** One call and what follows it. */
  lemma BytesOfCall(s: seq<nat>, own: nat, room: int)
    requires s != [] && room >= 0
    ensures var w := Stop(s, own, room, 1);
            var n := |Others(s, own, w)|;
            BlockBytes(s, own, room)
            == BLOCK * n + if n >= MAX_BLOCKS && room - BLOCK * n >= BLOCK && w + 2 <= |s|
                           then 8 + BlockBytes(s[w..], own, room - BLOCK * n - 8) else 0
  {
    var w := Stop(s, own, room, 1);
    StopFills(s, own, room);
    OthersNext(s, own, 0);
    StopsAtOther(s, own, room, 1);
    hide Others, Stop;
    if Fill(s, own, room) == MAX_BLOCKS {
      MoreFollowIff(s, own, w);
    } else if room - BLOCK * MAX_BLOCKS >= BLOCK {
      NoMore(s, own);
    }
  }

  /** The bytes of the reports: the fixed part of the first, that of the RRs behind it, the blocks. */
  function Written(sender: bool, reports: seq<seq<nat>>): nat {
    if reports == [] then 0
    else (if sender then 28 else 8) + 8 * (|reports| - 1) + BLOCK * |Flat(reports, |reports|)|
  }

  lemma WrittenMore(sender: bool, reports: seq<seq<nat>>, blocks: seq<nat>)
    ensures Written(sender, reports + [blocks])
            == Written(sender, reports) + (if reports == [] && sender then 28 else 8) + BLOCK * |blocks|
    ensures Flat(reports + [blocks], |reports| + 1) == Flat(reports, |reports|) + blocks
  {
    FlatPrefix(reports, blocks, |reports|);
  }

  /** The sources from a place on, once round the list. */
  function FromHere(ring: seq<nat>, p: nat): seq<nat>
    requires ring != [] ==> p < |ring|
  {
    if ring == [] then [] else Ahead(ring, p, |ring|)
  }

  /** The reports of one packet: an SR or RR, and more RRs as long as the last one was full and more
      than one source is left. Taken together they report the sources ahead in turn, none twice; left
      is what they leave of the buffer, and BlockBytes says in advance how much that is. */
  method BuildReports(list: ReportList, sender: bool, own: nat, remainder: int)
    returns (err: int, reports: seq<seq<nat>>, left: int, ghost visited: nat)
    requires list.Valid()
    modifies list`at
    ensures list.Valid() && visited <= |list.ring|
    ensures err == BUFFER_NOT_ENOUGH <==> remainder < (if sender then 52 else 8)
    ensures err == BUFFER_NOT_ENOUGH <==> reports == []
    ensures err == BUFFER_NOT_ENOUGH ==> list.at == old(list.at)
    ensures err == BUFFER_NOT_ENOUGH || err <= 0
    ensures forall k :: 0 <= k < |reports| ==> |reports[k]| <= MAX_BLOCKS
    ensures forall k :: 0 <= k < |reports| - 1 ==> |reports[k]| == MAX_BLOCKS
    ensures left == remainder - Written(sender, reports)
    ensures err != BUFFER_NOT_ENOUGH ==> left >= -BLOCK
    ensures err != BUFFER_NOT_ENOUGH ==>
              var fixed := if sender then 28 else 8;
              left == remainder - fixed - BlockBytes(FromHere(list.ring, old(list.at)), own, remainder - fixed)
    ensures list.ring == [] ==> Flat(reports, |reports|) == [] && list.at == old(list.at)
    ensures list.ring != [] ==>
              && Flat(reports, |reports|) == Others(Ahead(list.ring, old(list.at), |list.ring|), own, visited)
              && list.at == Turn(|list.ring|, old(list.at), visited)
    ensures Distinct(Flat(reports, |reports|))
    ensures forall x :: x in Flat(reports, |reports|) ==> x in list.ring && x != own
    ensures err != BUFFER_NOT_ENOUGH && list.ring != [] ==>
              var room := remainder - (if sender then 28 else 8);
              visited == Visits(Ahead(list.ring, old(list.at), |list.ring|), own, room) > 0
  {
    hide Others, Turn, Written, Flat, BlockBytes, Ahead, Visits;
    NoReports(sender);
    ghost var p := list.at;
    if list.ring == [] {
      var blocks;
      err, blocks, left := list.Build(sender, own, list.at, remainder);
      WrittenMore(sender, [], blocks);
      NoBytes(own, remainder - (if sender then 28 else 8));
      reports, visited := if err == BUFFER_NOT_ENOUGH then [] else [] + [blocks], 0;
    } else {
      err, reports, left, visited := BuildRound(list, sender, own, remainder);
      AllDistinct(list.ring, p, own, visited);
    }
  }

  /** The same with sources in the list. */
  method BuildRound(list: ReportList, sender: bool, own: nat, remainder: int)
    returns (err: int, reports: seq<seq<nat>>, left: int, ghost visited: nat)
    requires list.Valid() && list.ring != []
    modifies list`at
    ensures list.Valid() && visited <= |list.ring|
    ensures err == BUFFER_NOT_ENOUGH <==> remainder < (if sender then 52 else 8)
    ensures err == BUFFER_NOT_ENOUGH <==> reports == []
    ensures err == BUFFER_NOT_ENOUGH ==> list.at == old(list.at) && visited == 0 && left == remainder
    ensures err == BUFFER_NOT_ENOUGH || err <= 0
    ensures forall k :: 0 <= k < |reports| ==> |reports[k]| <= MAX_BLOCKS
    ensures forall k :: 0 <= k < |reports| - 1 ==> |reports[k]| == MAX_BLOCKS
    ensures left == remainder - Written(sender, reports)
    ensures err != BUFFER_NOT_ENOUGH ==>
              var s, room := Ahead(list.ring, old(list.at), |list.ring|), remainder - (if sender then 28 else 8);
              left == room - BlockBytes(s, own, room) >= -BLOCK && visited == Visits(s, own, room)
    ensures Flat(reports, |reports|) == Others(Ahead(list.ring, old(list.at), |list.ring|), own, visited)
    ensures list.at == Turn(|list.ring|, old(list.at), visited)
  {
    hide Blocks, NextPlace, Others, Turn, Stop, Written, Flat, BlockBytes, Ahead, Pending, Visits, PendingVisits;
    var original := list.at;
    ghost var s := Ahead(list.ring, original, |list.ring|);
    NoReports(sender);
    OthersNext(s, own, 0);
    TurnNone(|list.ring|, original);
    var blocks;
    err, blocks, left := list.Build(sender, own, original, remainder);
    if err == BUFFER_NOT_ENOUGH {
      return err, [], left, 0;
    }
    visited := CallInPacket(list.ring, own, original, remainder - (if sender then 28 else 8), 0);
    assert s[0..] == s;
    WrittenMore(sender, [], blocks);
    err, reports, left, visited := FurtherReports(list, sender, own, original, err, [] + [blocks], left, visited);
  }

  /** The loop over further RRs, behind the first report. */
  method FurtherReports(list: ReportList, ghost sender: bool, own: nat, original: nat, answer: int,
                        first: seq<seq<nat>>, before: int, ghost v: nat)
    returns (err: int, reports: seq<seq<nat>>, left: int, ghost visited: nat)
    requires list.Valid() && list.ring != [] && original < |list.ring| && 1 <= v <= |list.ring|
    requires list.at == Turn(|list.ring|, original, v) && answer != BUFFER_NOT_ENOUGH && answer <= 0
    requires list.at != original && (if list.at + 1 < |list.ring| then list.at + 1 else 0) != original
             <==> v + 2 <= |list.ring|
    requires first != [] && Flat(first, |first|) == Others(Ahead(list.ring, original, |list.ring|), own, v)
    requires forall k :: 0 <= k < |first| ==> |first[k]| <= MAX_BLOCKS
    requires forall k :: 0 <= k < |first| - 1 ==> |first[k]| == MAX_BLOCKS
    requires answer == TOO_MANY_REPORT_BLOCK ==> |first[|first| - 1]| == MAX_BLOCKS
    requires before >= -BLOCK && (answer == TOO_MANY_REPORT_BLOCK ==> before >= BLOCK)
    modifies list`at
    ensures list.Valid() && 1 <= visited <= |list.ring|
    ensures err != BUFFER_NOT_ENOUGH && err <= 0 && reports != [] && left >= -BLOCK
    ensures forall k :: 0 <= k < |reports| ==> |reports[k]| <= MAX_BLOCKS
    ensures forall k :: 0 <= k < |reports| - 1 ==> |reports[k]| == MAX_BLOCKS
    ensures list.at == Turn(|list.ring|, original, visited)
    ensures Flat(reports, |reports|) == Others(Ahead(list.ring, original, |list.ring|), own, visited)
    ensures left + Written(sender, reports) == before + Written(sender, first)
    ensures var s, full := Ahead(list.ring, original, |list.ring|), answer == TOO_MANY_REPORT_BLOCK;
            && left == before - Pending(s, own, full, v, before)
            && visited == v + PendingVisits(s, own, full, v, before)
  {
    hide Blocks, NextPlace, Others, Turn, Written, Flat, BlockBytes, Ahead, Pending, Visits, PendingVisits;
    ghost var n, s := |list.ring|, Ahead(list.ring, original, |list.ring|);
    err, reports, left, visited := answer, first, before, v;
    while list.at != original && (if list.at + 1 < |list.ring| then list.at + 1 else 0) != original
          && err == TOO_MANY_REPORT_BLOCK
      invariant list.Valid() && 1 <= visited <= n && list.at == Turn(n, original, visited)
      invariant Flat(reports, |reports|) == Others(s, own, visited)
      invariant err == TOO_MANY_REPORT_BLOCK ==> left >= BLOCK
      invariant err != BUFFER_NOT_ENOUGH && err <= 0 && reports != [] && left >= -BLOCK
      invariant list.at != original && (if list.at + 1 < n then list.at + 1 else 0) != original <==> visited + 2 <= n
      invariant forall k :: 0 <= k < |reports| ==> |reports[k]| <= MAX_BLOCKS
      invariant forall k :: 0 <= k < |reports| - 1 ==> |reports[k]| == MAX_BLOCKS
      invariant err == TOO_MANY_REPORT_BLOCK ==> |reports[|reports| - 1]| == MAX_BLOCKS
      invariant left + Written(sender, reports) == before + Written(sender, first)
      invariant left == before - Pending(s, own, answer == TOO_MANY_REPORT_BLOCK, v, before)
                        + Pending(s, own, err == TOO_MANY_REPORT_BLOCK, visited, left)
      invariant visited + PendingVisits(s, own, err == TOO_MANY_REPORT_BLOCK, visited, left)
                == v + PendingVisits(s, own, answer == TOO_MANY_REPORT_BLOCK, v, before)
      decreases n - visited
    {
      PendingIs(s, own, true, visited, left);
      PendingVisitsIs(s, own, true, visited, left);
      visited := CallInPacket(list.ring, own, original, left - 8, visited);
      var blocks;
      err, blocks, left := list.Build(false, own, original, left);
      WrittenMore(sender, reports, blocks);
      reports := reports + [blocks];
    }
    PendingIs(s, own, err == TOO_MANY_REPORT_BLOCK, visited, left);
    PendingVisitsIs(s, own, err == TOO_MANY_REPORT_BLOCK, visited, left);
  }

  /** A call for a whole turn. */
  lemma BlocksAre(ring: seq<nat>, own: nat, p: nat, room: int)
    requires p < |ring| && room >= 0
    ensures |Blocks(ring, own, p, p, room)| == Fill(Ahead(ring, p, |ring|), own, room)
  {
    WholeTurn(|ring|, p);
    StopFills(Ahead(ring, p, |ring|), own, room);
  }

  /** Up to 31 others fit one report, as many as there is room for. */
  lemma FewOthers(s: seq<nat>, own: nat, room: int)
    requires Distinct(s) && |Others(s, own, |s|)| <= MAX_BLOCKS && room >= BLOCK
    ensures BlockBytes(s, own, room) == BLOCK * Min(|Others(s, own, |s|)|, room / BLOCK)
  {
    if |s| >= 2 {
      OthersNext(s, own, |s| - 2);
      OthersNext(s, own, |s| - 1);
    }
  }

  /** A packet of 1460 bytes has room for at most one RR behind the first report. */
  lemma OneFurther(s: seq<nat>, own: nat, room: int)
    requires room <= 1452
    ensures BlockBytes(s, own, room)
            == BLOCK * Fill(s, own, room)
               + if room >= 768 && MoreFollow(s, own)
                 then 8 + BLOCK * Fill(s[PlaceOf(s, own, MAX_BLOCKS, 0)..], own, room - 752) else 0
  {
  }

  /** The places the further RRs will visit, after v places. */
  function PendingVisits(s: seq<nat>, own: nat, full: bool, v: nat, left: int): nat
    requires v <= |s| && (full ==> left >= 8)
  {
    if full && v + 2 <= |s| then Visits(s[v..], own, left - 8) else 0
  }

  lemma PendingVisitsIs(s: seq<nat>, own: nat, full: bool, v: nat, left: int)
    requires v <= |s| && (full ==> left >= 8)
    ensures PendingVisits(s, own, full, v, left)
            == if full && v + 2 <= |s| then Visits(s[v..], own, left - 8) else 0
  {
  }

  lemma VisitsOfCall(s: seq<nat>, own: nat, room: int, v: nat)
    requires v < |s| && room >= 0
    ensures var w := v + Stop(s[v..], own, room, 1);
            var n := |Others(s[v..], own, w - v)|;
            var left := room - BLOCK * n;
            Visits(s[v..], own, room) == (w - v) + PendingVisits(s, own, n >= MAX_BLOCKS && left >= BLOCK, w, left)
  {
    hide Others, Stop;
    var w := v + Stop(s[v..], own, room, 1);
    assert s[v..][w - v..] == s[w..];
  }

  /** What the further RRs will take, after v places. */
  function Pending(s: seq<nat>, own: nat, full: bool, v: nat, left: int): nat
    requires v <= |s|
  {
    if full && v + 2 <= |s| then 8 + BlockBytes(s[v..], own, left - 8) else 0
  }

  lemma PendingIs(s: seq<nat>, own: nat, full: bool, v: nat, left: int)
    requires v <= |s|
    ensures Pending(s, own, full, v, left) == if full && v + 2 <= |s| then 8 + BlockBytes(s[v..], own, left - 8) else 0
  {
  }

  /** One call in a packet, after v places: where it goes on, what it writes, what is still to come. */
  lemma CallInPacket(ring: seq<nat>, own: nat, p: nat, room: int, v: nat) returns (w: nat)
    requires p < |ring| && v < |ring| && room >= 0
    ensures var n, s, q := |ring|, Ahead(ring, p, |ring|), Turn(|ring|, p, v);
            var b := Blocks(ring, own, q, p, room);
            var left := room - BLOCK * |b|;
            && v < w <= n && left >= -BLOCK && |b| <= MAX_BLOCKS
            && Others(s, own, w) == Others(s, own, v) + b
            && NextPlace(ring, own, q, p, room) == Turn(n, p, w)
            && BlockBytes(s[v..], own, room)
               == BLOCK * |b| + Pending(s, own, left >= BLOCK && |b| >= MAX_BLOCKS, w, left)
            && Visits(s[v..], own, room)
               == (w - v) + PendingVisits(s, own, left >= BLOCK && |b| >= MAX_BLOCKS, w, left)
    ensures var at := Turn(|ring|, p, w);
            at != p && (if at + 1 < |ring| then at + 1 else 0) != p <==> w + 2 <= |ring|
    ensures Turn(|ring|, p, 0) == p && Others(Ahead(ring, p, |ring|), own, 0) == []
  {
    hide Blocks, NextPlace, Others, Stop, BlockBytes, Turn, Ahead, Pending, Visits, PendingVisits;
    var n, s := |ring|, Ahead(ring, p, |ring|);
    w := CallGoesOn(ring, own, p, room, v);
    var b := Blocks(ring, own, Turn(n, p, v), p, room);
    LeftAtLeast(ring, own, Turn(n, p, v), p, room);
    BytesOfCall(s[v..], own, room);
    VisitsOfCall(s, own, room, v);
    assert s[v..][w - v..] == s[w..];
    var left := room - BLOCK * |b|;
    PendingIs(s, own, left >= BLOCK && |b| >= MAX_BLOCKS, w, left);
    TwoLeft(n, p, w);
    OthersNext(s, own, 0);
    TurnNone(n, p);
  }

  lemma NoBytes(own: nat, room: int)
    ensures BlockBytes([], own, room) == 0
  {
  }

  lemma NoReports(sender: bool)
    ensures Flat([], 0) == [] && Written(sender, []) == 0
  {
  }

  lemma AllDistinct(ring: seq<nat>, p: nat, own: nat, v: nat)
    requires p < |ring| && v <= |ring| && Distinct(ring)
    ensures var s := Ahead(ring, p, |ring|);
            && Distinct(Others(s, own, v))
            && (forall x :: x in Others(s, own, v) ==> x in ring && x != own)
            && Others(s, own, 0) == []
  {
    var s := Ahead(ring, p, |ring|);
    assert Distinct(s);
    OthersDistinct(s, own, v);
    forall x | x in Others(s, own, v) ensures x in ring && x != own {
      OthersHave(s, own, v, x);
    }
  }

  // ---------- One call ----------

  lemma {:induction false} OthersStep(s: seq<nat>, own: nat, v: nat, w: nat)
    requires v <= w <= |s|
    ensures |Others(s, own, w)| <= |Others(s, own, v)| + (w - v)
    ensures |Others(s, own, v)| <= |Others(s, own, w)|
    decreases w - v
  {
    if v < w { OthersStep(s, own, v, w - 1); }
  }

  /** The loop stops at the first place where the blocks are as many as fit, or at the end. */
  lemma {:induction false} StopIs(s: seq<nat>, own: nat, room: int, v: nat)
    requires 1 <= v <= |s| && room >= BLOCK
    requires |Others(s, own, v)| <= Min(MAX_BLOCKS, room / BLOCK)
    ensures var r := Stop(s, own, room, v);
            && |Others(s, own, r)| <= Min(MAX_BLOCKS, room / BLOCK)
            && (r < |s| ==> |Others(s, own, r)| == Min(MAX_BLOCKS, room / BLOCK))
    decreases |s| - v
  {
    var index := |Others(s, own, v)|;
    if index < MAX_BLOCKS && room - BLOCK * index >= BLOCK && v < |s| {
      StopIs(s, own, room, v + 1);
    }
  }

  /** Never more than 31 blocks, and never more than fit, provided one fits; then the list is either
      gone round or the packet is full. */
  lemma BlocksFit(ring: seq<nat>, own: nat, p: nat, stop: nat, room: int)
    requires p < |ring| && stop < |ring| && room >= BLOCK
    ensures var n := |Blocks(ring, own, p, stop, room)|;
            && n <= MAX_BLOCKS && BLOCK * n <= room
            && (n == Min(MAX_BLOCKS, room / BLOCK) || NextPlace(ring, own, p, stop, room) == stop)
  {
    var s := Ahead(ring, p, Distance(|ring|, p, stop));
    assert |Others(s, own, 1)| <= 1 by { OthersStep(s, own, 0, 1); }
    StopIs(s, own, room, 1);
  }

  /** A call overruns the buffer exactly when not one block fits and the first source is not our own:
      a block is written before the room is looked at. build_rr gets there with 8 to 31 bytes. */
  lemma OverrunsIff(ring: seq<nat>, own: nat, p: nat, stop: nat, room: int)
    requires p < |ring| && stop < |ring| && room >= 0
    ensures BLOCK * |Blocks(ring, own, p, stop, room)| > room <==> room < BLOCK && ring[p] != own
  {
    if room >= BLOCK {
      BlocksFit(ring, own, p, stop, room);
    } else {
      var s := Ahead(ring, p, Distance(|ring|, p, stop));
      assert s[0] == ring[p] && Others(s, own, 0) == [];
      assert Stop(s, own, room, 1) == 1;
    }
  }

  /** It overruns by less than a block. */
  lemma LeftAtLeast(ring: seq<nat>, own: nat, p: nat, stop: nat, room: int)
    requires p < |ring| && stop < |ring| && room >= 0
    ensures |Blocks(ring, own, p, stop, room)| <= MAX_BLOCKS
    ensures room - BLOCK * |Blocks(ring, own, p, stop, room)| >= Min(0, room - BLOCK)
  {
    if room >= BLOCK {
      BlocksFit(ring, own, p, stop, room);
    } else {
      var s := Ahead(ring, p, Distance(|ring|, p, stop));
      assert Stop(s, own, room, 1) == 1;
    }
  }

  /** A source in the list is in the blocks exactly when its place was visited and it is not our own. */
  lemma {:induction false} OthersHave(s: seq<nat>, own: nat, v: nat, x: nat)
    requires v <= |s|
    ensures x in Others(s, own, v) <==> x != own && x in s[..v]
  {
    if v != 0 {
      OthersHave(s, own, v - 1, x);
      assert s[..v] == s[..v - 1] + [s[v - 1]];
    }
  }

  ghost predicate Distinct(s: seq<nat>) {
    forall i, j :: 0 <= i < j < |s| ==> s[i] != s[j]
  }

  lemma {:induction false} OthersDistinct(s: seq<nat>, own: nat, v: nat)
    requires v <= |s| && Distinct(s)
    ensures Distinct(Others(s, own, v))
  {
    if v != 0 {
      OthersDistinct(s, own, v - 1);
      OthersHave(s, own, v - 1, s[v - 1]);
    }
  }

  /** No source is reported twice in one call. */
  lemma NoneTwice(ring: seq<nat>, own: nat, p: nat, stop: nat, room: int)
    requires p < |ring| && stop < |ring| && Distinct(ring)
    ensures Distinct(Blocks(ring, own, p, stop, room))
  {
    var s := Ahead(ring, p, Distance(|ring|, p, stop));
    assert Distinct(s);
    OthersDistinct(s, own, Stop(s, own, room, 1));
  }

  // ---------- Successive calls ----------

  /** Where the session points after the first j calls, each with the same room and each taking its
      own starting point for the end of the walk. */
  function PlaceAfter(ring: seq<nat>, own: nat, p: nat, room: int, j: nat): (q: nat)
    requires p < |ring|
    ensures q < |ring|
    decreases j
  {
    if j == 0 then p
    else
      var q := NextPlace(ring, own, p, p, room);
      PlaceAfter(ring, own, q, room, j - 1)
  }

  /** The blocks of call j, counting from 0. */
  function CallBlocks(ring: seq<nat>, own: nat, p: nat, room: int, j: nat): seq<nat>
    requires p < |ring|
  {
    var q := PlaceAfter(ring, own, p, room, j);
    Blocks(ring, own, q, q, room)
  }

  lemma Times(c: nat, k: nat)
    requires c > 0
    ensures (c - 1) * k == c * k - k
  {
  }

  /** A call that stops before a whole turn has as many blocks as fit. */
  lemma CallFills(ring: seq<nat>, own: nat, p: nat, room: int)
    requires p < |ring| && room >= BLOCK
    ensures var s := Ahead(ring, p, |ring|);
            var v := Stop(s, own, room, 1);
            v == |ring| || |Others(s, own, v)| == Min(MAX_BLOCKS, room / BLOCK)
  {
    var s := Ahead(ring, p, |ring|);
    OthersStep(s, own, 0, 1);
    StopIs(s, own, room, 1);
  }

  lemma TurnTurn(n: nat, p: nat, v: nat, i: nat)
    requires p < n && v <= i <= n
    ensures Turn(n, Turn(n, p, v), i - v) == Turn(n, p, i)
  {
  }

  lemma {:induction false} OthersPrefix(a: seq<nat>, b: seq<nat>, own: nat, w: nat)
    requires w <= |a| && w <= |b| && forall j :: 0 <= j < w ==> a[j] == b[j]
    ensures Others(a, own, w) == Others(b, own, w)
  {
    if w != 0 { OthersPrefix(a, b, own, w - 1); }
  }

  /** The others between two places, counted from the second call's start. */
  lemma OthersBetween(ring: seq<nat>, own: nat, p: nat, v: nat, i: nat)
    requires p < |ring| && v <= i < |ring|
    ensures var s := Ahead(ring, p, |ring|);
            |Others(Ahead(ring, Turn(|ring|, p, v), |ring|), own, i - v)| == |Others(s, own, i)| - |Others(s, own, v)|
  {
    hide Others, Turn;
    var s, t := Ahead(ring, p, |ring|), Ahead(ring, Turn(|ring|, p, v), |ring|);
    forall j | 0 <= j < i - v ensures s[v..][j] == t[j] {
      TurnTurn(|ring|, p, v, v + j);
    }
    OthersGoOn(s, own, v, i - v);
    OthersPrefix(s[v..], t, own, i - v);
  }

  /** A source with m others of ours before it is reported within c calls of k blocks if m < c * k. */
  lemma {:induction false} ReachedWithin(ring: seq<nat>, own: nat, p: nat, room: int, i: nat, c: nat)
    returns (j: nat)
    requires p < |ring| && room >= BLOCK && i < |ring|
    requires |Others(Ahead(ring, p, |ring|), own, i)| < c * Min(MAX_BLOCKS, room / BLOCK)
    requires ring[Turn(|ring|, p, i)] != own
    ensures j < c && ring[Turn(|ring|, p, i)] in CallBlocks(ring, own, p, room, j)
    decreases c
  {
    hide Stop, Others, Turn, Blocks, Ahead;
    var k, n := Min(MAX_BLOCKS, room / BLOCK), |ring|;
    var v := Stop(Ahead(ring, p, n), own, room, 1);
    WholeTurn(n, p);
    CallFills(ring, own, p, room);
    assert c > 0;
    Times(c, k);
    if i < v {
      j := 0;
      VisitedIsReported(ring, own, p, room, i);
    } else {
      TurnTurn(n, p, v, i);
      OthersBetween(ring, own, p, v, i);
      var j' := ReachedWithin(ring, own, Turn(n, p, v), room, i - v, c - 1);
      j := j' + 1;
    }
  }

  // ---------- Successive packets ----------

  /** The sources that a packet reports from place p on. */
  function PacketSources(ring: seq<nat>, own: nat, p: nat, room: int): seq<nat>
    requires p < |ring| && room >= 0
  {
    var s := Ahead(ring, p, |ring|);
    Others(s, own, Visits(s, own, room))
  }

  function PacketEnd(ring: seq<nat>, own: nat, p: nat, room: int): (q: nat)
    requires p < |ring| && room >= 0
    ensures q < |ring|
  {
    Turn(|ring|, p, Visits(Ahead(ring, p, |ring|), own, room))
  }

  /** Packets with the given rooms: each goes on where the one before it stopped. */
  ghost predicate Chained(ring: seq<nat>, own: nat, rooms: seq<int>, places: seq<nat>) {
    && |places| == |rooms| + 1
    && (forall j :: 0 <= j < |places| ==> places[j] < |ring|)
    && (forall j :: 0 <= j < |rooms| ==> rooms[j] >= 0 && places[j + 1] == PacketEnd(ring, own, places[j], rooms[j]))
  }

  lemma RoomFor(room: int, k: nat)
    requires 1 <= k <= MAX_BLOCKS && room >= BLOCK * k
    ensures Min(MAX_BLOCKS, room / BLOCK) >= k
  {
  }

  lemma PacketFills(ring: seq<nat>, own: nat, p: nat, room: int, k: nat)
    requires p < |ring| && 1 <= k <= MAX_BLOCKS && room >= BLOCK * k
    ensures var s := Ahead(ring, p, |ring|);
            var v := Visits(s, own, room);
            v == |ring| || |Others(s, own, v)| >= k
  {
    var s := Ahead(ring, p, |ring|);
    CallFills(ring, own, p, room);
    RoomFor(room, k);
    assert Visits(s, own, room) >= Stop(s, own, room, 1);
    OthersStep(s, own, Stop(s, own, room, 1), Visits(s, own, room));
  }

  lemma VisitedIsInPacket(ring: seq<nat>, own: nat, p: nat, room: int, i: nat)
    requires p < |ring| && room >= 0 && i < Visits(Ahead(ring, p, |ring|), own, room)
    requires ring[Turn(|ring|, p, i)] != own
    ensures ring[Turn(|ring|, p, i)] in PacketSources(ring, own, p, room)
  {
    hide Visits;
    var s := Ahead(ring, p, |ring|);
    var v := Visits(s, own, room);
    OthersHave(s, own, v, s[i]);
    assert s[..v][i] == s[i];
  }

  /** A source with m others before it is reported within c packets whose first reports have room for k
      blocks each if m < c * k. */
  lemma {:induction false} InPacketsWithin(ring: seq<nat>, own: nat, rooms: seq<int>, places: seq<nat>, k: nat,
                                           from: nat, i: nat, c: nat) returns (j: nat)
    requires Chained(ring, own, rooms, places) && from + c <= |rooms| && i < |ring|
    requires 1 <= k <= MAX_BLOCKS && forall j :: 0 <= j < |rooms| ==> rooms[j] >= BLOCK * k
    requires |Others(Ahead(ring, places[from], |ring|), own, i)| < c * k
    requires ring[Turn(|ring|, places[from], i)] != own
    ensures from <= j < from + c
    ensures ring[Turn(|ring|, places[from], i)] in PacketSources(ring, own, places[j], rooms[j])
    decreases c
  {
    hide Visits, Others, Turn, Ahead;
    var n, p := |ring|, places[from];
    assert c > 0;
    var v := Visits(Ahead(ring, p, n), own, rooms[from]);
    PacketFills(ring, own, p, rooms[from], k);
    Times(c, k);
    if i < v {
      j := from;
      VisitedIsInPacket(ring, own, p, rooms[from], i);
    } else {
      TurnTurn(n, p, v, i);
      OthersBetween(ring, own, p, v, i);
      j := InPacketsWithin(ring, own, rooms, places, k, from + 1, i - v, c - 1);
    }
  }

  /** Every one of the n other sources is reported within ceil(n / k) successive packets, whatever their
      rooms, as long as each has room for k blocks in its first report. */
  lemma EveryoneInPackets(ring: seq<nat>, own: nat, rooms: seq<int>, places: seq<nat>, k: nat, x: nat)
    returns (j: nat)
    requires Chained(ring, own, rooms, places) && x in ring && x != own
    requires 1 <= k <= MAX_BLOCKS && forall j :: 0 <= j < |rooms| ==> rooms[j] >= BLOCK * k
    requires |rooms| >= Rounds(|Others(Ahead(ring, places[0], |ring|), own, |ring|)|, k)
    ensures j < Rounds(|Others(Ahead(ring, places[0], |ring|), own, |ring|)|, k)
    ensures x in PacketSources(ring, own, places[j], rooms[j])
  {
    hide Others, PacketSources, Rounds;
    var p, s := places[0], Ahead(ring, places[0], |ring|);
    var at :| 0 <= at < |ring| && ring[at] == x;
    var i := if at >= p then at - p else at - p + |ring|;
    assert Turn(|ring|, p, i) == at && s[i] == x;
    OthersBefore(s, own, i);
    var n := |Others(s, own, |ring|)|;
    RoundsEnough(n, k);
    j := InPacketsWithin(ring, own, rooms, places, k, 0, i, Rounds(n, k));
  }

  lemma WholeTurn(n: nat, p: nat)
    requires p < n
    ensures Distance(n, p, p) == n
  {
  }

  lemma VisitedIsReported(ring: seq<nat>, own: nat, p: nat, room: int, i: nat)
    requires p < |ring| && i < Stop(Ahead(ring, p, |ring|), own, room, 1)
    requires ring[Turn(|ring|, p, i)] != own
    ensures ring[Turn(|ring|, p, i)] in Blocks(ring, own, p, p, room)
  {
    hide Stop;
    var s := Ahead(ring, p, |ring|);
    var v := Stop(s, own, room, 1);
    OthersHave(s, own, v, s[i]);
    assert s[..v][i] == s[i];
  }

  /** n / k, rounded up. */
  function Rounds(n: nat, k: nat): nat
    requires k > 0
  {
    (n + k - 1) / k
  }

  lemma RoundsEnough(n: nat, k: nat)
    requires k > 0
    ensures n <= Rounds(n, k) * k
  {
    var x := n + k - 1;
    assert x == x / k * k + x % k;
  }

  lemma OthersBefore(s: seq<nat>, own: nat, i: nat)
    requires i < |s| && s[i] != own
    ensures |Others(s, own, i)| < |Others(s, own, |s|)|
  {
    OthersNext(s, own, i);
    OthersStep(s, own, i + 1, |s|);
  }

  /** Every one of the n other sources is reported within ceil(n / k) successive calls of capacity k,
      whether or not our own entry is in the list. */
  lemma EveryoneReported(ring: seq<nat>, own: nat, p: nat, room: int, x: nat) returns (j: nat)
    requires p < |ring| && room >= BLOCK && x in ring && x != own
    ensures j < Rounds(|Others(Ahead(ring, p, |ring|), own, |ring|)|, Min(MAX_BLOCKS, room / BLOCK))
    ensures x in CallBlocks(ring, own, p, room, j)
  {
    hide Others, CallBlocks, Rounds;
    var k, s := Min(MAX_BLOCKS, room / BLOCK), Ahead(ring, p, |ring|);
    var at :| 0 <= at < |ring| && ring[at] == x;
    var i := if at >= p then at - p else at - p + |ring|;
    assert Turn(|ring|, p, i) == at && s[i] == x;
    OthersBefore(s, own, i);
    var n := |Others(s, own, |ring|)|;
    RoundsEnough(n, k);
    j := ReachedWithin(ring, own, p, room, i, Rounds(n, k));
  }
}

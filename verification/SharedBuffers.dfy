/** The reference-counted buffer that copies of a packet share: who holds it, when it is freed, and
    what the packets' total lengths say about it. Buffers are told apart by reference, so a freed one
    is never taken for a later one that malloc puts in its place. */
module SharedBuffers {

  /** A struct pbuf of type PT_SDATA. */
  class Shared {
    var refcnt: int
    var len: int

    constructor ()
      ensures refcnt == 1 && len == 0
    {
      refcnt, len := 1, 0;
    }
  }

  /** Of a packet's own pbuf, what concerns the shared one: PF_WITHSHARED, p_sptr, p_len, p_tlen. */
  class Packet {
    var flagged: bool
    var sptr: Shared?
    var len: int
    var tlen: int

    constructor (flagged: bool, sptr: Shared?, len: int, tlen: int)
      ensures this.flagged == flagged && this.sptr == sptr && this.len == len && this.tlen == tlen
    {
      this.flagged, this.sptr, this.len, this.tlen := flagged, sptr, len, tlen;
    }
  }

  /** Of a packet: PF_WITHSHARED, p_sptr, and p_tlen less p_len. */
  datatype Holder = Holder(flagged: bool, sptr: Shared?, extra: int)

  datatype Counted = Counted(refcnt: int, len: int)

  datatype World = World(packets: map<Packet, Holder>, bufs: map<Shared, Counted>, freed: seq<Shared>)

  datatype Step =
    | New(p: Packet)
    | Attach(p: Packet, b: Shared)
    | Copy(p: Packet, q: Packet)
    | Detach(p: Packet)
    | Destroy(p: Packet)
    | Grow(p: Packet, inPlace: bool, n: int)

  predicate Holds(w: World, p: Packet, b: Shared) {
    p in w.packets && w.packets[p].flagged && w.packets[p].sptr == b
  }

  ghost function Holders(w: World, b: Shared): set<Packet> {
    set p | p in w.packets && Holds(w, p, b)
  }

  ghost predicate NoneTwice(s: seq<Shared>) {
    forall i, j :: 0 <= i < j < |s| ==> s[i] != s[j]
  }

  /** Every count is the number of holders and not zero; no buffer is freed twice or freed and held; a
      packet that holds nothing has no pointer, or one to a freed buffer. */
  ghost predicate Sound(w: World) {
    && (forall p :: p in w.packets && w.packets[p].flagged ==> w.packets[p].sptr != null && w.packets[p].sptr in w.bufs)
    && (forall p :: p in w.packets && !w.packets[p].flagged && w.packets[p].sptr != null ==>
          w.packets[p].sptr in w.freed)
    && (forall b :: b in w.bufs ==> w.bufs[b].refcnt == |Holders(w, b)| > 0)
    && (forall b :: b in w.bufs ==> b !in w.freed)
    && NoneTwice(w.freed)
  }

  /** The caller names a packet there is, and malloc a packet or buffer there never was. */
  predicate Enabled(w: World, s: Step) {
    match s
    case New(p) => p !in w.packets
    case Attach(p, b) => p in w.packets && b !in w.bufs && b !in w.freed
    case Copy(p, q) => p in w.packets && q !in w.packets
    case _ => s.p in w.packets
  }

  /** One holder fewer; the last one frees the buffer. */
  function Leave(w: World, b: Shared): World
    requires b in w.bufs
  {
    if w.bufs[b].refcnt - 1 == 0 then w.(bufs := w.bufs - {b}, freed := w.freed + [b])
    else w.(bufs := w.bufs[b := w.bufs[b].(refcnt := w.bufs[b].refcnt - 1)])
  }

  function Next(w: World, s: Step): World
    requires Sound(w) && Enabled(w, s)
  {
    match s
    case New(p) => w.(packets := w.packets[p := Holder(false, null, 0)])
    case Attach(p, b) =>
      if w.packets[p].flagged then w
      else w.(packets := w.packets[p := w.packets[p].(flagged := true, sptr := b)], bufs := w.bufs[b := Counted(1, 0)])
    case Copy(p, q) =>
      var h := w.packets[p];
      var v := w.(packets := w.packets[q := h]);
      if h.flagged then v.(bufs := v.bufs[h.sptr := v.bufs[h.sptr].(refcnt := v.bufs[h.sptr].refcnt + 1)])
      else v
    case Detach(p) =>
      var h := w.packets[p];
      if !h.flagged then w
      else
        var b := h.sptr;
        var left := Holder(false, if w.bufs[b].refcnt - 1 == 0 then h.sptr else null, h.extra - w.bufs[b].len);
        Leave(w.(packets := w.packets[p := left]), b)
    case Destroy(p) =>
      var h := w.packets[p];
      var v := w.(packets := w.packets - {p});
      if h.flagged then Leave(v, h.sptr) else v
    case Grow(p, inPlace, n) =>
      var h := w.packets[p];
      if !h.flagged || !inPlace then w
      else
        var b := h.sptr;
        w.(packets := w.packets[p := h.(extra := h.extra + n)],
           bufs := w.bufs[b := w.bufs[b].(len := w.bufs[b].len + n)])
  }

  function Left(s: Step): set<Packet> {
    if s.Detach? || s.Destroy? then {s.p} else {}
  }

  function Joined(w: World, s: Step, b: Shared): set<Packet>
    requires Enabled(w, s)
  {
    if s.Attach? && !w.packets[s.p].flagged && s.b == b then {s.p}
    else if s.Copy? && Holds(w, s.p, b) then {s.q}
    else {}
  }

  lemma HoldsMoves(w: World, s: Step, p: Packet, b: Shared)
    requires Sound(w) && Enabled(w, s)
    ensures Holds(Next(w, s), p, b) <==> (Holds(w, p, b) && p !in Left(s)) || p in Joined(w, s, b)
  {
  }

  lemma HoldersAre(w: World, b: Shared)
    ensures forall p :: p in Holders(w, b) <==> Holds(w, p, b)
  {
  }

  lemma HoldersMove(w: World, s: Step, b: Shared)
    requires Sound(w) && Enabled(w, s)
    ensures Holders(Next(w, s), b) == Holders(w, b) - Left(s) + Joined(w, s, b)
  {
    HoldersAre(w, b);
    HoldersAre(Next(w, s), b);
    hide Next, Sound, Holds, Holders, Left, Joined;
    forall p: Packet
      ensures p in Holders(Next(w, s), b) <==> p in Holders(w, b) - Left(s) + Joined(w, s, b)
    {
      HoldsMoves(w, s, p, b);
    }
  }

  lemma Sizes(before: set<Packet>, left: set<Packet>, joined: set<Packet>)
    requires joined * before == {}
    ensures |before - left + joined| == |before| - |before * left| + |joined|
  {
    assert before - left == before - (before * left);
    assert (before - left) * joined == {};
  }

  lemma JoinedIsNew(w: World, s: Step, b: Shared)
    requires Sound(w) && Enabled(w, s)
    ensures Joined(w, s, b) * Holders(w, b) == {}
  {
    HoldersAre(w, b);
  }

  lemma HoldersSize(w: World, s: Step, b: Shared)
    requires Sound(w) && Enabled(w, s)
    ensures |Holders(Next(w, s), b)| == |Holders(w, b)| - |Holders(w, b) * Left(s)| + |Joined(w, s, b)|
  {
    hide Next, Sound, Holds, Holders, Left, Joined;
    HoldersMove(w, s, b);
    JoinedIsNew(w, s, b);
    Sizes(Holders(w, b), Left(s), Joined(w, s, b));
  }

  /** What holds a buffer holds it alone. */
  lemma OnlyHolder(w: World, p: Packet, b: Shared)
    requires Sound(w) && Holds(w, p, b)
    ensures b in w.bufs && p in Holders(w, b)
    ensures w.bufs[b].refcnt == 1 <==> Holders(w, b) == {p}
  {
    var others := Holders(w, b) - {p};
    assert Holders(w, b) == others + {p};
  }

  function Leaving(w: World, s: Step, b: Shared): nat {
    if Left(s) != {} && Holds(w, s.p, b) then 1 else 0
  }

  lemma CountMoves(w: World, s: Step, b: Shared)
    requires Sound(w) && Enabled(w, s) && b in Next(w, s).bufs
    ensures Next(w, s).bufs[b].refcnt
            == (if b in w.bufs then w.bufs[b].refcnt else 0) - Leaving(w, s, b) + |Joined(w, s, b)| > 0
  {
    hide Holders;
  }

  lemma LeavingIs(w: World, s: Step, b: Shared)
    requires Sound(w) && Enabled(w, s)
    ensures |Holders(w, b) * Left(s)| == Leaving(w, s, b)
    ensures |Holders(w, b)| == if b in w.bufs then w.bufs[b].refcnt else 0
  {
    HoldersAre(w, b);
    hide Next, Holders;
    assert Holders(w, b) * Left(s) == if Leaving(w, s, b) == 1 then {s.p} else {};
    if b !in w.bufs { NoneHold(w, b); }
  }

  lemma NoneHold(w: World, b: Shared)
    requires Sound(w) && b !in w.bufs
    ensures Holders(w, b) == {}
  {
    assert forall p :: p in w.packets ==> !Holds(w, p, b);
  }

  lemma CountsKept(w: World, s: Step, b: Shared)
    requires Sound(w) && Enabled(w, s) && b in Next(w, s).bufs
    ensures Next(w, s).bufs[b].refcnt == |Holders(Next(w, s), b)| > 0
  {
    hide Next, Sound, Holds, Holders, Left, Joined, Leaving;
    HoldersSize(w, s, b);
    LeavingIs(w, s, b);
    CountMoves(w, s, b);
  }

  /** A buffer that goes with a step has no holder left. */
  lemma HeldIsKept(w: World, s: Step, b: Shared)
    requires Sound(w) && Enabled(w, s) && b in w.bufs && Holders(Next(w, s), b) != {}
    ensures b in Next(w, s).bufs
  {
    HoldersMove(w, s, b);
    if Left(s) != {} && Holds(w, s.p, b) { OnlyHolder(w, s.p, b); }
  }

  lemma HoldersThere(w: World, s: Step, p: Packet)
    requires Sound(w) && Enabled(w, s) && p in Next(w, s).packets && Next(w, s).packets[p].flagged
    ensures var b := Next(w, s).packets[p].sptr; b != null && b in Next(w, s).bufs
  {
    var b := Next(w, s).packets[p].sptr;
    if b in w.bufs {
      HoldersAre(Next(w, s), b);
      assert p in Holders(Next(w, s), b);
      HeldIsKept(w, s, b);
    }
  }

  lemma FreedKept(w: World, s: Step)
    requires Sound(w) && Enabled(w, s)
    ensures NoneTwice(Next(w, s).freed) && forall b :: b in Next(w, s).bufs ==> b !in Next(w, s).freed
    ensures forall b :: b in w.freed ==> b in Next(w, s).freed
  {
    hide Holders, Holds;
  }

  lemma StaleKept(w: World, s: Step, p: Packet)
    requires Sound(w) && Enabled(w, s) && p in Next(w, s).packets && !Next(w, s).packets[p].flagged
    ensures var b := Next(w, s).packets[p].sptr; b != null ==> b in Next(w, s).freed
  {
    hide Holders, Holds, NoneTwice;
  }

  lemma StepKeeps(w: World, s: Step)
    requires Sound(w) && Enabled(w, s)
    ensures Sound(Next(w, s))
  {
    var v := Next(w, s);
    FreedKept(w, s);
    hide Next, Holders, NoneTwice;
    forall b | b in v.bufs ensures v.bufs[b].refcnt == |Holders(v, b)| > 0 {
      CountsKept(w, s, b);
    }
    forall p | p in v.packets && v.packets[p].flagged
      ensures v.packets[p].sptr != null && v.packets[p].sptr in v.bufs
    {
      HoldersThere(w, s, p);
    }
    forall p | p in v.packets && !v.packets[p].flagged && v.packets[p].sptr != null
      ensures v.packets[p].sptr in v.freed
    {
      StaleKept(w, s, p);
    }
  }

  /** A buffer is freed by a step exactly when the step takes away its only holder. */
  lemma FreedWhenLastLeaves(w: World, s: Step, b: Shared)
    requires Sound(w) && Enabled(w, s) && b in w.bufs
    ensures b in Next(w, s).freed <==> Left(s) == Holders(w, b)
    ensures b in Next(w, s).bufs <==> Left(s) != Holders(w, b)
  {
    if Left(s) != {} && Holds(w, s.p, b) {
      OnlyHolder(w, s.p, b);
    } else {
      assert s.p in Left(s) ==> s.p !in Holders(w, b);
    }
  }

  ghost predicate Agrees(w: World, p: Packet)
    requires Sound(w) && p in w.packets
  {
    w.packets[p].extra == if w.packets[p].flagged then w.bufs[w.packets[p].sptr].len else 0
  }

  ghost predicate AllAgree(w: World)
    requires Sound(w)
  {
    forall p :: p in w.packets ==> Agrees(w, p)
  }

  /** Growing a buffer in place changes the length of the packet that asks, and of no other holder. */
  lemma GrowAgreesIff(w: World, p: Packet, n: int, q: Packet)
    requires Sound(w) && AllAgree(w) && p in w.packets && w.packets[p].flagged && q in w.packets
    requires Sound(Next(w, Grow(p, true, n)))
    ensures Agrees(Next(w, Grow(p, true, n)), q) <==> p == q || n == 0 || !Holds(w, q, w.packets[p].sptr)
  {
    hide Holders, NoneTwice;
    assert Agrees(w, q) && Agrees(w, p);
  }

  lemma OthersAgree(w: World, s: Step, q: Packet)
    requires Sound(w) && AllAgree(w) && Enabled(w, s) && Sound(Next(w, s)) && q in Next(w, s).packets
    requires !(s.Grow? && s.inPlace && w.packets[s.p].flagged)
    ensures Agrees(Next(w, s), q)
  {
    hide Holders, NoneTwice;
    assert s.Copy? && q == s.q ==> Agrees(w, s.p);
    assert q in w.packets ==> Agrees(w, q);
  }

  /** The total lengths count the shared bytes, after any step but one: growing in place a buffer that
      others hold too changes the length of one packet only. */
  lemma LengthsAgreeIff(w: World, s: Step)
    requires Sound(w) && AllAgree(w) && Enabled(w, s)
    ensures Sound(Next(w, s))
    ensures AllAgree(Next(w, s)) <==>
              !(s.Grow? && s.inPlace && s.n != 0 && w.packets[s.p].flagged && w.bufs[w.packets[s.p].sptr].refcnt > 1)
  {
    StepKeeps(w, s);
    if s.Grow? && s.inPlace && w.packets[s.p].flagged {
      var b := w.packets[s.p].sptr;
      OnlyHolder(w, s.p, b);
      HoldersAre(w, b);
      hide Holders, NoneTwice, Agrees;
      var others := Holders(w, b) - {s.p};
      assert Holders(w, b) == others + {s.p};
      forall q | q in w.packets
        ensures Agrees(Next(w, s), q) <==> s.p == q || s.n == 0 || !Holds(w, q, b)
      {
        GrowAgreesIff(w, s.p, s.n, q);
      }
      if w.bufs[b].refcnt > 1 && s.n != 0 {
        var q :| q in others;
        assert !Agrees(Next(w, s), q);
      }
    } else {
      hide Next, Sound, Agrees;
      forall q | q in Next(w, s).packets ensures Agrees(Next(w, s), q) {
        OthersAgree(w, s, q);
      }
    }
  }

  /** A packet that detaches forgets the buffer unless it was the last to hold it: then its pointer
      still names what has just been freed. */
  lemma DetachForgetsIff(w: World, p: Packet)
    requires Sound(w) && p in w.packets && w.packets[p].flagged
    ensures var h, b := Next(w, Detach(p)).packets[p], w.packets[p].sptr;
            && !h.flagged
            && (h.sptr == null <==> Holders(w, b) != {p})
            && (h.sptr != null <==> h.sptr == b && b in Next(w, Detach(p)).freed)
  {
    OnlyHolder(w, p, w.packets[p].sptr);
  }

  // Whole runs.

  predicate CanRun(w: World, steps: seq<Step>)
    requires Sound(w)
    decreases |steps|
  {
    steps == [] || (Enabled(w, steps[0]) && (StepKeeps(w, steps[0]); CanRun(Next(w, steps[0]), steps[1..])))
  }

  function Run(w: World, steps: seq<Step>): World
    requires Sound(w) && CanRun(w, steps)
    decreases |steps|
  {
    if steps == [] then w else (StepKeeps(w, steps[0]); Run(Next(w, steps[0]), steps[1..]))
  }

  /** The buffer that a step allocates. */
  function Made(w: World, s: Step): seq<Shared>
    requires Enabled(w, s)
  {
    if s.Attach? && !w.packets[s.p].flagged then [s.b] else []
  }

  function AllMade(w: World, steps: seq<Step>): seq<Shared>
    requires Sound(w) && CanRun(w, steps)
    decreases |steps|
  {
    if steps == [] then [] else (StepKeeps(w, steps[0]); Made(w, steps[0]) + AllMade(Next(w, steps[0]), steps[1..]))
  }

  ghost function Known(w: World): multiset<Shared> {
    multiset(w.freed) + multiset(w.bufs.Keys)
  }

  predicate Frees(w: World, s: Step)
    requires Sound(w) && Enabled(w, s)
  {
    Left(s) != {} && w.packets[s.p].flagged && w.bufs[w.packets[s.p].sptr].refcnt == 1
  }

  lemma BuffersMove(w: World, s: Step)
    requires Sound(w) && Enabled(w, s)
    ensures var v, made := Next(w, s), Made(w, s);
            if Frees(w, s) then
              var b := w.packets[s.p].sptr;
              made == [] && b in w.bufs && v.bufs.Keys == w.bufs.Keys - {b} && v.freed == w.freed + [b]
            else v.bufs.Keys == w.bufs.Keys + (set b | b in made) && v.freed == w.freed
  {
    var v := Next(w, s);
    if Frees(w, s) {
      assert v.bufs.Keys == w.bufs.Keys - {w.packets[s.p].sptr};
    } else {
      assert v.bufs.Keys == w.bufs.Keys + (set b | b in Made(w, s));
    }
  }

  lemma StepAccounts(w: World, s: Step)
    requires Sound(w) && Enabled(w, s)
    ensures Known(Next(w, s)) == Known(w) + multiset(Made(w, s))
  {
    BuffersMove(w, s);
    hide Next, Sound, Enabled, Made, Frees;
    var v, made := Next(w, s), Made(w, s);
    if Frees(w, s) {
      FreeKeeps(w.freed, w.bufs.Keys, w.packets[s.p].sptr);
    } else {
      MadeIsNew(w, s);
      MakeKeeps(w.freed, w.bufs.Keys, made);
    }
  }

  lemma MadeIsNew(w: World, s: Step)
    requires Enabled(w, s)
    ensures |Made(w, s)| <= 1 && forall b :: b in Made(w, s) ==> b !in w.bufs
  {
  }

  lemma MakeKeeps(freed: seq<Shared>, bufs: set<Shared>, made: seq<Shared>)
    requires |made| <= 1 && forall b :: b in made ==> b !in bufs
    ensures multiset(freed) + multiset(bufs + (set b | b in made)) == multiset(freed) + multiset(bufs) + multiset(made)
  {
    if made == [] {
      assert bufs + (set b | b in made) == bufs;
    } else {
      assert made == [made[0]];
      assert bufs + (set b | b in made) == bufs + {made[0]};
    }
  }

  lemma FreeKeeps(freed: seq<Shared>, bufs: set<Shared>, b: Shared)
    requires b in bufs
    ensures multiset(freed + [b]) + multiset(bufs - {b}) == multiset(freed) + multiset(bufs)
  {
    assert multiset(bufs) == multiset(bufs - {b}) + multiset{b};
  }

  lemma {:induction false} RunAccounts(w: World, steps: seq<Step>)
    requires Sound(w) && CanRun(w, steps)
    ensures Sound(Run(w, steps))
    ensures Known(Run(w, steps)) == Known(w) + multiset(AllMade(w, steps))
    decreases |steps|
  {
    if steps != [] {
      StepKeeps(w, steps[0]);
      StepAccounts(w, steps[0]);
      RunAccounts(Next(w, steps[0]), steps[1..]);
    }
  }

  /** Over every run from nothing: the counts are the numbers of holders, every buffer allocated is
      either held or freed, once, and when no packet is left all of them have been freed. */
  lemma EveryRun(steps: seq<Step>)
    requires CanRun(World(map[], map[], []), steps)
    ensures var w0 := World(map[], map[], []);
            var w := Run(w0, steps);
            && Sound(w)
            && multiset(w.freed) + multiset(w.bufs.Keys) == multiset(AllMade(w0, steps))
            && (w.packets == map[] ==> w.bufs == map[] && multiset(w.freed) == multiset(AllMade(w0, steps)))
  {
    var w0 := World(map[], map[], []);
    RunAccounts(w0, steps);
    var w := Run(w0, steps);
    if w.packets == map[] {
      forall b ensures b !in w.bufs {
        assert b in w.bufs ==> Holders(w, b) == {};
      }
    }
  }

  lemma HeldIsThere(w: World, p: Packet)
    requires Sound(w) && p in w.packets && w.packets[p].flagged
    ensures w.packets[p].sptr in w.bufs
  {
  }

  lemma DetachNot(w: World, p: Packet)
    requires Sound(w) && p in w.packets && !w.packets[p].flagged
    ensures Next(w, Detach(p)) == w
  {
  }

  lemma DetachLast(w: World, p: Packet)
    requires Sound(w) && p in w.packets && w.packets[p].flagged && w.bufs[w.packets[p].sptr].refcnt == 1
    ensures var h := w.packets[p];
            var b, v := h.sptr, Next(w, Detach(p));
            && v == World(w.packets[p := Holder(false, b, h.extra - w.bufs[b].len)], w.bufs - {b}, w.freed + [b])
            && Sound(v)
  {
    StepKeeps(w, Detach(p));
  }

  lemma DetachOne(w: World, p: Packet)
    requires Sound(w) && p in w.packets && w.packets[p].flagged && w.bufs[w.packets[p].sptr].refcnt != 1
    ensures var h := w.packets[p];
            var b, v := h.sptr, Next(w, Detach(p));
            && v == World(w.packets[p := Holder(false, null, h.extra - w.bufs[b].len)],
                          w.bufs[b := Counted(w.bufs[b].refcnt - 1, w.bufs[b].len)], w.freed)
            && Sound(v)
  {
    StepKeeps(w, Detach(p));
  }

  /** The packets and shared buffers there are; the methods change them as Next says. */
  class Memory {
    ghost var state: World

    ghost predicate Valid()
      reads this, state.packets.Keys, state.bufs.Keys
    {
      && Sound(state)
      && (forall p :: p in state.packets ==> state.packets[p] == Holder(p.flagged, p.sptr, p.tlen - p.len))
      && (forall b :: b in state.bufs ==> state.bufs[b] == Counted(b.refcnt, b.len))
    }

    constructor ()
      ensures Valid() && state == World(map[], map[], [])
    {
      state := World(map[], map[], []);
    }

    method NewPacket() returns (p: Packet)
      requires Valid()
      modifies this
      ensures fresh(p) && p !in old(state).packets
      ensures Valid() && state == Next(old(state), New(p))
    {
      hide Sound, Holds, Holders;
      p := new Packet(false, null, 0, 0);
      StepKeeps(state, New(p));
      state := Next(state, New(p));
    }

    /** pkt_sattach */
    method Attach(p: Packet) returns (b: Shared?)
      requires Valid() && p in state.packets
      modifies this, p
      ensures b != null <==> !old(p.flagged)
      ensures Valid()
      ensures b == null ==> state == old(state)
      ensures b != null ==> fresh(b) && state == Next(old(state), Step.Attach(p, b))
      ensures b != null ==> p.flagged && p.sptr == b && b.refcnt == 1 && b.len == 0 && p.tlen == old(p.tlen)
    {
      hide Sound, Holds, Holders;
      b := null;
      if !p.flagged {
        b := new Shared();
        StepKeeps(state, Step.Attach(p, b));
        p.flagged, p.sptr := true, b;
        state := Next(state, Step.Attach(p, b));
      }
    }

    method Copy(p: Packet) returns (q: Packet)
      requires Valid() && p in state.packets
      modifies this, state.bufs.Keys
      ensures fresh(q) && q !in old(state).packets
      ensures Valid() && state == Next(old(state), Step.Copy(p, q))
      ensures q.flagged == p.flagged && q.sptr == p.sptr && q.len == p.len && q.tlen == p.tlen
      ensures p.flagged ==> p.sptr != null && p.sptr.refcnt == old(p.sptr.refcnt) + 1
    {
      hide Sound, Holds, Holders;
      q := new Packet(p.flagged, p.sptr, p.len, p.tlen);
      StepKeeps(state, Step.Copy(p, q));
      if p.flagged {
        HeldIsThere(state, p);
        p.sptr.refcnt := p.sptr.refcnt + 1;
      }
      state := Next(state, Step.Copy(p, q));
    }

    /** pkt_sdeattach */
    method Detach(p: Packet) returns (ok: bool)
      requires Valid() && p in state.packets
      modifies this, p, state.bufs.Keys
      ensures ok == old(p.flagged) && !p.flagged && p.len == old(p.len)
      ensures ok ==> old(p.sptr) != null && p.tlen == old(p.tlen) - old(p.sptr.len)
      ensures Valid() && state == Next(old(state), Step.Detach(p))
    {
      hide Sound, Holds, Holders, Leave, Next;
      if !p.flagged {
        DetachNot(state, p);
        return false;
      }
      HeldIsThere(state, p);
      if p.sptr.refcnt - 1 == 0 {
        DetachLast(state, p);
        p.tlen := p.tlen - p.sptr.len;
        p.flagged := false;
        state := Next(state, Step.Detach(p));
      } else {
        LeaveOthers(p);
      }
      return true;
    }

    /** The rest of pkt_sdeattach, when others hold the buffer. */
    method LeaveOthers(p: Packet)
      requires Valid() && p in state.packets && p.flagged && p.sptr in state.bufs && p.sptr.refcnt != 1
      modifies this, p, p.sptr
      ensures Valid() && state == Next(old(state), Step.Detach(p))
      ensures !p.flagged && p.len == old(p.len) && p.tlen == old(p.tlen) - old(p.sptr.len)
    {
      hide Sound, Holds, Holders, Leave, Next;
      DetachOne(state, p);
      var sf := p.sptr;
      p.tlen := p.tlen - sf.len;
      sf.refcnt := sf.refcnt - 1;
      p.sptr := null;
      p.flagged := false;
      state := Next(state, Step.Detach(p));
    }

    /** release, as the destructor calls it */
    method Destroy(p: Packet)
      requires Valid() && p in state.packets
      modifies this, state.bufs.Keys
      ensures Valid() && state == Next(old(state), Step.Destroy(p))
    {
      hide Sound, Holds, Holders;
      StepKeeps(state, Step.Destroy(p));
      if p.flagged {
        HeldIsThere(state, p);
        p.sptr.refcnt := p.sptr.refcnt - 1;
      }
      state := Next(state, Step.Destroy(p));
    }

    /** pkt_sprepend; inPlace when the data already stand in the shared buffer. */
    method Grow(p: Packet, inPlace: bool, n: int) returns (ok: bool)
      requires Valid() && p in state.packets
      modifies this, p, state.bufs.Keys
      ensures ok == (old(p.flagged) && inPlace) && p.len == old(p.len)
      ensures ok ==> p.sptr != null && p.sptr.len == old(p.sptr.len) + n && p.tlen == old(p.tlen) + n
      ensures !ok ==> state == old(state)
      ensures Valid() && state == Next(old(state), Step.Grow(p, inPlace, n))
    {
      hide Sound, Holds, Holders;
      ok := p.flagged && inPlace;
      if ok {
        StepKeeps(state, Step.Grow(p, inPlace, n));
        HeldIsThere(state, p);
        p.sptr.len := p.sptr.len + n;
        p.tlen := p.tlen + n;
        state := Next(state, Step.Grow(p, inPlace, n));
      }
    }
  }

  lemma Twins(p: Packet, q: Packet, b: Shared) returns (w: World)
    requires p != q
    ensures w == World(map[p := Holder(true, b, 0), q := Holder(true, b, 0)], map[b := Counted(2, 0)], [])
    ensures Sound(w) && AllAgree(w)
  {
    w := World(map[p := Holder(true, b, 0), q := Holder(true, b, 0)], map[b := Counted(2, 0)], []);
    assert Holders(w, b) == {p, q};
  }

  /** A packet, its copy, and one byte put into the buffer they share: their lengths no longer agree. */
  method CopyFallsBehind() returns (m: Memory)
    ensures m.Valid() && !AllAgree(m.state)
  {
    hide Sound, AllAgree;
    m := new Memory();
    var p := m.NewPacket();
    var b := m.Attach(p);
    var q := m.Copy(p);
    ghost var w := Twins(p, q, b);
    assert m.state == w;
    LengthsAgreeIff(w, Grow(p, true, 1));
    var ok := m.Grow(p, true, 1);
  }
}

/** The pools of one coalescing shard as values: generation-tagged pending slots and the
    index-chained arena of waiters. */
module CoPools {
  import opened Collections
  import opened Radix

  const GEN_MOD: nat := 65536

  // ---- generation and state in one word; completion cookies ----

  datatype PendState = FREE | ISSUED | DONE | ERROR

  function StateCode(st: PendState): nat {
    match st case FREE => 0 case ISSUED => 1 case DONE => 2 case ERROR => 3
  }

  /** GS_MAKE: 16 bits of generation above 8 bits of state. */
  function GsMake(gen: nat, st: PendState): nat {
    gen % GEN_MOD * 256 + StateCode(st)
  }

  function GsGen(gs: nat): nat {
    gs / 256 % GEN_MOD
  }

  function GsState(gs: nat): nat {
    gs % 256
  }

  lemma GsRoundTrip(gen: nat, st: PendState)
    ensures GsGen(GsMake(gen, st)) == gen % GEN_MOD && GsState(GsMake(gen, st)) == StateCode(st)
  {
    DivUnique(GsMake(gen, st), 256, gen % GEN_MOD, StateCode(st));
  }

  /** Two words agree exactly when generation and state do: one compare-and-swap checks both. */
  lemma GsEqual(gen: nat, st: PendState, gen': nat, st': PendState)
    ensures GsMake(gen, st) == GsMake(gen', st') <==> gen % GEN_MOD == gen' % GEN_MOD && st == st'
  {
    GsRoundTrip(gen, st);
    GsRoundTrip(gen', st');
  }

  /** CO_COOKIE: shard above bit 32, generation in bits 31..16, slot in bits 15..0. */
  function Cookie(shard: nat, gen: nat, slot: nat): nat {
    shard * 0x1_0000_0000 + gen % GEN_MOD * 0x1_0000 + slot % 0x1_0000
  }

  function CkSlot(c: nat): nat { c % 0x1_0000 }
  function CkGen(c: nat): nat { c / 0x1_0000 % 0x1_0000 }
  function CkShard(c: nat): nat { c / 0x1_0000_0000 % 256 }

  /** A cookie names its shard, slot and generation. */
  lemma CookieRoundTrip(shard: nat, gen: nat, slot: nat)
    requires shard < 256 && slot < 0x1_0000
    ensures var c := Cookie(shard, gen, slot);
            CkShard(c) == shard && CkGen(c) == gen % GEN_MOD && CkSlot(c) == slot
  {
  }

  // ---- chains of waiters ----

  datatype Waiter = Waiter(reqId: nat, dst: nat, off: nat, next: nat)

  /** Following next from head visits exactly the nodes c, in order, and ends at NIL. */
  ghost predicate ChainAt(nodes: seq<Waiter>, head: nat, c: seq<nat>) {
    && head == (if c == [] then NIL else c[0])
    && forall i :: 0 <= i < |c| ==> c[i] < |nodes| && nodes[c[i]].next == NextIn(c, i)
  }

  /** c lists, once each, the nodes owned by o. */
  ghost predicate Owns(own: seq<int>, o: int, c: seq<nat>) {
    && NoDup(c)
    && (forall i :: 0 <= i < |c| ==> c[i] < |own| && own[c[i]] == o)
    && (forall x :: 0 <= x < |own| && own[x] == o ==> x in c)
  }

  /** The waiter arena: every node is on the free list or on exactly one slot's chain. */
  datatype Arena = Arena(nodes: seq<Waiter>, wfree: nat, free: seq<nat>, heads: seq<nat>, chains: seq<seq<nat>>,
                         own: seq<int>)

  ghost predicate SlotChainOk(a: Arena, s: nat)
    requires s < |a.heads| && s < |a.chains|
  {
    ChainAt(a.nodes, a.heads[s], a.chains[s]) && Owns(a.own, s, a.chains[s])
  }

  ghost predicate ArenaOk(a: Arena) {
    && |a.own| == |a.nodes| <= NIL && |a.heads| == |a.chains|
    && ChainAt(a.nodes, a.wfree, a.free) && Owns(a.own, -1, a.free)
    && (forall s :: 0 <= s < |a.chains| ==> SlotChainOk(a, s))
    && (forall x :: 0 <= x < |a.own| ==> -1 <= a.own[x] < |a.chains|)
  }

  /** waiter_alloc for slot s, the record filled in and linked in front of the slot's chain. */
  function PushWaiter(a: Arena, s: nat, reqId: nat, dst: nat, off: nat): Arena
    requires a.free != [] && a.free[0] < |a.nodes| && a.free[0] < |a.own| && s < |a.heads| && s < |a.chains|
  {
    var w := a.free[0];
    Arena(a.nodes[w := Waiter(reqId, dst, off, a.heads[s])], a.nodes[w].next, a.free[1..],
          a.heads[s := w], a.chains[s := [w] + a.chains[s]], a.own[w := s])
  }

  lemma ChainFrame(nodes: seq<Waiter>, head: nat, c: seq<nat>, w: nat, v: Waiter)
    requires ChainAt(nodes, head, c) && w < |nodes| && w !in c
    ensures ChainAt(nodes[w := v], head, c)
  {
  }

  lemma OwnsFrame(own: seq<int>, o: int, c: seq<nat>, w: nat, o': int)
    requires Owns(own, o, c) && w < |own| && own[w] != o && o' != o
    ensures Owns(own[w := o'], o, c) && w !in c
  {
  }

  lemma OwnsTail(own: seq<int>, o: int, c: seq<nat>, o': int)
    requires Owns(own, o, c) && c != [] && o' != o
    ensures c[0] < |own| && Owns(own[c[0] := o'], o, c[1..]) && c[0] !in c[1..]
  {
    var t := c[1..];
    assert forall i :: 0 <= i < |t| ==> t[i] == c[i + 1];
    forall x | 0 <= x < |own| && own[c[0] := o'][x] == o ensures x in t {
      assert x in c && x != c[0];
      var i :| 0 <= i < |c| && c[i] == x;
      assert t[i - 1] == x;
    }
  }

  lemma OwnsCons(own: seq<int>, o: int, c: seq<nat>, w: nat)
    requires Owns(own, o, c) && w < |own| && own[w] != o
    ensures Owns(own[w := o], o, [w] + c)
  {
    var d := [w] + c;
    assert forall i :: 1 <= i < |d| ==> d[i] == c[i - 1];
    forall x | 0 <= x < |own| && own[w := o][x] == o ensures x in d {
      if x != w {
        var i :| 0 <= i < |c| && c[i] == x;
        assert d[i + 1] == x;
      }
    }
  }

  lemma ChainTail(nodes: seq<Waiter>, head: nat, c: seq<nat>)
    requires ChainAt(nodes, head, c) && c != []
    ensures head == c[0] < |nodes| && ChainAt(nodes, nodes[head].next, c[1..])
  {
    var t := c[1..];
    assert nodes[c[0]].next == NextIn(c, 0);
    forall i | 0 <= i < |t| ensures t[i] < |nodes| && nodes[t[i]].next == NextIn(t, i) {
      assert t[i] == c[i + 1] && NextIn(t, i) == NextIn(c, i + 1);
    }
  }

  lemma ChainCons(nodes: seq<Waiter>, head: nat, c: seq<nat>, w: nat, v: Waiter)
    requires ChainAt(nodes, head, c) && w < |nodes| && w !in c && v.next == head
    ensures ChainAt(nodes[w := v], w, [w] + c)
  {
    var d, nodes' := [w] + c, nodes[w := v];
    forall i | 0 <= i < |d| ensures d[i] < |nodes'| && nodes'[d[i]].next == NextIn(d, i) {
      if i > 0 { assert d[i] == c[i - 1] && NextIn(d, i) == NextIn(c, i - 1); }
    }
  }

  lemma ChainEnd(nodes: seq<Waiter>, head: nat, c: seq<nat>)
    requires ChainAt(nodes, head, c) && |nodes| <= NIL
    ensures head == NIL <==> c == []
  {
  }

  lemma PushKeeps(a: Arena, s: nat, reqId: nat, dst: nat, off: nat)
    requires ArenaOk(a) && s < |a.chains| && a.free != []
    ensures a.free[0] < |a.nodes| && a.wfree == a.free[0]
    ensures ArenaOk(PushWaiter(a, s, reqId, dst, off))
  {
    hide ChainAt, Owns;
    assert SlotChainOk(a, s);
    ChainTail(a.nodes, a.wfree, a.free);
    OwnsTail(a.own, -1, a.free, s);
    OwnsAt(a.own, -1, a.free, 0);
    var w, b := a.free[0], PushWaiter(a, s, reqId, dst, off);
    OwnsApart(a.own, s, a.chains[s], w);
    ChainFrame(a.nodes, a.nodes[w].next, a.free[1..], w, b.nodes[w]);
    ChainCons(a.nodes, a.heads[s], a.chains[s], w, b.nodes[w]);
    OwnsCons(a.own, s, a.chains[s], w);
    forall t | 0 <= t < |b.chains| ensures SlotChainOk(b, t) {
      assert SlotChainOk(a, t);
      if t != s {
        OwnsFrame(a.own, t, a.chains[t], w, s);
        ChainFrame(a.nodes, a.heads[t], a.chains[t], w, b.nodes[w]);
      }
    }
  }

  lemma OwnsAt(own: seq<int>, o: int, c: seq<nat>, i: nat)
    requires Owns(own, o, c) && i < |c|
    ensures c[i] < |own| && own[c[i]] == o
  {
  }

  lemma OwnsApart(own: seq<int>, o: int, c: seq<nat>, w: nat)
    requires Owns(own, o, c) && w < |own| && own[w] != o
    ensures w !in c
  {
  }

  /** One turn of waiter_free_chain: the head of slot s's chain goes back to the free list. */
  function PopWaiter(a: Arena, s: nat): Arena
    requires s < |a.heads| && s < |a.chains| && a.chains[s] != [] && a.heads[s] < |a.nodes| && a.heads[s] < |a.own|
  {
    var w := a.heads[s];
    Arena(a.nodes[w := a.nodes[w].(next := a.wfree)], w, [w] + a.free,
          a.heads[s := a.nodes[w].next], a.chains[s := a.chains[s][1..]], a.own[w := -1])
  }

  lemma PopKeeps(a: Arena, s: nat)
    requires ArenaOk(a) && s < |a.chains| && a.chains[s] != []
    ensures a.heads[s] == a.chains[s][0] < |a.nodes| && ArenaOk(PopWaiter(a, s))
  {
    hide ChainAt, Owns;
    assert SlotChainOk(a, s);
    ChainTail(a.nodes, a.heads[s], a.chains[s]);
    OwnsAt(a.own, s, a.chains[s], 0);
    var w, b := a.heads[s], PopWaiter(a, s);
    OwnsTail(a.own, s, a.chains[s], -1);
    OwnsApart(a.own, -1, a.free, w);
    ChainFrame(a.nodes, a.nodes[w].next, a.chains[s][1..], w, b.nodes[w]);
    ChainCons(a.nodes, a.wfree, a.free, w, b.nodes[w]);
    OwnsCons(a.own, -1, a.free, w);
    forall t | 0 <= t < |b.chains| ensures SlotChainOk(b, t) {
      assert SlotChainOk(a, t);
      if t != s {
        OwnsFrame(a.own, t, a.chains[t], w, -1);
        ChainFrame(a.nodes, a.heads[t], a.chains[t], w, b.nodes[w]);
      }
    }
  }

  // ---- pending slots ----

  /** Where a slot is: on the free stack, with the backend, on the done list, held for the
      GPU, or on its way back to the issuer. */
  datatype Place = OnStack | AtBackend | OnDone | OnHeld | OnReturn

  /** How far a slot is from the free stack. */
  function StepsHome(p: Place): nat {
    match p
    case OnStack => 0
    case OnReturn => 1
    case OnHeld => 2
    case OnDone => 3
    case AtBackend => 4
  }

  function Travel(place: seq<Place>): nat {
    if place == [] then 0 else Travel(place[..|place| - 1]) + StepsHome(place[|place| - 1])
  }

  lemma {:induction false} TravelSet(place: seq<Place>, s: nat, p: Place)
    requires s < |place|
    ensures Travel(place[s := p]) + StepsHome(place[s]) == Travel(place) + StepsHome(p)
  {
    var n := |place| - 1;
    assert place[s := p][..n] == if s < n then place[..n][s := p] else place[..n];
    if s < n { TravelSet(place[..n], s, p); }
  }

  lemma {:induction false} AllHome(place: seq<Place>)
    requires forall s :: 0 <= s < |place| ==> place[s] == OnStack
    ensures Travel(place) == 0
  {
    if place != [] { AllHome(place[..|place| - 1]); }
  }

  lemma {:induction false} NoneAway(place: seq<Place>, s: nat)
    requires s < |place| && Travel(place) == 0
    ensures place[s] == OnStack
  {
    if s < |place| - 1 { NoneAway(place[..|place| - 1], s); }
  }

  ghost predicate Lists(place: seq<Place>, p: Place, l: seq<nat>) {
    && NoDup(l)
    && (forall i :: 0 <= i < |l| ==> l[i] < |place| && place[l[i]] == p)
    && (forall s :: 0 <= s < |place| && place[s] == p ==> s in l)
  }

  /** The state word agrees with the place, and its generation with the number of uses. */
  ghost predicate WordOk(p: Place, gs: nat, uses: nat) {
    match p
    case OnStack => gs == GsMake(uses, FREE)
    case AtBackend => gs == GsMake(uses, ISSUED)
    case _ => gs == GsMake(uses, DONE) || gs == GsMake(uses, ERROR)
  }

  /** co_pend_page: the page, its chain of waiters, when it was issued, the GPU watermark, and
      the word of generation and state. */
  datatype PendPage = PendPage(tag: nat, first: nat, issueNs: nat, wm: nat, gs: nat)

  datatype Slots = Slots(pend: seq<PendPage>, stack: seq<nat>, done: seq<nat>, held: seq<nat>, ret: seq<nat>,
                         place: seq<Place>, uses: seq<nat>)

  ghost predicate SlotsOk(q: Slots) {
    && |q.pend| == |q.place| == |q.uses| <= 0x1_0000
    && Lists(q.place, OnStack, q.stack) && Lists(q.place, OnDone, q.done)
    && Lists(q.place, OnHeld, q.held) && Lists(q.place, OnReturn, q.ret)
    && forall s :: 0 <= s < |q.pend| ==> WordOk(q.place[s], q.pend[s].gs, q.uses[s])
  }

  lemma ListsFrame(place: seq<Place>, p: Place, l: seq<nat>, s: nat, p': Place)
    requires Lists(place, p, l) && s < |place| && place[s] != p && p' != p
    ensures Lists(place[s := p'], p, l)
  {
  }

  lemma ListsAppend(place: seq<Place>, p: Place, l: seq<nat>, s: nat)
    requires Lists(place, p, l) && s < |place| && place[s] != p
    ensures Lists(place[s := p], p, l + [s])
  {
    var a, q := l + [s], place[s := p];
    forall t | 0 <= t < |place| && q[t] == p ensures t in a {
      if t != s {
        var i :| 0 <= i < |l| && l[i] == t;
        assert a[i] == t;
      } else {
        assert a[|l|] == t;
      }
    }
  }

  lemma ListsPush(place: seq<Place>, p: Place, l: seq<nat>, s: nat)
    requires Lists(place, p, l) && s < |place| && place[s] != p
    ensures Lists(place[s := p], p, [s] + l)
  {
    var b, q := [s] + l, place[s := p];
    assert forall i :: 1 <= i < |b| ==> b[i] == l[i - 1];
    forall t | 0 <= t < |place| && q[t] == p ensures t in b {
      if t != s {
        var i :| 0 <= i < |l| && l[i] == t;
        assert b[i + 1] == t;
      } else {
        assert b[0] == t;
      }
    }
  }

  lemma ListsDrop(place: seq<Place>, p: Place, l: seq<nat>, p': Place)
    requires Lists(place, p, l) && l != [] && p' != p
    ensures l[|l| - 1] < |place| && Lists(place[l[|l| - 1] := p'], p, l[..|l| - 1])
    ensures l[0] < |place| && Lists(place[l[0] := p'], p, l[1..])
  {
    var n := |l| - 1;
    var z, t := l[..n], l[1..];
    forall s | 0 <= s < |place| && place[l[n] := p'][s] == p ensures s in z {
      var i :| 0 <= i < |l| && l[i] == s;
      assert z[i] == s;
    }
    assert forall i :: 0 <= i < |t| ==> t[i] == l[i + 1];
    forall s | 0 <= s < |place| && place[l[0] := p'][s] == p ensures s in t {
      var i :| 0 <= i < |l| && l[i] == s;
      assert t[i - 1] == s;
    }
  }

  /** pend_alloc: the top of the stack is armed for a page, its generation bumped. */
  function Arm(q: Slots, tag: nat, now: nat): Slots
    requires q.stack != [] && q.stack[|q.stack| - 1] < |q.pend| && |q.pend| == |q.place| == |q.uses|
  {
    var n := |q.stack| - 1;
    var s := q.stack[n];
    q.(stack := q.stack[..n],
       pend := q.pend[s := PendPage(tag, NIL, now, q.pend[s].wm, GsMake(GsGen(q.pend[s].gs) + 1, ISSUED))],
       place := q.place[s := AtBackend], uses := q.uses[s := q.uses[s] + 1])
  }

  lemma GenNext(uses: nat)
    ensures GsMake(uses % GEN_MOD + 1, ISSUED) == GsMake(uses + 1, ISSUED)
  {
  }

  lemma ArmKeeps(q: Slots, tag: nat, now: nat)
    requires SlotsOk(q) && q.stack != []
    ensures q.stack[|q.stack| - 1] < |q.pend| && q.place[q.stack[|q.stack| - 1]] == OnStack && SlotsOk(Arm(q, tag, now))
  {
    var s := q.stack[|q.stack| - 1];
    assert q.place[s] == OnStack && WordOk(q.place[s], q.pend[s].gs, q.uses[s]);
    hide Lists, GsMake, GsGen;
    GsRoundTrip(q.uses[s], FREE);
    GenNext(q.uses[s]);
    ListsDrop(q.place, OnStack, q.stack, AtBackend);
    ListsFrame(q.place, OnDone, q.done, s, AtBackend);
    ListsFrame(q.place, OnHeld, q.held, s, AtBackend);
    ListsFrame(q.place, OnReturn, q.ret, s, AtBackend);
  }

  /** A completion or a timeout: the slot leaves the backend for the done list. */
  function Finish(q: Slots, s: nat, st: PendState): Slots
    requires s < |q.pend| && s < |q.place| && s < |q.uses|
  {
    q.(done := [s] + q.done, pend := q.pend[s := q.pend[s].(gs := GsMake(GsGen(q.pend[s].gs), st))],
       place := q.place[s := OnDone])
  }

  lemma FinishKeeps(q: Slots, s: nat, st: PendState)
    requires SlotsOk(q) && s < |q.pend| && q.place[s] == AtBackend && (st == DONE || st == ERROR)
    ensures SlotsOk(Finish(q, s, st)) && Finish(q, s, st).pend[s].gs == GsMake(q.uses[s], st)
  {
    assert WordOk(q.place[s], q.pend[s].gs, q.uses[s]);
    GsRoundTrip(q.uses[s], ISSUED);
    assert GsMake(q.uses[s] % GEN_MOD, st) == GsMake(q.uses[s], st);
    hide Lists, GsMake, GsGen;
    ListsPush(q.place, OnDone, q.done, s);
    ListsFrame(q.place, OnStack, q.stack, s, OnDone);
    ListsFrame(q.place, OnHeld, q.held, s, OnDone);
    ListsFrame(q.place, OnReturn, q.ret, s, OnDone);
  }

  /** pend_free: back on the stack, generation kept. */
  function Free(q: Slots, s: nat): Slots
    requires s < |q.pend| && s < |q.place|
  {
    q.(stack := q.stack + [s], pend := q.pend[s := q.pend[s].(gs := GsMake(GsGen(q.pend[s].gs), FREE))],
       place := q.place[s := OnStack])
  }

  lemma FreeWord(p: Place, gs: nat, uses: nat)
    requires WordOk(p, gs, uses)
    ensures GsMake(GsGen(gs), FREE) == GsMake(uses, FREE)
  {
    GsRoundTrip(uses, FREE);
    GsRoundTrip(uses, ISSUED);
    GsRoundTrip(uses, DONE);
    GsRoundTrip(uses, ERROR);
  }

  /** -EAGAIN or a hard error: the slot armed last goes straight back. */
  lemma UndoKeeps(q: Slots, s: nat)
    requires SlotsOk(q) && s < |q.pend| && q.place[s] == AtBackend
    ensures SlotsOk(Free(q, s))
  {
    FreeWord(q.place[s], q.pend[s].gs, q.uses[s]);
    hide Lists, GsMake, GsGen;
    ListsAppend(q.place, OnStack, q.stack, s);
    ListsFrame(q.place, OnDone, q.done, s, OnStack);
    ListsFrame(q.place, OnHeld, q.held, s, OnStack);
    ListsFrame(q.place, OnReturn, q.ret, s, OnStack);
  }

  /** co_reap's end for the first slot of the done list: held for the GPU, or handed back. */
  function Reaped(q: Slots, gpuPull: bool, wm: nat): Slots
    requires q.done != [] && q.done[0] < |q.place| && q.done[0] < |q.pend|
  {
    var s := q.done[0];
    if gpuPull then q.(done := q.done[1..], held := [s] + q.held, pend := q.pend[s := q.pend[s].(wm := wm)],
                       place := q.place[s := OnHeld])
    else q.(done := q.done[1..], ret := [s] + q.ret, place := q.place[s := OnReturn])
  }

  lemma ReapedKeeps(q: Slots, gpuPull: bool, wm: nat)
    requires SlotsOk(q) && q.done != []
    ensures q.done[0] < |q.place| && q.place[q.done[0]] == OnDone && SlotsOk(Reaped(q, gpuPull, wm))
  {
    var s, p := q.done[0], if gpuPull then OnHeld else OnReturn;
    assert s < |q.place| && q.place[s] == OnDone && WordOk(q.place[s], q.pend[s].gs, q.uses[s]);
    hide Lists, GsMake, GsGen;
    ListsDrop(q.place, OnDone, q.done, p);
    ListsFrame(q.place, OnStack, q.stack, s, p);
    if gpuPull {
      ListsPush(q.place, OnHeld, q.held, s);
      ListsFrame(q.place, OnReturn, q.ret, s, p);
    } else {
      ListsPush(q.place, OnReturn, q.ret, s);
      ListsFrame(q.place, OnHeld, q.held, s, p);
    }
  }

  /** co_drain_returns for the first slot handed back. */
  function Drained(q: Slots): Slots
    requires q.ret != [] && q.ret[0] < |q.place| && q.ret[0] < |q.pend|
  {
    Free(q.(ret := q.ret[1..]), q.ret[0])
  }

  lemma DrainedKeeps(q: Slots)
    requires SlotsOk(q) && q.ret != []
    ensures q.ret[0] < |q.place| && q.place[q.ret[0]] == OnReturn && SlotsOk(Drained(q))
  {
    var s := q.ret[0];
    assert s < |q.place| && q.place[s] == OnReturn && WordOk(q.place[s], q.pend[s].gs, q.uses[s]);
    FreeWord(q.place[s], q.pend[s].gs, q.uses[s]);
    hide Lists, GsMake, GsGen;
    ListsDrop(q.place, OnReturn, q.ret, OnStack);
    ListsAppend(q.place, OnStack, q.stack, s);
    ListsFrame(q.place, OnDone, q.done, s, OnStack);
    ListsFrame(q.place, OnHeld, q.held, s, OnStack);
  }

  /** co_gpu_reclaim for the i-th held slot. */
  function Reclaimed(q: Slots, i: nat): Slots
    requires i < |q.held| && q.held[i] < |q.place|
  {
    var s := q.held[i];
    q.(held := q.held[..i] + q.held[i + 1..], ret := [s] + q.ret, place := q.place[s := OnReturn])
  }

  lemma ListsRemove(place: seq<Place>, p: Place, l: seq<nat>, i: nat, p': Place)
    requires Lists(place, p, l) && i < |l| && p' != p
    ensures l[i] < |place| && Lists(place[l[i] := p'], p, l[..i] + l[i + 1..])
  {
    hide NoDup;
    LeftOut(l, i);
    var r := l[..i] + l[i + 1..];
    forall j | 0 <= j < |r| ensures r[j] < |place| && place[l[i] := p'][r[j]] == p { assert r[j] in r; }
  }

  /** What is left when the i-th of distinct entries is taken out. */
  lemma LeftOut(l: seq<nat>, i: nat)
    requires NoDup(l) && i < |l|
    ensures var r := l[..i] + l[i + 1..]; NoDup(r) && forall s :: s in r <==> s in l && s != l[i]
  {
    var r := l[..i] + l[i + 1..];
    assert forall j :: 0 <= j < |r| ==> r[j] == if j < i then l[j] else l[j + 1];
    forall s | s in l && s != l[i] ensures s in r {
      var j :| 0 <= j < |l| && l[j] == s;
      assert r[if j < i then j else j - 1] == s;
    }
  }

  lemma ReclaimedKeeps(q: Slots, i: nat)
    requires SlotsOk(q) && i < |q.held|
    ensures q.held[i] < |q.place| && q.place[q.held[i]] == OnHeld && SlotsOk(Reclaimed(q, i))
  {
    var s := q.held[i];
    assert s < |q.place| && q.place[s] == OnHeld && WordOk(q.place[s], q.pend[s].gs, q.uses[s]);
    hide Lists, GsMake, GsGen;
    ListsRemove(q.place, OnHeld, q.held, i, OnReturn);
    ListsPush(q.place, OnReturn, q.ret, s);
    ListsFrame(q.place, OnStack, q.stack, s, OnReturn);
    ListsFrame(q.place, OnDone, q.done, s, OnReturn);
  }

  // ---- late and duplicate completions ----

  /** The compare-and-swap of nvmev_co_backend_done succeeds. */
  predicate Accepts(gs: nat, gen: nat) {
    gs == GsMake(gen, ISSUED)
  }

  /** A completion that belongs to use u of a slot, arriving during its c-th use, takes effect
      exactly when the slot is with the backend and the two uses agree modulo 2^16. */
  lemma AcceptsExactly(p: Place, gs: nat, u: nat, c: nat)
    requires WordOk(p, gs, c) && u <= c
    ensures Accepts(gs, u) <==> p == AtBackend && (c - u) % GEN_MOD == 0
  {
    GsEqual(c, FREE, u, ISSUED);
    GsEqual(c, ISSUED, u, ISSUED);
    GsEqual(c, DONE, u, ISSUED);
    GsEqual(c, ERROR, u, ISSUED);
  }

  /** So a completion of an earlier use is ignored while the slot has been rearmed fewer than
      65536 times since. */
  lemma StaleIgnored(p: Place, gs: nat, u: nat, c: nat)
    requires WordOk(p, gs, c) && u < c < u + GEN_MOD
    ensures !Accepts(gs, u)
  {
    AcceptsExactly(p, gs, u, c);
  }
}

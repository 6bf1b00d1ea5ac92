/** The pools of a coalescing shard, updated in place: pending slots with their staging buffers,
    waiters, the done, held and return lists, and the deliveries. A read is issued, completes (or
    times out, or is refused), is reaped and its slot handed back. */
module CoFanout {
  import opened Collections
  import opened CoPools
  import opened CoState
  import opened CoSteps
  import opened CoSort
  import opened CoCount

  datatype SortMode = Radix | Comparison | Hashed | Bucketed

  /** The parameters a run holds fixed. */
  datatype Config = Config(
    z: Store, gpuPull: bool, sync: bool, noMerge: bool, sort: SortMode, window: nat, flushMin: nat, flushNs: nat,
    timeoutNs: nat, entries: nat, buckets: nat, bucketCap: nat, bucketShift: nat, mapped: nat -> bool)

  predicate ConfigOk(c: Config) {
    && StoreOk(c.z) && 0 < c.entries <= 0x4000_0000 && !(c.sync && c.gpuPull)
    && c.window <= c.entries && 0 < c.buckets && 2 <= c.bucketCap && c.bucketShift < 32
  }

  type Node = x: nat | x < 0x1_0000_0000

  /** A request as the ring carries it: 32-bit nodes. */
  datatype Req = Req(reqId: nat, node: Node, dst: nat)

  /** What a backend answers to a read. */
  datatype Answer = Accepted | Again | Refused

  function InitWaiter(i: nat, n: nat): Waiter {
    Waiter(0, 0, 0, if i + 1 < n then i + 1 else NIL)
  }

  /** After allocation: n slots on the stack, m waiters chained free. */
  ghost function InitSlots(n: nat): (q: Slots)
    ensures |q.pend| == |q.place| == |q.uses| == |q.stack| == n && q.done == q.held == q.ret == []
    ensures forall s :: 0 <= s < n ==> q.pend[s] == PendPage(0, 0, 0, 0, 0) && q.stack[s] == s && q.place[s] == OnStack
                                       && q.uses[s] == 0
  {
    Slots(seq(n, i => PendPage(0, 0, 0, 0, 0)), seq(n, i => i), [], [], [], seq(n, i => OnStack), seq(n, i => 0))
  }

  ghost function InitArena(n: nat, m: nat): (a: Arena)
    ensures |a.nodes| == |a.own| == |a.free| == m && |a.heads| == |a.chains| == n && a.wfree == 0
    ensures forall w :: 0 <= w < m ==> a.nodes[w] == InitWaiter(w, m) && a.free[w] == w && a.own[w] == -1
    ensures forall s :: 0 <= s < n ==> a.heads[s] == NIL && a.chains[s] == []
  {
    Arena(seq(m, i requires 0 <= i => InitWaiter(i, m)), 0, seq(m, i => i), seq(n, i => NIL), seq(n, i => []),
          seq(m, i => -1))
  }

  ghost function InitPool(n: nat, m: nat): (v: Pool)
    ensures v.q == InitSlots(n) && v.a == InitArena(n, m) && v.wfreeN == m && |v.wjob| == m
            && |v.staging| == |v.due| == n
    ensures forall s :: 0 <= s < n ==> v.staging[s] == [] && v.due[s] == multiset{}
  {
    Pool(InitSlots(n), InitArena(n, m), seq(n, i => []), m, seq(m, i => Ent(0, 0, 0, 0)), seq(n, i => multiset{}))
  }

  lemma InitSlotsOk(n: nat)
    requires 0 < n <= 0x1_0000
    ensures SlotsOk(InitSlots(n))
  {
    hide InitSlots;
    var q := InitSlots(n);
    forall s | 0 <= s < n ensures s in q.stack { assert q.stack[s] == s; }
    assert GsMake(0, FREE) == 0;
  }

  lemma InitArenaOk(n: nat, m: nat)
    requires 0 < m <= NIL
    ensures ArenaOk(InitArena(n, m))
  {
    hide InitArena;
    var a := InitArena(n, m);
    forall w | 0 <= w < m ensures w in a.free { assert a.free[w] == w; }
    forall s | 0 <= s < n ensures SlotChainOk(a, s) { assert a.chains[s] == []; }
  }

  lemma InitPoolOk(z: Store, n: nat, m: nat)
    requires StoreOk(z) && 0 < n <= 0x1_0000 && 0 < m <= NIL
    ensures PoolOk(z, InitPool(n, m), -1)
  {
    hide InitSlots, InitArena, SlotsOk, ArenaOk;
    InitSlotsOk(n);
    InitArenaOk(n, m);
  }

  lemma InitGpu(v: Pool)
    requires |v.q.pend| == |v.q.place| == |v.staging| && forall s :: 0 <= s < |v.q.place| ==> v.q.place[s] == OnStack
    ensures GpuPool(v, [], 0, 0, -1)
  {
  }

  /** The run at i is of well-formed requests for one page. */
  ghost predicate RunOf(z: Store, win: seq<Ent>, i: nat, run: nat) {
    i + run <= |win| && forall j :: i <= j < i + run ==> EntOk(z, win[j]) && win[j].tag == win[i].tag
  }

  class Pools {
    const cfg: Config
    const id: nat
    const pend: array<PendPage>
    const pendFree: array<nat>
    const staging: array<seq<int>>
    const warena: array<Waiter>
    var pendFreeN: nat
    var wfree: nat
    var wfreeN: nat
    var doneList: seq<nat>
    var gpuHeld: seq<nat>
    var pendReturn: seq<nat>
    var lastScanNs: nat
    /** Completions posted, or descriptors published, and how many the GPU has consumed. */
    var out: seq<Delivery>
    var tail: nat

    ghost var place: seq<Place>
    ghost var uses: seq<nat>
    ghost var free: seq<nat>
    ghost var heads: seq<nat>
    ghost var chains: seq<seq<nat>>
    ghost var own: seq<int>
    ghost var wjob: seq<Ent>
    ghost var due: seq<multiset<Ent>>
    ghost var outJobs: seq<Ent>
    /** No page is held behind a watermark older than this. */
    ghost var mark: nat

    /** co_shard_pools_alloc: all slots and all waiters free. */
    constructor (c: Config, shard: nat, pendCap: nat)
      requires ConfigOk(c) && 0 < pendCap <= 0x1_0000
      ensures cfg == c && id == shard && Kept() && fresh(Footprint()) && pendFreeN == pend.Length == pendCap
      ensures warena.Length == 2 * c.entries && out == [] && outJobs == [] && mark == 0 && Served() == multiset{}
    {
      hide Kept, Served, InitPool, InitSlots, InitArena, InitWaiter, StoreOk;
      cfg, id := c, shard;
      pend := new PendPage[pendCap](i => PendPage(0, 0, 0, 0, 0));
      pendFree := new nat[pendCap](i => i);
      staging := new seq<int>[pendCap](i => []);
      warena := new Waiter[2 * c.entries](i => InitWaiter(i, 2 * c.entries));
      pendFreeN, wfree, wfreeN, lastScanNs, tail := pendCap, 0, 2 * c.entries, 0, 0;
      doneList, gpuHeld, pendReturn, out, outJobs, mark := [], [], [], [], [], 0;
      ghost var v := InitPool(pendCap, 2 * c.entries);
      place, uses, due := v.q.place, v.q.uses, v.due;
      free, heads, chains, own, wjob := v.a.free, v.a.heads, v.a.chains, v.a.own, v.wjob;
      new;
      assert pendFree[..pendFreeN] == v.q.stack && pend[..] == v.q.pend && staging[..] == v.staging
             && warena[..] == v.a.nodes;
      StartsKept(pendCap);
    }

    /** Freshly allocated, the pools are sound and owe nothing. */
    lemma StartsKept(pendCap: nat)
      requires Shaped() && 0 < pendCap <= 0x1_0000 && out == [] && outJobs == [] && tail == mark == 0
      requires PoolV() == InitPool(pendCap, 2 * cfg.entries)
      ensures Kept() && Served() == multiset{}
    {
      hide PoolOk, Sum, InitSlots, InitArena, GpuPool, StoreOk;
      InitPoolOk(cfg.z, pendCap, 2 * cfg.entries);
      InitGpu(PoolV());
      SumEmpty(due);
    }

    /** Everything the pools keep in memory. */
    ghost function Footprint(): set<object> {
      {this, pend, pendFree, warena, staging}
    }

    ghost function SlotsV(): Slots
      reads `pendFreeN, `doneList, `gpuHeld, `pendReturn, `place, `uses, pend, pendFree
    {
      Slots(pend[..], if pendFreeN <= pendFree.Length then pendFree[..pendFreeN] else [], doneList, gpuHeld,
            pendReturn, place, uses)
    }

    ghost function ArenaV(): Arena
      reads `wfree, `free, `heads, `chains, `own, warena
    {
      Arena(warena[..], wfree, free, heads, chains, own)
    }

    /** The pool this shard stands for. */
    ghost function PoolV(): Pool
      reads `pendFreeN, `doneList, `gpuHeld, `pendReturn, `place, `uses, `wfree, `free, `heads, `chains, `own, `wfreeN,
            `wjob, `due
      reads pend, pendFree, warena, staging
    {
      Pool(SlotsV(), ArenaV(), staging[..], wfreeN, wjob, due)
    }

    ghost predicate Shaped()
      reads `pendFreeN
    {
      ConfigOk(cfg) && 0 < pend.Length && pendFreeN <= pendFree.Length == pend.Length == staging.Length
    }

    ghost predicate Gpu(skip: int)
      reads `pendFreeN, `doneList, `gpuHeld, `pendReturn, `place, `uses, `wfree, `free, `heads, `chains, `own, `wfreeN,
            `wjob, `due
      reads `out, `tail, `mark, pend, pendFree, warena, staging
    {
      if cfg.gpuPull then GpuPool(PoolV(), out, tail, mark, skip) else gpuHeld == []
    }

    /** Ring room: what the GPU has not consumed fits the ring. */
    ghost predicate Room()
      reads `out, `tail
    {
      tail <= |out| <= tail + cfg.entries
    }

    /** Nothing delivered is taken back or changed, and the tail moves forward only while something
        is delivered. */
    twostate predicate Onward()
      reads `out, `tail, `outJobs
    {
      && old(out) <= out && old(outJobs) <= outJobs
      && old(tail) <= tail && (|out| == |old(out)| ==> tail == old(tail))
    }

    /** The slots are no farther from the free stack than before. */
    twostate predicate Homeward()
      reads `place
    {
      Travel(place) <= old(Travel(place)) && (AtBackend !in old(place) ==> AtBackend !in place)
    }

    /** At most slot s was moved or written. */
    twostate predicate OnlySlot(s: nat)
      reads pend, `place
    {
      |place| == |old(place)| == pend.Length && forall t :: 0 <= t < pend.Length && t != s ==>
                                                  pend[t] == old(pend[t]) && place[t] == old(place[t])
    }

    /** Something is with the backend, or finished and not delivered. */
    ghost predicate Reading()
      reads `place, `doneList
    {
      doneList != [] || AtBackend in place
    }

    // ---- pool allocators ----

    /** pend_alloc. */
    method PendAlloc(tag: nat, now: nat) returns (s: nat)
      requires Shaped() && pendFreeN > 0 && pendFree[pendFreeN - 1] < pend.Length == |place| == |uses|
      modifies pend, `pendFreeN, `place, `uses
      ensures Shaped() && pendFreeN == old(pendFreeN) - 1 && s == old(pendFree[pendFreeN - 1])
      ensures old(PoolV()).q.stack != [] && s == Top(old(PoolV()).q) && PoolV() == ArmPool(old(PoolV()), tag, now)
      ensures place == old(place)[s := AtBackend] && OnlySlot(s) && pend[s].tag == tag && pend[s].issueNs == now
    {
      hide GsMake, GsGen, ArenaV;
      ghost var v := PoolV();
      pendFreeN := pendFreeN - 1;
      s := pendFree[pendFreeN];
      assert s == Top(v.q);
      pend[s] := PendPage(tag, NIL, now, pend[s].wm, GsMake(GsGen(pend[s].gs) + 1, ISSUED));
      place, uses := place[s := AtBackend], uses[s := uses[s] + 1];
    }

    method ArmSlot(tag: nat, now: nat) returns (s: nat)
      requires Shaped() && pendFreeN > 0 && PoolOk(cfg.z, PoolV(), -1) && Gpu(-1)
      modifies pend, `pendFreeN, `place, `uses
      ensures Shaped() && pendFreeN == old(pendFreeN) - 1 && s < pend.Length
      ensures PoolOk(cfg.z, PoolV(), s) && Built(cfg.z, PoolV(), s, tag, multiset{}) && Gpu(-1)
      ensures Travel(place) == old(Travel(place)) + 4 && OnlySlot(s) && old(place)[s] == OnStack
      ensures place[s] == AtBackend && pend[s].issueNs == now
    {
      hide PoolOk, Built, GpuPool, ArmPool, Travel;
      ghost var v := PoolV();
      ArmPoolKeeps(cfg.z, v, tag, now);
      TopPlace(cfg.z, v);
      TravelSet(place, Top(v.q), AtBackend);
      if cfg.gpuPull { ArmGpu(cfg.z, v, tag, now, out, tail, mark); }
      s := PendAlloc(tag, now);
    }

    /** waiter_alloc, the record filled in with its link. */
    method TakeNode(ghost s: nat, e: Ent, off: nat, link: nat) returns (wi: nat)
      requires wfreeN > 0 && free != [] && wfree == free[0] < warena.Length == |own| == |wjob|
      requires s < |heads| && s < |chains| && link == heads[s]
      modifies warena, `wfree, `wfreeN, `free, `heads, `chains, `own, `wjob
      ensures wfreeN == old(wfreeN) - 1 && wi == old(free[0]) < old(|wjob|) && wjob == old(wjob)[wi := e]
      ensures ArenaV() == PushWaiter(old(ArenaV()), s, e.reqId, e.dst, off)
    {
      wi := wfree;
      wfree := warena[wi].next;
      wfreeN := wfreeN - 1;
      warena[wi] := Waiter(e.reqId, e.dst, off, link);
      free, heads, chains, own, wjob :=
        free[1..], heads[s := wi], chains[s := [wi] + chains[s]], own[wi := s], wjob[wi := e];
    }

    /** The new node becomes the front of slot s's chain. */
    method PushNode(s: nat, e: Ent, off: nat)
      requires Shaped() && s < pend.Length && wfreeN > 0 && free != []
               && wfree == free[0] < warena.Length == |own| == |wjob|
      requires s < |heads| && s < |chains| && pend[s].first == heads[s]
      modifies pend, warena, `wfree, `wfreeN, `free, `heads, `chains, `own, `wjob
      ensures Shaped() && wfreeN == old(wfreeN) - 1
      ensures old(s < |heads| && s < |chains| && free != [] && free[0] < warena.Length == |own| == |wjob|)
      ensures PoolV() == AddPool(old(PoolV()), s, e, off) && pend[s].issueNs == old(pend[s].issueNs)
      ensures forall t :: 0 <= t < pend.Length && t != s ==> pend[t] == old(pend[t])
    {
      hide PushWaiter;
      var wi := TakeNode(s, e, off, pend[s].first);
      pend[s] := pend[s].(first := wi);
    }

    /** A waiter for e joins slot s's chain. */
    method AddWaiter(s: nat, e: Ent, ghost tag: nat, ghost jobs: multiset<Ent>)
      requires Shaped() && s < pend.Length && wfreeN > 0 && EntOk(cfg.z, e) && e.tag == tag
      requires PoolOk(cfg.z, PoolV(), s) && Built(cfg.z, PoolV(), s, tag, jobs) && Gpu(-1)
      modifies pend, warena, `wfree, `wfreeN, `free, `heads, `chains, `own, `wjob
      ensures Shaped() && PoolOk(cfg.z, PoolV(), s) && Built(cfg.z, PoolV(), s, tag, jobs + multiset{e}) && Gpu(-1)
      ensures wfreeN == old(wfreeN) - 1 && OnlySlot(s) && pend[s].issueNs == old(pend[s].issueNs)
    {
      hide PoolOk, Built, GpuPool, AddPool;
      ghost var v := PoolV();
      FreeCount(cfg.z, v, s);
      BuiltAt(cfg.z, v, s, tag, jobs);
      AddPoolKeeps(cfg.z, v, s, tag, jobs, e);
      if cfg.gpuPull { AddGpu(v, s, e, OffOf(cfg.z, e.node), out, tail, mark); }
      PushNode(s, e, e.node * cfg.z.row % cfg.z.page);
    }

    /** One turn of waiter_free_chain. */
    method FreeNode(h: nat, ghost s: nat) returns (nxt: nat)
      requires Shaped() && s < |heads| && s < |chains| && chains[s] != [] && h == heads[s] < warena.Length == |own|
      modifies warena, `wfree, `wfreeN, `free, `heads, `chains, `own
      ensures Shaped() && |heads| == old(|heads|) && s < |heads| && nxt == heads[s] && |chains| == old(|chains|)
              && |chains[s]| < old(|chains[s]|)
      ensures old(chains[s] != [] && heads[s] < warena.Length == |own|) && PoolV() == FreePool(old(PoolV()), s)
    {
      nxt := warena[h].next;
      warena[h] := warena[h].(next := wfree);
      free, heads, chains, own := [h] + free, heads[s := nxt], chains[s := chains[s][1..]], own[h := -1];
      wfree := h;
      wfreeN := wfreeN + 1;
    }

    /** waiter_free_chain from the head of slot s's chain. */
    method FreeChain(head: nat, ghost s: nat)
      requires Shaped() && s < |chains| && s < |heads| && PoolOk(cfg.z, PoolV(), s) && Gpu(-1) && head == heads[s]
      modifies warena, `wfree, `wfreeN, `free, `heads, `chains, `own
      ensures Shaped() && PoolOk(cfg.z, PoolV(), s) && Gpu(-1) && s < |chains| && chains[s] == []
    {
      hide PoolOk, FreePool, GpuOk, PoolV;
      var h := head;
      HeadHere(s);
      while h != NIL
        invariant Shaped() && s < |chains| && s < |heads| && h == heads[s] && (h == NIL <==> chains[s] == [])
        invariant PoolOk(cfg.z, PoolV(), s) && Gpu(-1)
        decreases |chains[s]|
      {
        HeadHere(s);
        FreePoolKeeps(cfg.z, PoolV(), s);
        FreeGpu(PoolV(), s, out, tail, mark);
        h := FreeNode(h, s);
        HeadHere(s);
      }
    }

    lemma HeadHere(s: nat)
      requires Shaped() && PoolOk(cfg.z, PoolV(), s) && s < |chains|
      ensures PoolV().a.heads == heads && PoolV().a.chains == chains && PoolV().a.nodes == warena[..]
              && PoolV().a.own == own
      ensures |heads| == |chains| && (heads[s] == NIL <==> chains[s] == [])
      ensures chains[s] != [] ==> heads[s] == chains[s][0] < warena.Length == |own|
    {
      hide PoolOk;
      HeadOf(cfg.z, PoolV(), s);
    }

    method PushFree(s: nat)
      requires Shaped() && s < pend.Length == |place| && pendFreeN < pendFree.Length
      modifies pend, pendFree, `pendFreeN, `place
      ensures Shaped() && old(s < |place|) && PoolV() == UndoPool(old(PoolV()), s) && place == old(place)[s := OnStack]
      ensures OnlySlot(s)
    {
      hide GsMake, GsGen, ArenaV;
      ghost var v := PoolV();
      pend[s] := pend[s].(gs := GsMake(GsGen(pend[s].gs), FREE));
      pendFree[pendFreeN] := s;
      pendFreeN := pendFreeN + 1;
      place := place[s := OnStack];
      assert pendFree[..pendFreeN] == v.q.stack + [s];
    }

    /** pend_free of a slot that never reached the backend, or was served at once. */
    method PendFree(s: nat)
      requires Shaped() && s < pend.Length && PoolOk(cfg.z, PoolV(), s) && Gpu(-1)
      requires s < |place| && place[s] == AtBackend && s < |chains| && chains[s] == [] && s < |due|
               && due[s] == multiset{}
      modifies pend, pendFree, `pendFreeN, `place
      ensures Shaped() && PoolOk(cfg.z, PoolV(), -1) && Gpu(-1) && Travel(place) + 4 == old(Travel(place))
      ensures OnlySlot(s) && place[s] == OnStack
    {
      hide PoolOk, GpuPool, UndoPool, Travel;
      TravelSet(place, s, OnStack);
      ghost var v := PoolV();
      UndoPoolKeeps(cfg.z, v, s);
      StackRoom(cfg.z, v, s);
      if cfg.gpuPull { UndoGpu(v, s, out, tail, mark); }
      PushFree(s);
    }

    /** Takes back a slot's waiters and the slot. */
    method Release(s: nat)
      requires Shaped() && s < pend.Length && PoolOk(cfg.z, PoolV(), s) && Gpu(-1)
      requires s < |chains| && s < |heads| && pend[s].first == heads[s]
      requires s < |place| && place[s] == AtBackend && s < |due| && due[s] == multiset{}
      modifies pend, pendFree, warena, `pendFreeN, `place, `wfree, `wfreeN, `free, `heads, `chains, `own
      ensures Shaped() && PoolOk(cfg.z, PoolV(), -1) && Gpu(-1) && Travel(place) + 4 == old(Travel(place))
      ensures OnlySlot(s) && place[s] == OnStack
    {
      hide PoolOk, GpuPool, Travel;
      FreeChain(pend[s].first, s);
      PendFree(s);
    }

    // ---- delivery ----

    /** Waits for ring room, as the GPU advances its tail, then posts. Never drops. */
    method Post(d: Delivery, ghost e: Ent, ghost skip: int)
      requires Shaped() && Room() && Gpu(skip) && OutOk(cfg.z, cfg.gpuPull, cfg.mapped, out, outJobs)
               && Right(cfg.z, cfg.gpuPull, cfg.mapped, d, e)
      requires cfg.gpuPull && d.status == 0 ==> 0 <= skip < |place| && skip < staging.Length && d.slot == skip
                                                && d.off + |d.data| <= |staging[skip]|
                                                    && staging[skip][d.off..d.off + |d.data|] == d.data
      modifies `out, `tail, `outJobs
      ensures Shaped() && Room() && Gpu(skip) && OutOk(cfg.z, cfg.gpuPull, cfg.mapped, out, outJobs)
      ensures out == old(out) + [d] && outJobs == old(outJobs) + [e] && old(tail) <= tail
    {
      hide OutOk, Right, GpuOk;
      var t: nat :| tail <= t <= |out| && |out| < t + cfg.entries;
      OutAppend(cfg.z, cfg.gpuPull, cfg.mapped, out, outJobs, d, e);
      if cfg.gpuPull {
        if d.status == 0 {
          GpuAppend(out, tail, t, mark, place, pend[..], staging[..], skip, d);
        } else {
          GpuError(PoolV(), out, tail, t, mark, skip, d);
        }
      }
      tail := t;
      out, outJobs := out + [d], outJobs + [e];
    }

    /** Deliveries can go on: the ring, the descriptors and the deliveries so far are sound. */
    ghost predicate Delivering(skip: int)
      reads Footprint()
    {
      Shaped() && Room() && Gpu(skip) && OutOk(cfg.z, cfg.gpuPull, cfg.mapped, out, outJobs)
    }

    /** deliver_row for one waiter of slot s, from its staged page. */
    method DeliverRow(wi: nat, s: nat, st: nat, ghost tag: nat, ghost skip: int)
      requires Delivering(skip) && s < pend.Length && s < |place| && s < staging.Length
               && (cfg.gpuPull && st == 0 ==> skip == s)
      requires wi < warena.Length == |wjob| && NodeMatches(cfg.z, warena[wi], wjob[wi], tag)
      requires st <= 1 && (st == 0 ==> staging[s] == Bytes(cfg.z, tag, cfg.z.page))
      modifies `out, `tail, `outJobs
      ensures Delivering(skip) && |out| == |old(out)| + 1 && out[..|old(out)|] == old(out)
              && outJobs == old(outJobs) + [wjob[wi]] && old(tail) <= tail
      ensures var d, e := out[|old(out)|], wjob[wi];
              && d.slot == s && d.dst == e.dst && Answers(cfg.z, cfg.gpuPull, cfg.mapped, d, e, st)
              && (st == 0 && !cfg.gpuPull && d.dst != 0 && cfg.mapped(d.dst) ==>
                    d.status == 0 && |d.data| == cfg.z.row
                    && forall k :: 0 <= k < cfg.z.row ==> d.data[k] == cfg.z.mem(e.node * cfg.z.row + k))
    {
      hide OutOk, GpuPool, NodeMatches, Deliver, PoolV, Bytes, StoreOk;
      DeliverRight(cfg.z, cfg.gpuPull, cfg.mapped, warena[wi], s, staging[s], st, wjob[wi], tag);
      Post(Deliver(cfg.z, cfg.gpuPull, cfg.mapped, warena[wi], s, staging[s], st), wjob[wi], skip);
    }

    /** Every waiter of slot s is delivered, in chain order. */
    method DeliverChain(s: nat, st: nat, ghost tag: nat, ghost skip: int)
      requires Delivering(skip) && s < pend.Length && s < |chains| && s < |place| && s < staging.Length
               && (cfg.gpuPull && st == 0 ==> skip == s)
      requires ChainAt(warena[..], pend[s].first, chains[s]) && warena.Length <= NIL
      requires ChainMatches(cfg.z, warena[..], wjob, tag, chains[s])
               && st <= 1 && (st == 0 ==> staging[s] == Bytes(cfg.z, tag, cfg.z.page))
      modifies `out, `tail, `outJobs
      ensures Delivering(skip) && outJobs == old(outJobs) + JobSeq(wjob, chains[s])
      ensures Onward() && Report(cfg.z, cfg.gpuPull, cfg.mapped, out, outJobs, |old(out)|, s, st)
    {
      hide Delivering, NodeMatches, Bytes, Answers, Report, ChainAt, ChainMatches, JobSeq;
      var wi := pend[s].first;
      ghost var k, c, js := 0, chains[s], JobSeq(wjob, chains[s]);
      JobEach(skip);
      ChainStart(cfg.z, cfg.gpuPull, cfg.mapped, warena[..], wi, c, out, outJobs, s, st);
      while wi != NIL
        invariant Delivering(skip) && k <= |c| && wi == (if k < |c| then c[k] else NIL)
        invariant outJobs == old(outJobs) + js[..k] && Onward()
                  && Report(cfg.z, cfg.gpuPull, cfg.mapped, out, outJobs, |old(out)|, s, st)
        decreases |c| - k
      {
        ChainNode(cfg.z, warena[..], wjob, tag, pend[s].first, c, k);
        JobSeqAt(wjob, c, k);
        ghost var was, jobs := out, outJobs;
        JobEach(skip);
        DeliverRow(wi, s, st, tag, skip);
        ReportNext(cfg.z, cfg.gpuPull, cfg.mapped, was, jobs, out, outJobs, |old(out)|, s, st);
        wi := warena[wi].next;
        assert js[..k + 1] == js[..k] + [js[k]];
        k := k + 1;
      }
      ChainNode(cfg.z, warena[..], wjob, tag, pend[s].first, c, k);
      assert js[..k] == js;
    }

    lemma JobEach(skip: int)
      requires Delivering(skip)
      ensures |out| == |outJobs|
    {
    }

    // ---- completions ----

    /** Everything that holds between steps, but for the balance of requests. */
    ghost predicate Kept()
      reads Footprint()
    {
      Shaped() && Room() && PoolOk(cfg.z, PoolV(), -1) && Gpu(-1) && OutOk(cfg.z, cfg.gpuPull, cfg.mapped, out, outJobs)
    }

    /** Requests delivered together with those slots still owe. */
    ghost function Served(): multiset<Ent>
      reads this
    {
      multiset(outJobs) + Sum(due)
    }

    /** The slot leaves the backend for the done list. */
    method Complete(s: nat, st: PendState)
      requires Shaped() && s < pend.Length == |place| == |uses|
      modifies pend, `doneList, `place
      ensures Shaped() && old(s < |place| == |uses|) && PoolV() == FinishPool(old(PoolV()), s, st)
      ensures place == old(place)[s := OnDone] && doneList == [s] + old(doneList) && OnlySlot(s)
      ensures pend[s] == old(pend[s]).(gs := pend[s].gs) && GsState(pend[s].gs) == StateCode(st)
    {
      hide GsMake, GsGen, GsState, ArenaV;
      GsRoundTrip(GsGen(pend[s].gs), st);
      pend[s] := pend[s].(gs := GsMake(GsGen(pend[s].gs), st));
      doneList := [s] + doneList;
      place := place[s := OnDone];
    }

    /** nvmev_co_backend_done: any cookie, at any time, any number of times. It takes effect exactly
        when it names a slot of this shard that is with the backend in its current use. */
    method BackendDone(cookie: nat, status: int) returns (ghost taken: bool)
      requires Kept()
      modifies pend, `doneList, `place
      ensures Kept() && Served() == old(Served()) && Homeward()
      ensures taken <==> CkShard(cookie) == id && CkSlot(cookie) < pend.Length
                         && old(PoolV()).q.place[CkSlot(cookie)] == AtBackend
                             && old(PoolV()).q.uses[CkSlot(cookie)] % GEN_MOD == CkGen(cookie)
      ensures if taken then CkSlot(cookie) < |old(PoolV()).q.uses|
              && PoolV() == FinishPool(old(PoolV()), CkSlot(cookie), if status != 0 then ERROR else DONE)
              else PoolV() == old(PoolV())
      ensures taken ==> |place| == pend.Length && place[CkSlot(cookie)] == OnDone && OnlySlot(CkSlot(cookie))
                        && GsState(pend[CkSlot(cookie)].gs) == StateCode(if status != 0 then ERROR else DONE)
    {
      hide PoolOk, GpuPool, OutOk, FinishPool, GsMake, GsGen, GsState, CkShard, CkGen, Travel;
      ghost var v := PoolV();
      FreeCount(cfg.z, v, -1);
      var s, gen, st := CkSlot(cookie), CkGen(cookie), if status != 0 then ERROR else DONE;
      if CkShard(cookie) != id || s >= pend.Length { return false; }
      Uses(cfg.z, v, -1);
      GenRange(cookie);
      WordIssued(cfg.z, v, s, gen);
      if pend[s].gs != GsMake(gen, ISSUED) { return false; }
      FinishPoolKeeps(cfg.z, v, s, st);
      if cfg.gpuPull { FinishGpu(v, s, st, out, tail, mark); }
      TravelSet(place, s, OnDone);
      Complete(s, st);
      taken := true;
    }

    /** co_timeout_scan: throttled or switched off, nothing happens; otherwise exactly the slots that
        have been with the backend for the timeout go to the done list, failed, and every other slot
        is as it was. */
    method TimeoutScan(now: nat)
      requires Kept() && now >= lastScanNs
      modifies pend, `doneList, `place, `lastScanNs
      ensures Kept() && Served() == old(Served()) && |place| == |old(place)| == pend.Length && Homeward()
      ensures cfg.timeoutNs == 0 || now - old(lastScanNs) < 1_000_000 ==>
                pend[..] == old(pend[..]) && place == old(place) && doneList == old(doneList)
                && lastScanNs == old(lastScanNs)
      ensures cfg.timeoutNs > 0 && now - old(lastScanNs) >= 1_000_000 ==>
                lastScanNs == now
                && forall s :: 0 <= s < pend.Length ==>
                     if old(place)[s] == AtBackend && now - old(pend[s].issueNs) >= cfg.timeoutNs
                     then place[s] == OnDone && s in doneList && GsState(pend[s].gs) == StateCode(ERROR)
                          && pend[s] == old(pend[s]).(gs := pend[s].gs)
                     else place[s] == old(place)[s] && pend[s] == old(pend[s])
                          && (s in doneList <==> s in old(doneList))
    {
      hide Kept, Travel, GsState;
      PlaceEach();
      if cfg.timeoutNs == 0 || now - lastScanNs < 1_000_000 { return; }
      MarkScan(now);
      var i := 0;
      while i < pend.Length
        invariant i <= pend.Length && Kept() && Homeward() && lastScanNs == now
        invariant |place| == |old(place)| == pend.Length
        invariant forall s :: 0 <= s < i ==>
                    Swept(now, old(pend[s]), old(place)[s], s in old(doneList), pend[s], place[s], s in doneList)
        invariant forall s :: i <= s < pend.Length ==>
                    place[s] == old(place)[s] && pend[s] == old(pend[s]) && (s in doneList <==> s in old(doneList))
      {
        TimeoutOne(i, now);
        i := i + 1;
      }
    }

    /** What the sweep makes of a slot: its record and place before and after, and whether it is on the
        done list. */
    predicate Swept(now: nat, p: PendPage, at: Place, listed: bool, p': PendPage, at': Place, listed': bool) {
      if at == AtBackend && now - p.issueNs >= cfg.timeoutNs
      then at' == OnDone && listed' && GsState(p'.gs) == StateCode(ERROR) && p' == p.(gs := p'.gs)
      else at' == at && p' == p && listed' == listed
    }

    /** The sweep begins. */
    method MarkScan(now: nat)
      requires Kept()
      modifies `lastScanNs
      ensures Kept() && lastScanNs == now
    {
      hide PoolOk, GpuPool, OutOk;
      lastScanNs := now;
    }

    /** One slot of the sweep. */
    method TimeoutOne(i: nat, now: nat)
      requires Kept() && i < pend.Length
      modifies pend, `doneList, `place
      ensures Kept() && Homeward() && OnlySlot(i)
      ensures Swept(now, old(pend[i]), old(place)[i], i in old(doneList), pend[i], place[i], i in doneList)
      ensures forall s :: s != i ==> (s in doneList <==> s in old(doneList))
    {
      hide PoolOk, GpuPool, OutOk, FinishPool, GsMake, GsGen, GsState, PoolV, Travel;
      ghost var v := PoolV();
      PoolIs();
      Uses(cfg.z, v, -1);
      StateIssued(cfg.z, v, i);
      if GsState(pend[i].gs) == StateCode(ISSUED) && now - pend[i].issueNs >= cfg.timeoutNs {
        FinishPoolKeeps(cfg.z, v, i, ERROR);
        if cfg.gpuPull { FinishGpu(v, i, ERROR, out, tail, mark); }
        TravelSet(place, i, OnDone);
        Complete(i, ERROR);
      }
    }

    // ---- reaping ----

    /** The end of one turn of co_reap: the page is held until the GPU has gathered its rows. */
    method HoldPage(s: nat)
      requires Shaped() && doneList != [] && s == doneList[0] < pend.Length == |place| && place[s] == OnDone
      modifies pend, `doneList, `gpuHeld, `place
      ensures Shaped() && old(doneList != [] && doneList[0] < |place|)
      ensures doneList == old(doneList[1..]) && SlotsV() == Reaped(old(SlotsV()), true, |out|) && Homeward()
              && Travel(place) < old(Travel(place)) && OnlySlot(s) && pend[s].gs == old(pend[s].gs)
    {
      hide Travel;
      TravelSet(place, s, OnHeld);
      doneList := doneList[1..];
      pend[s] := pend[s].(wm := |out|);
      gpuHeld := [s] + gpuHeld;
      place := place[s := OnHeld];
    }

    /** Or handed back at once. */
    method ReturnPage(s: nat)
      requires Shaped() && doneList != [] && s == doneList[0] < pend.Length == |place| && place[s] == OnDone
      modifies `doneList, `pendReturn, `place
      ensures Shaped() && old(doneList != [] && doneList[0] < |place|)
      ensures doneList == old(doneList[1..]) && SlotsV() == Reaped(old(SlotsV()), false, |out|) && Homeward()
              && Travel(place) < old(Travel(place)) && OnlySlot(s)
    {
      hide Travel;
      TravelSet(place, s, OnReturn);
      doneList := doneList[1..];
      pendReturn := [s] + pendReturn;
      place := place[s := OnReturn];
    }

    /** The delivered page leaves the done list, owing nothing. */
    method HandOver(s: nat)
      requires Shaped() && doneList != [] && s == doneList[0] < pend.Length == |place| == |due| && place[s] == OnDone
      modifies pend, `doneList, `gpuHeld, `pendReturn, `place, `due
      ensures Shaped() && old(doneList != [] && doneList[0] < |place| == |due|)
      ensures doneList == old(doneList[1..]) && due == old(due[doneList[0] := multiset{}])
      ensures PoolV() == ReapPool(old(PoolV()), cfg.gpuPull, |out|) && Homeward() && Travel(place) < old(Travel(place))
      ensures (!cfg.gpuPull ==> gpuHeld == old(gpuHeld)) && OnlySlot(s) && pend[s].gs == old(pend[s].gs)
    {
      hide SlotsV, Reaped, ArenaV, Travel;
      SlotsIs();
      if cfg.gpuPull {
        HoldPage(s);
      } else {
        ReturnPage(s);
      }
      due := due[s := multiset{}];
    }

    lemma SlotsIs()
      requires Shaped()
      ensures SlotsV().pend == pend[..] && SlotsV().done == doneList && SlotsV().place == place
    {
    }

    /** The first finished page's waiters get their rows, or the error. */
    method DeliverDone() returns (s: nat)
      requires Kept() && doneList != []
      modifies `out, `tail, `outJobs
      ensures s == doneList[0] < pend.Length == |place| == |due| && place[s] == OnDone && Shaped() && Room() && Gpu(s)
      ensures OutOk(cfg.z, cfg.gpuPull, cfg.mapped, out, outJobs) && Onward()
              && multiset(outJobs) == multiset(old(outJobs)) + due[s]
      ensures Report(cfg.z, cfg.gpuPull, cfg.mapped, out, outJobs, |old(out)|, s,
                     if GsState(pend[s].gs) == StateCode(ERROR) then 1 else 0)
    {
      hide Report, PoolOk, GpuPool, OutOk, GsMake, GsGen, GsState, ChainAt, ChainMatches, PoolV, Bytes;
      ghost var v := PoolV();
      PoolIs();
      s := doneList[0];
      ghost var tag := DoneSlot(cfg.z, v);
      var st := if GsState(pend[s].gs) == StateCode(ERROR) then 1 else 0;
      if cfg.gpuPull { GpuWeaken(v, out, tail, mark, s); }
      DeliverChain(s, st, tag, s);
    }

    /** One finished page: its waiters are delivered and the page is held for the GPU or handed
        back. */
    method ReapOne()
      requires Kept() && doneList != []
      modifies pend, `doneList, `gpuHeld, `pendReturn, `place, `due, `out, `tail, `outJobs
      ensures Kept() && doneList == old(doneList[1..]) && Served() == old(Served()) && Onward()
      ensures old(doneList[0]) < pend.Length && Homeward() && Travel(place) < old(Travel(place))
      ensures OnlySlot(old(doneList[0])) && pend[old(doneList[0])].gs == old(pend[doneList[0]].gs)
      ensures Report(cfg.z, cfg.gpuPull, cfg.mapped, out, outJobs, |old(out)|, old(doneList[0]),
                     if GsState(old(pend[doneList[0]].gs)) == StateCode(ERROR) then 1 else 0)
    {
      hide PoolOk, GpuPool, OutOk, ReapPool, PoolV, Report, GsState, Travel;
      DoneBelow();
      ghost var v, jobs := PoolV(), outJobs;
      PoolIs();
      var s := DeliverDone();
      ServedMoves(jobs, outJobs, due, s);
      ReapPoolKeeps(cfg.z, v, cfg.gpuPull, |out|);
      if cfg.gpuPull { ReapGpu(v, out, tail, mark); }
      HandOver(s);
    }

    /** With nothing read, held or on its way back, every slot is free. */
    lemma SlotsFree()
      requires Kept() && !Reading() && gpuHeld == [] && pendReturn == []
      ensures pendFreeN == pend.Length
    {
      hide GpuPool, OutOk, PoolOk, PoolV;
      PoolIs();
      AllStacked(cfg.z, PoolV());
    }

    /** All slots are free exactly when none has a way to go. */
    lemma HomeFree()
      requires Kept()
      ensures Travel(place) == 0 <==> pendFreeN == pend.Length
    {
      hide GpuPool, OutOk, PoolOk, PoolV, Travel;
      PoolIs();
      HomeStacked(cfg.z, PoolV());
    }

    lemma ListsEmpty()
      requires Kept() && pendFreeN == pend.Length
      ensures doneList == gpuHeld == pendReturn == []
    {
      hide GpuPool, OutOk, PoolOk, PoolV, Travel;
      PoolIs();
      StackedAlone(cfg.z, PoolV());
    }

    lemma NothingHeld()
      requires Kept() && !cfg.gpuPull
      ensures gpuHeld == []
    {
    }

    /** With every slot free there are waiters for a whole window. */
    lemma CreditsFree()
      requires Kept() && pendFreeN == pend.Length
      ensures wfreeN == warena.Length
    {
      hide PoolOk, GpuPool, OutOk, PoolV;
      PoolIs();
      AllFree(cfg.z, PoolV());
    }

    /** With every slot free, nothing is owed. */
    lemma NothingOwed()
      requires Kept() && pendFreeN == pend.Length
      ensures Served() == multiset(outJobs)
    {
      hide PoolOk, GpuPool, OutOk, PoolV;
      PoolIs();
      AllSettled(cfg.z, PoolV());
      SumEmpty(due);
    }

    lemma DoneBelow()
      requires Kept() && doneList != []
      ensures doneList[0] < pend.Length
    {
      hide PoolOk, GpuPool, OutOk, PoolV;
      PoolIs();
      var _ := DoneSlot(cfg.z, PoolV());
    }

    lemma PoolIs()
      requires Shaped()
      ensures PoolV().q.pend == pend[..] && PoolV().q.done == doneList && PoolV().q.ret == pendReturn
              && PoolV().q.held == gpuHeld
      ensures PoolV().q.place == place && PoolV().q.uses == uses && PoolV().due == due
              && PoolV().staging == staging[..] && PoolV().wjob == wjob
      ensures PoolV().a.nodes == warena[..] && PoolV().a.heads == heads && PoolV().a.chains == chains
      ensures |PoolV().q.stack| == pendFreeN && PoolV().a.own == own && PoolV().a.free == free
              && PoolV().wfreeN == wfreeN
    {
    }

    /** co_reap: every finished page's waiters are delivered, its requests leaving the slot for
        the output; each is told that its page was read, or that it failed, as the slot says. Slots
        that were not finished are left alone. */
    method Reap()
      requires Kept()
      modifies pend, `doneList, `gpuHeld, `pendReturn, `place, `due, `out, `tail, `outJobs
      ensures Kept() && doneList == [] && Served() == old(Served()) && Onward() && Homeward()
      ensures Travel(place) == old(Travel(place)) ==> out == old(out) && tail == old(tail)
      ensures |out| <= |old(out)| + warena.Length && |out| == |outJobs| && |place| == |old(place)| == pend.Length
      ensures forall k :: |old(out)| <= k < |out| ==>
                out[k].slot in old(doneList) && out[k].slot < pend.Length
                && Answers(cfg.z, cfg.gpuPull, cfg.mapped, out[k], outJobs[k],
                           if GsState(old(pend[..])[out[k].slot].gs) == StateCode(ERROR) then 1 else 0)
      ensures forall s :: 0 <= s < pend.Length && s !in old(doneList) ==>
                place[s] == old(place[s]) && pend[s] == old(pend[s])
    {
      hide Kept, Served, Travel, Answers, GsState;
      OwedWithin();
      PlaceEach();
      while doneList != []
        invariant Kept() && Served() == old(Served()) && Onward() && Homeward()
        invariant Travel(place) == old(Travel(place)) ==> out == old(out) && tail == old(tail)
        invariant |out| == |outJobs| && |place| == |old(place)| == pend.Length
        invariant forall s :: s in doneList ==> s in old(doneList)
        invariant forall s :: 0 <= s < pend.Length ==> pend[s].gs == old(pend[s].gs)
        invariant forall s :: 0 <= s < pend.Length && s !in old(doneList) ==>
                    place[s] == old(place[s]) && pend[s] == old(pend[s])
        invariant forall k :: |old(out)| <= k < |out| ==>
                    out[k].slot in old(doneList) && out[k].slot < pend.Length
                    && Answers(cfg.z, cfg.gpuPull, cfg.mapped, out[k], outJobs[k],
                               if GsState(old(pend[..])[out[k].slot].gs) == StateCode(ERROR) then 1 else 0)
        decreases |doneList|
      {
        ReapOne();
      }
      OwedWithin();
      SettledSize();
    }

    lemma PlaceEach()
      requires Kept()
      ensures |place| == pend.Length
    {
      hide PoolOk, GpuPool, OutOk, PoolV;
      PoolIs();
      Uses(cfg.z, PoolV(), -1);
    }

    lemma SlotsEach()
      requires Kept()
      ensures |place| == |uses| == pend.Length && PoolV().q.place == place && PoolV().q.uses == uses
              && PoolV().q.pend == pend[..] && PoolV().q.done == doneList
    {
      hide PoolOk, GpuPool, OutOk;
      Uses(cfg.z, PoolV(), -1);
    }

    lemma DonePlaces()
      requires Kept()
      ensures |place| == pend.Length && forall s :: s in doneList ==> s < pend.Length && place[s] == OnDone
    {
      hide GpuPool, OutOk, ArenaOk, RowsOk, DueOk;
      PlaceEach();
    }

    /** No more is owed than there are waiters. */
    lemma OwedWithin()
      requires Kept()
      ensures |Sum(due)| <= warena.Length && |out| == |outJobs|
    {
      hide PoolOk, GpuPool, Right, PoolV, Sum;
      PoolIs();
      OwedFits(cfg.z, PoolV());
    }

    twostate lemma SettledSize()
      requires Served() == old(Served())
      ensures |outJobs| + |Sum(due)| == |old(outJobs)| + |Sum(old(due))|
    {
      hide Sum;
      assert |Served()| == |multiset(outJobs)| + |Sum(due)|;
      assert |old(Served())| == |multiset(old(outJobs))| + |Sum(old(due))|;
    }

    /** The GPU consumes up to t. What it gathers on the way is still in staging. */
    method Consume(t: nat)
      requires Kept() && tail <= t <= |out|
      modifies `tail
      ensures Kept() && Served() == old(Served()) && tail == t
      ensures cfg.gpuPull ==> forall i :: old(tail) <= i < t && out[i].status == 0 ==>
                out[i].slot < staging.Length && out[i].off + |out[i].data| <= |staging[out[i].slot]|
                && staging[out[i].slot][out[i].off..out[i].off + |out[i].data|] == out[i].data
    {
      hide PoolOk, OutOk, PoolV;
      PoolIs();
      if cfg.gpuPull { GpuTail(out, tail, t, mark, place, pend[..], staging[..], -1); }
      tail := t;
    }

    // ---- reclaiming held pages; taking slots back ----

    /** Slots not held for the GPU are where they were. */
    twostate predicate OthersStay()
      reads `place
    {
      |place| == |old(place)| && forall s :: 0 <= s < |place| && old(place)[s] != OnHeld ==> place[s] == old(place)[s]
    }

    method Unlink(i: nat)
      requires Shaped() && i < |gpuHeld| && gpuHeld[i] < |place| && place[gpuHeld[i]] == OnHeld
      modifies `gpuHeld, `pendReturn, `place
      ensures Shaped() && old(i < |gpuHeld| && gpuHeld[i] < |place|) && PoolV() == ReclaimPool(old(PoolV()), i)
      ensures gpuHeld == old(gpuHeld[..i] + gpuHeld[i + 1..]) && pendReturn == old([gpuHeld[i]] + pendReturn)
      ensures Homeward() && OthersStay()
    {
      hide Travel;
      TravelSet(place, gpuHeld[i], OnReturn);
      pendReturn := [gpuHeld[i]] + pendReturn;
      place := place[gpuHeld[i] := OnReturn];
      gpuHeld := gpuHeld[..i] + gpuHeld[i + 1..];
    }

    /** The i-th held page, its watermark reached, is handed back. */
    method ReclaimOne(i: nat)
      requires Kept() && cfg.gpuPull && i < |gpuHeld| && gpuHeld[i] < pend.Length && Reached(tail, pend[gpuHeld[i]].wm)
      modifies `gpuHeld, `pendReturn, `place
      ensures Homeward() && OthersStay()
      ensures Kept() && gpuHeld == old(gpuHeld[..i] + gpuHeld[i + 1..]) && pendReturn == old([gpuHeld[i]] + pendReturn)
    {
      hide PoolOk, GpuPool, OutOk, ReclaimPool, Reached, PoolV, Travel;
      ghost var v := PoolV();
      PoolIs();
      ReclaimPoolKeeps(cfg.z, v, i);
      HeldReached(cfg.z, v, i, out, tail, mark, cfg.entries);
      ReclaimGpu(v, i, out, tail, mark);
      Unlink(i);
    }

    /** co_gpu_reclaim: exactly the held pages whose watermark the tail has reached are handed
        back, the others staying in order. While less than 2^31 has been published since the oldest
        watermark, what stays held is ahead of the tail, and nothing stays once the tail has reached
        the head. */
    method GpuReclaim()
      requires Kept() && cfg.gpuPull
      modifies `gpuHeld, `pendReturn, `place, `mark
      ensures Kept() && Served() == old(Served()) && gpuHeld == StillHeld(old(gpuHeld), pend[..], tail)
      ensures |gpuHeld| + |pendReturn| == old(|gpuHeld| + |pendReturn|) && Homeward() && OthersStay()
      ensures |out| < old(mark) + 0x8000_0000 ==>
                mark == Ahead(tail, |out|) && (tail == |out| ==> gpuHeld == [])
                && forall s :: s in gpuHeld ==> s < pend.Length && tail < pend[s].wm
    {
      hide Kept, Served, Walked, StillHeld, Reached, Ahead, Travel;
      var i := 0;
      ghost var was, n, pages := gpuHeld, 0, pend[..];
      WalkStart(was, pages, tail);
      while i < |gpuHeld|
        invariant Kept() && mark == old(mark) && Walked(gpuHeld, i, was, n, pages, tail)
        invariant |gpuHeld| + |pendReturn| == old(|gpuHeld| + |pendReturn|) && Homeward() && OthersStay()
        decreases |gpuHeld| - i
      {
        HeldBelow(i);
        WalkNext(gpuHeld, i, was, n, pages, tail);
        if Reached(tail, pend[gpuHeld[i]].wm) {
          ReclaimOne(i);
        } else {
          i := i + 1;
        }
        n := n + 1;
      }
      WalkEnd(gpuHeld, i, was, n, pages, tail);
      if |out| < mark + 0x8000_0000 { RaiseMark(was); }
      SameServed();
    }

    lemma HeldSince()
      requires Kept() && cfg.gpuPull
      ensures forall s :: s in gpuHeld ==> s < pend.Length && mark <= pend[s].wm
    {
      hide PoolOk, OutOk, PoolV;
      PoolIs();
      HeldSlots(cfg.z, PoolV());
    }

    /** What a reclaim leaves held is ahead of the tail. */
    ghost method RaiseMark(was: seq<nat>)
      requires Kept() && cfg.gpuPull && |out| < mark + 0x8000_0000 && gpuHeld == StillHeld(was, pend[..], tail)
      modifies `mark
      ensures Kept() && mark == Ahead(tail, |out|) && (tail == |out| ==> gpuHeld == [])
      ensures forall s :: s in gpuHeld ==> s < pend.Length && tail < pend[s].wm
    {
      hide PoolOk, GpuPool, OutOk, PoolV, StillHeld, Reached;
      PoolIs();
      HeldAhead(cfg.z, PoolV(), was, out, tail, mark);
      mark := Ahead(tail, |out|);
    }

    lemma HeldBelow(i: nat)
      requires Kept() && i < |gpuHeld|
      ensures gpuHeld[i] < pend.Length
    {
      hide PoolOk, GpuPool, OutOk;
      HeldSlots(cfg.z, PoolV());
      assert gpuHeld[i] in gpuHeld;
    }

    method PopReturn()
      requires Shaped() && pendReturn != [] && pendReturn[0] < pend.Length == |place| && pendFreeN < pendFree.Length
               && place[pendReturn[0]] == OnReturn
      modifies pend, pendFree, `pendFreeN, `pendReturn, `place
      ensures Shaped() && old(pendReturn != [] && pendReturn[0] < |place|) && PoolV() == DrainPool(old(PoolV()))
      ensures pendReturn == old(pendReturn[1..]) && Homeward()
    {
      hide GsMake, GsGen, ArenaV, Travel;
      TravelSet(place, pendReturn[0], OnStack);
      ghost var v := PoolV();
      var s := pendReturn[0];
      pend[s] := pend[s].(gs := GsMake(GsGen(pend[s].gs), FREE));
      pendReturn := pendReturn[1..];
      pendFree[pendFreeN] := s;
      pendFreeN := pendFreeN + 1;
      place := place[s := OnStack];
      assert pendFree[..pendFreeN] == v.q.stack + [s];
    }

    /** The first returned slot and its waiters are free again. */
    method DrainOne()
      requires Kept() && pendReturn != []
      modifies pend, pendFree, warena, `pendFreeN, `pendReturn, `place, `wfree, `wfreeN, `free, `heads, `chains, `own
      ensures Kept() && pendReturn == old(pendReturn[1..]) && Homeward()
    {
      hide PoolOk, GpuPool, OutOk, DrainPool, PoolV, Travel;
      PoolIs();
      ReturnedOwesNothing(cfg.z, PoolV());
      var s := pendReturn[0];
      FreeChain(pend[s].first, s);
      DrainSlot(s);
    }

    /** The first returned slot, its waiters freed. */
    method DrainSlot(ghost s: nat)
      requires Shaped() && Room() && OutOk(cfg.z, cfg.gpuPull, cfg.mapped, out, outJobs) && pendReturn != []
               && s == pendReturn[0]
      requires PoolOk(cfg.z, PoolV(), s) && Gpu(-1) && s < |chains| && chains[s] == [] && s < |due|
               && due[s] == multiset{}
      modifies pend, pendFree, `pendFreeN, `pendReturn, `place
      ensures Kept() && pendReturn == old(pendReturn[1..]) && Homeward()
    {
      hide PoolOk, GpuPool, OutOk, DrainPool, PoolV, Travel;
      ghost var u := PoolV();
      PoolIs();
      DrainPoolKeeps(cfg.z, u);
      PoolSlots(cfg.z, u, s);
      StackRoomReturned(cfg.z, u, s);
      if cfg.gpuPull { DrainGpu(cfg.z, u, out, tail, mark); }
      PopReturn();
    }

    /** co_drain_returns: all returned slots and their waiters are free again. */
    method DrainReturns()
      requires Kept()
      modifies pend, pendFree, warena, `pendFreeN, `pendReturn, `place, `wfree, `wfreeN, `free, `heads, `chains, `own
      ensures Kept() && Served() == old(Served()) && pendReturn == [] && Homeward()
    {
      hide Kept, Travel;
      while pendReturn != []
        invariant Kept() && Homeward()
        decreases |pendReturn|
      {
        DrainOne();
      }
    }

    // ---- issuing ----

    /** A slot armed for the run of requests at i, one waiter each. */
    method BuildRun(win: array<Ent>, i: nat, run: nat, now: nat) returns (s: nat)
      requires Kept() && pendFreeN > 0 && 0 < run <= wfreeN && i + run <= win.Length
      requires RunOf(cfg.z, win[..], i, run)
      modifies pend, warena, `pendFreeN, `place, `uses, `wfree, `wfreeN, `free, `heads, `chains, `own, `wjob
      ensures Building(s, win[i].tag, multiset(win[i..i + run])) && Travel(place) == old(Travel(place)) + 4
      ensures OnlySlot(s) && old(place)[s] == OnStack && place[s] == AtBackend && pend[s].issueNs == now
    {
      hide PoolOk, GpuPool, OutOk, Built, PoolV, EntOk, Travel;
      s := ArmSlot(win[i].tag, now);
      var j := 0;
      assert win[i..i] == [];
      while j < run
        invariant j <= run && wfreeN == old(wfreeN) - j && Travel(place) == old(Travel(place)) + 4
        invariant Shaped() && PoolOk(cfg.z, PoolV(), s) && Gpu(-1)
        invariant Built(cfg.z, PoolV(), s, win[i].tag, multiset(win[i..i + j]))
        invariant OnlySlot(s) && old(place)[s] == OnStack && place[s] == AtBackend && pend[s].issueNs == now
      {
        AddWaiter(s, win[i + j], win[i].tag, multiset(win[i..i + j]));
        assert win[i..i + (j + 1)] == win[i..i + j] + [win[i + j]];
        j := j + 1;
      }
    }

    /** The read is with the backend: the DRAM page is staged and the slot owes its requests. */
    method Stage(s: nat, ghost jobs: multiset<Ent>)
      requires Shaped() && s < pend.Length == |due|
      modifies staging, `due
      ensures Shaped() && old(s < |due|) && PoolV() == AcceptPool(cfg.z, old(PoolV()), s, jobs)
              && due == old(due)[s := jobs] && staging[s] == Bytes(cfg.z, pend[s].tag, cfg.z.page)
    {
      staging[s] := Bytes(cfg.z, pend[s].tag, cfg.z.page);
      due := due[s := jobs];
    }

    /** A slot armed and filled for the requests `jobs` of page `tag`, not yet with the backend. */
    ghost predicate Building(s: nat, tag: nat, jobs: multiset<Ent>)
      reads `pendFreeN, `doneList, `gpuHeld, `pendReturn, `place, `uses, `wfree, `free, `heads, `chains, `own, `wfreeN,
            `wjob, `due
      reads `out, `tail, `mark, `outJobs, pend, pendFree, warena, staging
    {
      && Shaped() && Room() && OutOk(cfg.z, cfg.gpuPull, cfg.mapped, out, outJobs) && s < pend.Length
      && PoolOk(cfg.z, PoolV(), s) && Gpu(-1) && Built(cfg.z, PoolV(), s, tag, jobs)
    }

    lemma BuildingFacts(s: nat, tag: nat, jobs: multiset<Ent>)
      requires Building(s, tag, jobs)
      ensures Shaped() && Room() && OutOk(cfg.z, cfg.gpuPull, cfg.mapped, out, outJobs) && PoolOk(cfg.z, PoolV(), s)
              && Gpu(-1)
      ensures s < pend.Length == staging.Length && s < |chains| && s < |heads| && s < |place|
              && s < |due| == pend.Length && warena.Length <= NIL
      ensures pend[s].first == heads[s] && pend[s].tag == tag && place[s] == AtBackend && due[s] == multiset{}
      ensures ChainAt(warena[..], pend[s].first, chains[s]) && ChainMatches(cfg.z, warena[..], wjob, tag, chains[s])
      ensures multiset(JobSeq(wjob, chains[s])) == jobs
    {
      hide PoolOk, GpuPool, OutOk, Built, PoolV, ChainAt, ChainMatches;
      PoolIs();
      BuiltAt(cfg.z, PoolV(), s, tag, jobs);
      BuiltChain(cfg.z, PoolV(), s, tag, jobs);
    }

    /** An asynchronous backend took the read. */
    method Accept(s: nat, ghost tag: nat, ghost jobs: multiset<Ent>)
      requires Building(s, tag, jobs)
      modifies staging, `due
      ensures Kept() && Served() == old(Served()) + jobs && s < pend.Length == |due| && due[s] == jobs
      ensures pend[s].tag == tag && staging[s] == Bytes(cfg.z, tag, cfg.z.page)
    {
      hide PoolOk, GpuPool, OutOk, Built, PoolV, AcceptPool, Bytes;
      ghost var v := PoolV();
      PoolIs();
      BuiltAt(cfg.z, v, s, tag, jobs);
      AcceptPoolKeeps(cfg.z, v, s, tag, jobs);
      if cfg.gpuPull { AcceptGpu(cfg.z, v, s, jobs, out, tail, mark); }
      ServedGrows(outJobs, due, s, jobs);
      Stage(s, jobs);
    }

    /** A refused or a synchronously served read: its requests are answered now and its slot and
        waiters come back. */
    method Settle(s: nat, st: nat, ghost tag: nat, ghost jobs: multiset<Ent>)
      requires Building(s, tag, jobs) && st <= 1
      requires st == 0 ==> !cfg.gpuPull && s < staging.Length && staging[s] == Bytes(cfg.z, tag, cfg.z.page)
      modifies pend, pendFree, warena, `pendFreeN, `place, `wfree, `wfreeN, `free, `heads, `chains, `own, `out, `tail,
               `outJobs
      ensures Kept() && Served() == old(Served()) + jobs && Onward() && |out| == |old(out)| + |jobs|
      ensures Report(cfg.z, cfg.gpuPull, cfg.mapped, out, outJobs, |old(out)|, s, st)
      ensures Travel(place) + 4 == old(Travel(place)) && OnlySlot(s) && place[s] == OnStack
    {
      hide Kept, Building, Delivering, Shaped, Room, Gpu, PoolOk, OutOk, PoolV, Bytes, Served, Report, Travel, Onward,
           JobSeq,
           ChainAt, ChainMatches, StoreOk, ConfigOk;
      BuildingFacts(s, tag, jobs);
      OneJobEach();
      ghost var js := JobSeq(wjob, chains[s]);
      NowDelivering(-1);
      DeliverChain(s, st, tag, -1);
      DeliveringIs(-1);
      Release(s);
      NowKept();
      OneJobEach();
      JobsServed(js);
    }

    lemma OneJobEach()
      requires OutOk(cfg.z, cfg.gpuPull, cfg.mapped, out, outJobs)
      ensures |out| == |outJobs|
    {
    }

    lemma NowDelivering(skip: int)
      requires Shaped() && Room() && Gpu(skip) && OutOk(cfg.z, cfg.gpuPull, cfg.mapped, out, outJobs)
      ensures Delivering(skip)
    {
    }

    lemma DeliveringIs(skip: int)
      requires Delivering(skip)
      ensures Shaped() && Room() && Gpu(skip) && OutOk(cfg.z, cfg.gpuPull, cfg.mapped, out, outJobs)
    {
    }

    lemma NowKept()
      requires Shaped() && Room() && PoolOk(cfg.z, PoolV(), -1) && Gpu(-1)
               && OutOk(cfg.z, cfg.gpuPull, cfg.mapped, out, outJobs)
      ensures Kept()
    {
    }

    twostate lemma JobsServed(js: seq<Ent>)
      requires outJobs == old(outJobs) + js && due == old(due)
      ensures Served() == old(Served()) + multiset(js) && |outJobs| == |old(outJobs)| + |multiset(js)|
    {
      assert multiset(old(outJobs) + js) == multiset(old(outJobs)) + multiset(js);
    }

    /** A synchronous backend filled the page before answering. */
    method ServeNow(s: nat, ghost tag: nat, ghost jobs: multiset<Ent>)
      requires Building(s, tag, jobs) && !cfg.gpuPull
      modifies pend, pendFree, staging, warena, `pendFreeN, `place, `wfree, `wfreeN, `free, `heads, `chains, `own, `due,
               `out, `tail, `outJobs
      ensures Kept() && Served() == old(Served()) + jobs && Onward() && |out| == |old(out)| + |jobs|
      ensures Report(cfg.z, cfg.gpuPull, cfg.mapped, out, outJobs, |old(out)|, s, 0)
      ensures Travel(place) + 4 == old(Travel(place)) && OnlySlot(s) && place[s] == OnStack
    {
      hide PoolOk, OutOk, Built, PoolV, AcceptPool, Bytes, Served, Report, Travel;
      ghost var was := due;
      BuildingFacts(s, tag, jobs);
      AcceptSkip(cfg.z, PoolV(), s, tag, jobs);
      Stage(s, multiset{});
      PoolIs();
      SetSame(was, s);
      SameServed();
      Settle(s, 0, tag, jobs);
    }

    /** -EAGAIN: the page is undone and its requests stay in the window. */
    method PutBack(s: nat, ghost tag: nat, ghost jobs: multiset<Ent>)
      requires Building(s, tag, jobs)
      modifies pend, pendFree, warena, `pendFreeN, `place, `wfree, `wfreeN, `free, `heads, `chains, `own
      ensures Kept() && Travel(place) + 4 == old(Travel(place)) && OnlySlot(s) && place[s] == OnStack
    {
      hide *;
      BuildingFacts(s, tag, jobs);
      Release(s);
      NowKept();
    }

    /** Issues one run: accepted, refused outright, or put off until the backend has room. */
    method IssueRun(win: array<Ent>, i: nat, run: nat, now: nat, rc: Answer)
      requires Kept() && pendFreeN > 0 && 0 < run <= wfreeN && i + run <= win.Length
      requires RunOf(cfg.z, win[..], i, run)
      modifies pend, pendFree, staging, warena, `pendFreeN, `place, `uses, `wfree, `wfreeN, `free, `heads, `chains,
               `own, `wjob, `due,
               `out, `tail, `outJobs
      ensures Kept() && Served() == old(Served()) + (if rc == Again then multiset{} else multiset(win[i..i + run]))
      ensures Onward() && |out| <= |old(out)| + run && (rc == Again || (rc == Accepted && !cfg.sync) ==>
                                                        out == old(out))
      ensures |out| == |outJobs| && forall k :: |old(out)| <= k < |out| ==>
                Answers(cfg.z, cfg.gpuPull, cfg.mapped, out[k], outJobs[k], if rc == Refused then 1 else 0)
      ensures Travel(place) == old(Travel(place)) + (if rc == Accepted && !cfg.sync then 4 else 0)
      ensures |place| == |old(place)| == pend.Length && (rc != Accepted || cfg.sync ==> place == old(place))
      ensures forall t :: 0 <= t < pend.Length && old(place)[t] != OnStack ==>
                place[t] == old(place)[t] && pend[t] == old(pend[t])
      ensures rc == Accepted && !cfg.sync ==>
                exists s: nat :: s < pend.Length == |due| && old(place)[s] == OnStack && place[s] == AtBackend
                  && pend[s].tag == win[i].tag && pend[s].issueNs == now && due[s] == multiset(win[i..i + run])
                  && staging[s] == Bytes(cfg.z, win[i].tag, cfg.z.page)
    {
      hide Kept, Building, Served, EntOk, Travel, Bytes, Answers;
      var s := BuildRun(win, i, run, now);
      ghost var tag, jobs := win[i].tag, multiset(win[i..i + run]);
      SameServed();
      match rc {
        case Again =>
          PutBack(s, tag, jobs);
          SameServed();
        case Refused =>
          Settle(s, 1, tag, jobs);
        case Accepted =>
          if cfg.sync {
            SyncIsCpu(s, tag, jobs);
            ServeNow(s, tag, jobs);
          } else {
            Accept(s, tag, jobs);
          }
      }
      OwedWithin();
    }

    lemma SyncIsCpu(s: nat, tag: nat, jobs: multiset<Ent>)
      requires Building(s, tag, jobs) && cfg.sync
      ensures !cfg.gpuPull
    {
    }

    twostate lemma SameServed()
      requires outJobs == old(outJobs) && due == old(due)
      ensures Served() == old(Served())
    {
    }
  }

  // ---- small facts about a sound pool ----

  /** With every slot free, every waiter is free. */
  lemma AllFree(z: Store, v: Pool)
    requires PoolOk(z, v, -1) && |v.q.stack| == |v.q.pend|
    ensures v.wfreeN == |v.a.nodes|
  {
    FreeCount(z, v, -1);
    forall s | 0 <= s < |v.q.place| ensures v.a.chains[s] == [] {
      if v.q.place[s] != OnStack { StackFull(z, v, s); }
      FreeSlot(z, v, s);
    }
    forall x | 0 <= x < |v.a.own| ensures x in v.a.free {
      if v.a.own[x] != -1 { OwnedSomewhere(v.a, x); }
    }
    assert NoDup(v.a.free);
    assert Elems(v.a.free) == Below(|v.a.own|);
  }

  lemma TopPlace(z: Store, v: Pool)
    requires PoolOk(z, v, -1) && v.q.stack != []
    ensures Top(v.q) < |v.q.place| && v.q.place[Top(v.q)] == OnStack
  {
  }

  lemma AllStacked(z: Store, v: Pool)
    requires PoolOk(z, v, -1) && v.q.done == v.q.held == v.q.ret == []
    requires forall s :: 0 <= s < |v.q.place| ==> v.q.place[s] != AtBackend
    ensures |v.q.stack| == |v.q.pend|
  {
    hide ArenaOk, RowsOk, DueOk, WordOk;
    StacksAll(z, v);
  }

  lemma AllSettled(z: Store, v: Pool)
    requires PoolOk(z, v, -1) && |v.q.stack| == |v.q.pend|
    ensures forall s :: 0 <= s < |v.due| ==> v.due[s] == multiset{}
  {
    forall s | 0 <= s < |v.due| ensures v.due[s] == multiset{} {
      StackFull(z, v, s);
      FreeSlot(z, v, s);
    }
  }

  lemma StackFull(z: Store, v: Pool, s: nat)
    requires PoolOk(z, v, -1) && s < |v.q.place| && |v.q.stack| == |v.q.pend|
    ensures v.q.place[s] == OnStack
  {
    if v.q.place[s] != OnStack { NoDupFits(v.q.stack, s, |v.q.place|); }
  }

  lemma HomeStacked(z: Store, v: Pool)
    requires PoolOk(z, v, -1)
    ensures Travel(v.q.place) == 0 <==> |v.q.stack| == |v.q.pend|
  {
    hide PoolOk, Travel;
    if |v.q.stack| == |v.q.pend| {
      forall s | 0 <= s < |v.q.place| ensures v.q.place[s] == OnStack { StackFull(z, v, s); }
      AllHome(v.q.place);
    }
    if Travel(v.q.place) == 0 {
      forall s | 0 <= s < |v.q.place| ensures v.q.place[s] == OnStack { NoneAway(v.q.place, s); }
      StacksAll(z, v);
    }
  }

  lemma StacksAll(z: Store, v: Pool)
    requires PoolOk(z, v, -1) && forall s :: 0 <= s < |v.q.place| ==> v.q.place[s] == OnStack
    ensures |v.q.stack| == |v.q.pend|
  {
    hide ArenaOk, RowsOk, DueOk, WordOk;
    assert Elems(v.q.stack) == Below(|v.q.place|);
  }

  lemma ListFirst(place: seq<Place>, p: Place, l: seq<nat>)
    requires Lists(place, p, l)
    ensures l != [] ==> l[0] < |place| && place[l[0]] == p
  {
  }

  lemma StackedAlone(z: Store, v: Pool)
    requires PoolOk(z, v, -1) && |v.q.stack| == |v.q.pend|
    ensures v.q.done == v.q.held == v.q.ret == []
  {
    hide ArenaOk, RowsOk, DueOk, WordOk, Lists;
    forall s | 0 <= s < |v.q.place| ensures v.q.place[s] == OnStack { StackFull(z, v, s); }
    ListFirst(v.q.place, OnDone, v.q.done);
    ListFirst(v.q.place, OnHeld, v.q.held);
    ListFirst(v.q.place, OnReturn, v.q.ret);
  }

  lemma OwnedSomewhere(a: Arena, x: nat)
    requires ArenaOk(a) && x < |a.own| && a.own[x] != -1
    ensures 0 <= a.own[x] < |a.chains| && a.chains[a.own[x]] != []
  {
    assert SlotChainOk(a, a.own[x]);
  }

  lemma ServedGrows(jobs: seq<Ent>, due: seq<multiset<Ent>>, s: nat, m: multiset<Ent>)
    requires s < |due| && due[s] == multiset{}
    ensures multiset(jobs) + Sum(due[s := m]) == multiset(jobs) + Sum(due) + m
  {
    SumUpdate(due, s, m);
    assert Sum(due[s := m]) == Sum(due) + m;
  }

  lemma BuiltChain(z: Store, v: Pool, s: nat, tag: nat, jobs: multiset<Ent>)
    requires PoolOk(z, v, s) && Built(z, v, s, tag, jobs)
    ensures s < |v.q.pend| == |v.a.chains| && |v.a.nodes| <= NIL
    ensures ChainAt(v.a.nodes, v.q.pend[s].first, v.a.chains[s])
            && ChainMatches(z, v.a.nodes, v.wjob, tag, v.a.chains[s])
    ensures multiset(JobSeq(v.wjob, v.a.chains[s])) == jobs
  {
    assert SlotChainOk(v.a, s);
  }

  /** Staging a page in the slot being built changes nothing else about it. */
  lemma AcceptSkip(z: Store, v: Pool, s: nat, tag: nat, jobs: multiset<Ent>)
    requires PoolOk(z, v, s) && Built(z, v, s, tag, jobs)
    ensures s < |v.staging| == |v.due| == |v.q.pend|
    ensures var v' := AcceptPool(z, v, s, multiset{});
            PoolOk(z, v', s) && Built(z, v', s, tag, jobs) && v'.staging[s] == Bytes(z, tag, z.page) && v'.due == v.due
  {
    var v' := AcceptPool(z, v, s, multiset{});
    RowsStage(z, v.a, v.wjob, v.q.place, v.q.pend, v.staging, s, v'.staging[s]);
    SetSame(v.due, s);
    hide ArenaOk, SlotsOk, RowsOk, DueOk;
  }

  lemma Uses(z: Store, v: Pool, skip: int)
    requires PoolOk(z, v, skip)
    ensures |v.q.pend| == |v.q.place| == |v.q.uses|
  {
  }

  lemma GenRange(cookie: nat)
    ensures CkGen(cookie) < GEN_MOD
  {
  }

  /** The compare-and-swap meets its expectation exactly in the cookie's own use of the slot. */
  lemma WordIssued(z: Store, v: Pool, s: nat, gen: nat)
    requires PoolOk(z, v, -1) && s < |v.q.pend| && gen < GEN_MOD
    ensures s < |v.q.place| == |v.q.uses|
    ensures v.q.pend[s].gs == GsMake(gen, ISSUED) <==> v.q.place[s] == AtBackend && v.q.uses[s] % GEN_MOD == gen
  {
    hide GsMake, GsGen, Lists, ArenaOk, RowsOk, DueOk;
    var u := v.q.uses[s];
    assert WordOk(v.q.place[s], v.q.pend[s].gs, u);
    match v.q.place[s] {
      case OnStack => GsEqual(u, FREE, gen, ISSUED);
      case AtBackend => GsEqual(u, ISSUED, gen, ISSUED);
      case _ =>
        GsEqual(u, DONE, gen, ISSUED);
        GsEqual(u, ERROR, gen, ISSUED);
    }
  }

  lemma StateIssued(z: Store, v: Pool, s: nat)
    requires PoolOk(z, v, -1) && s < |v.q.pend|
    ensures s < |v.q.place| && (GsState(v.q.pend[s].gs) == StateCode(ISSUED) <==> v.q.place[s] == AtBackend)
  {
    var u := v.q.uses[s];
    assert WordOk(v.q.place[s], v.q.pend[s].gs, u);
    GsRoundTrip(u, FREE);
    GsRoundTrip(u, ISSUED);
    GsRoundTrip(u, DONE);
    GsRoundTrip(u, ERROR);
  }

  /** What a slot on the done list is known to hold and owe. */
  lemma DoneSlot(z: Store, v: Pool) returns (tag: nat)
    requires PoolOk(z, v, -1) && v.q.done != []
    ensures var s := v.q.done[0];
            && s < |v.q.place| == |v.q.pend| == |v.a.chains| == |v.a.heads| == |v.due| == |v.staging|
            && v.q.place[s] == OnDone && tag == v.q.pend[s].tag && v.staging[s] == Bytes(z, tag, z.page)
            && ChainAt(v.a.nodes, v.q.pend[s].first, v.a.chains[s]) && |v.a.nodes| <= NIL
            && ChainMatches(z, v.a.nodes, v.wjob, tag, v.a.chains[s]) && v.due[s] == JobsAt(v.wjob, v.a.chains[s])
  {
    ReapedKeeps(v.q, false, 0);
    var s := v.q.done[0];
    FreeCount(z, v, -1);
    RowsAt(z, v.a, v.wjob, v.q.place, v.q.pend, v.staging, -1, s);
    DueAt(v.a.chains, v.wjob, v.q.place, v.due, -1, s);
    assert SlotChainOk(v.a, s);
    tag := v.q.pend[s].tag;
  }

  lemma GpuWeaken(v: Pool, out: seq<Delivery>, tail: nat, mark: nat, s: nat)
    requires GpuPool(v, out, tail, mark, -1)
    ensures GpuPool(v, out, tail, mark, s)
  {
  }

  lemma ServedMoves(jobs: seq<Ent>, jobs': seq<Ent>, due: seq<multiset<Ent>>, s: nat)
    requires s < |due| && multiset(jobs') == multiset(jobs) + due[s]
    ensures multiset(jobs') + Sum(due[s := multiset{}]) == multiset(jobs) + Sum(due)
  {
    SumUpdate(due, s, multiset{});
    assert Sum(due[s := multiset{}]) + due[s] == Sum(due);
  }

  lemma HeldSlots(z: Store, v: Pool)
    requires PoolOk(z, v, -1)
    ensures forall s :: s in v.q.held ==> s < |v.q.pend| && s < |v.q.place| && v.q.place[s] == OnHeld
  {
    assert Lists(v.q.place, OnHeld, v.q.held);
  }

  /** A wrapped comparison that says the tail has reached a watermark is right: watermarks are at
      most a ring ahead. */
  lemma HeldReached(z: Store, v: Pool, i: nat, out: seq<Delivery>, tail: nat, mark: nat, entries: nat)
    requires PoolOk(z, v, -1) && i < |v.q.held| && GpuPool(v, out, tail, mark, -1) && |out| <= tail + entries
             && entries <= 0x8000_0000
    requires v.q.held[i] < |v.q.pend| && Reached(tail, v.q.pend[v.q.held[i]].wm)
    ensures v.q.held[i] < |v.q.place| && v.q.place[v.q.held[i]] == OnHeld && v.q.pend[v.q.held[i]].wm <= tail
  {
    HeldSlots(z, v);
    assert v.q.held[i] in v.q.held;
    var wm := v.q.pend[v.q.held[i]].wm;
    assert wm <= tail + 0x8000_0000;
    ReachedSafe(tail, wm);
  }

  lemma ReachedSafe(tail: int, wm: int)
    requires wm <= tail + 0x8000_0000 && Reached(tail, wm)
    ensures wm <= tail
  {
  }

  /** The held pages the GPU has not finished with. */
  ghost function StillHeld(l: seq<nat>, pend: seq<PendPage>, tail: nat): seq<nat> {
    if l == [] then []
    else
      var n := |l| - 1;
      StillHeld(l[..n], pend, tail) + (if l[n] < |pend| && Reached(tail, pend[l[n]].wm) then [] else [l[n]])
  }

  /** The walk has passed n of the pages held at first, i of them staying. */
  ghost predicate Walked(held: seq<nat>, i: nat, was: seq<nat>, n: nat, pend: seq<PendPage>, tail: nat) {
    n <= |was| && held == StillHeld(was[..n], pend, tail) + was[n..] && i == |StillHeld(was[..n], pend, tail)|
  }

  lemma WalkStart(was: seq<nat>, pend: seq<PendPage>, tail: nat)
    ensures Walked(was, 0, was, 0, pend, tail)
  {
    assert was[..0] == [] && StillHeld([], pend, tail) == [];
  }

  lemma WalkNext(held: seq<nat>, i: nat, was: seq<nat>, n: nat, pend: seq<PendPage>, tail: nat)
    requires Walked(held, i, was, n, pend, tail) && i < |held| && held[i] < |pend|
    ensures if Reached(tail, pend[held[i]].wm) then Walked(held[..i] + held[i + 1..], i, was, n + 1, pend, tail)
            else Walked(held, i + 1, was, n + 1, pend, tail)
  {
    var k := StillHeld(was[..n], pend, tail);
    assert was[..n + 1][..n] == was[..n] && held[i] == was[n];
    assert held[..i] == k && held[i + 1..] == was[n + 1..];
    assert was[n..] == [was[n]] + was[n + 1..];
  }

  lemma WalkEnd(held: seq<nat>, i: nat, was: seq<nat>, n: nat, pend: seq<PendPage>, tail: nat)
    requires Walked(held, i, was, n, pend, tail) && i >= |held|
    ensures held == StillHeld(was, pend, tail)
  {
    assert was[..n] == was;
  }

  /** The first position after the tail, or the tail where nothing is unconsumed. */
  function Ahead(tail: nat, head: nat): nat {
    if tail < head then tail + 1 else head
  }

  lemma {:induction false} StillHeldIn(l: seq<nat>, pend: seq<PendPage>, tail: nat, s: nat)
    requires s in StillHeld(l, pend, tail)
    ensures s in l && (s < |pend| ==> !Reached(tail, pend[s].wm))
  {
    var n := |l| - 1;
    if s in StillHeld(l[..n], pend, tail) { StillHeldIn(l[..n], pend, tail, s); }
  }

  /** What a reclaim leaves held is ahead of the tail. */
  lemma HeldAhead(z: Store, v: Pool, was: seq<nat>, out: seq<Delivery>, tail: nat, mark: nat)
    requires PoolOk(z, v, -1) && GpuPool(v, out, tail, mark, -1) && |out| < mark + 0x8000_0000
    requires v.q.held == StillHeld(was, v.q.pend, tail) && |out| <= tail + 0x8000_0000
    ensures forall s :: s in v.q.held ==> s < |v.q.pend| && tail < v.q.pend[s].wm
    ensures tail == |out| ==> v.q.held == []
    ensures GpuPool(v, out, tail, Ahead(tail, |out|), -1)
  {
    hide StillHeld, ArenaOk, RowsOk, DueOk, Reached, WordOk;
    HeldSlots(z, v);
    forall s | s in v.q.held ensures tail < v.q.pend[s].wm <= |out| {
      StillHeldIn(was, v.q.pend, tail, s);
      ReachedExact(tail, v.q.pend[s].wm);
    }
    if v.q.held != [] { assert v.q.held[0] in v.q.held; }
    HeldListed(z, v);
  }

  lemma HeldListed(z: Store, v: Pool)
    requires PoolOk(z, v, -1)
    ensures forall s :: 0 <= s < |v.q.place| && v.q.place[s] == OnHeld ==> s in v.q.held
  {
    assert Lists(v.q.place, OnHeld, v.q.held);
  }

  /** Once the tail has reached the head a reclaim releases every page held. */
  lemma AllReleased(z: Store, v: Pool, out: seq<Delivery>, tail: nat, mark: nat)
    requires PoolOk(z, v, -1) && GpuPool(v, out, tail, mark, -1) && tail == |out| < mark + 0x8000_0000
    ensures StillHeld(v.q.held, v.q.pend, tail) == []
  {
    hide StillHeld, PoolOk, Reached;
    HeldSlots(z, v);
    var l := StillHeld(v.q.held, v.q.pend, tail);
    if l != [] {
      assert l[0] in l;
      StillHeldIn(v.q.held, v.q.pend, tail, l[0]);
      ReachedExact(tail, v.q.pend[l[0]].wm);
    }
  }

  // ---- what can be owed ----

  /** The nodes on the chains of the first k slots. */
  ghost function OwnedBelow(own: seq<int>, k: nat): set<nat> {
    set x: nat | x < |own| && 0 <= own[x] < k
  }

  /** What the first k slots owe stands for nodes of their own. */
  lemma {:induction false} OwedBelow(z: Store, v: Pool, k: nat)
    requires PoolOk(z, v, -1) && k <= |v.due| == |v.a.chains|
    ensures |Sum(v.due[..k])| <= |OwnedBelow(v.a.own, k)|
  {
    hide PoolOk, OwnedBelow;
    if k > 0 {
      var n := k - 1;
      OwedBelow(z, v, n);
      assert v.due[..k][..n] == v.due[..n];
      OwedOne(z, v, n);
      ChainOwned(z, v, n);
      assert |Sum(v.due[..k])| == |Sum(v.due[..n])| + |v.due[n]|;
    }
  }

  /** The nodes of one more chain are nodes of its own. */
  lemma ChainOwned(z: Store, v: Pool, s: nat)
    requires PoolOk(z, v, -1) && s < |v.a.chains|
    ensures |OwnedBelow(v.a.own, s)| + |v.a.chains[s]| <= |OwnedBelow(v.a.own, s + 1)|
  {
    hide SlotsOk, RowsOk, DueOk;
    var c := v.a.chains[s];
    assert SlotChainOk(v.a, s);
    assert OwnedBelow(v.a.own, s) !! Elems(c);
    SubsetSize(OwnedBelow(v.a.own, s) + Elems(c), OwnedBelow(v.a.own, s + 1));
  }

  lemma OwedOne(z: Store, v: Pool, s: nat)
    requires PoolOk(z, v, -1) && s < |v.due| == |v.a.chains|
    ensures |v.due[s]| <= |v.a.chains[s]|
  {
    hide SlotsOk, ArenaOk, RowsOk, JobSeq;
    FreeCount(z, v, -1);
    DueAt(v.a.chains, v.wjob, v.q.place, v.due, -1, s);
    JobCount(v.wjob, v.a.chains[s]);
  }

  lemma JobCount(wjob: seq<Ent>, c: seq<nat>)
    ensures |JobsAt(wjob, c)| <= |c|
  {
  }

  /** No more is owed than there are waiters. */
  lemma OwedFits(z: Store, v: Pool)
    requires PoolOk(z, v, -1)
    ensures |Sum(v.due)| <= |v.a.nodes|
  {
    hide PoolOk, Sum;
    FreeCount(z, v, -1);
    OwedBelow(z, v, |v.due|);
    assert v.due[..|v.due|] == v.due;
    SubsetSize(OwnedBelow(v.a.own, |v.due|), Below(|v.a.own|));
  }

  lemma PoolSlots(z: Store, v: Pool, s: nat)
    requires PoolOk(z, v, s) && v.q.ret != []
    ensures v.q.ret[0] < |v.q.pend| == |v.q.place| && v.q.place[v.q.ret[0]] == OnReturn && SlotsOk(v.q)
  {
    DrainedKeeps(v.q);
  }

  lemma StackRoomReturned(z: Store, v: Pool, s: nat)
    requires PoolOk(z, v, s) && s < |v.q.place| && v.q.place[s] == OnReturn
    ensures |v.q.stack| < |v.q.pend|
  {
    StackRoom(z, v, s);
  }

  lemma FreeGpu(v: Pool, s: nat, out: seq<Delivery>, tail: nat, mark: nat)
    requires s < |v.a.heads| && s < |v.a.chains| && v.a.chains[s] != [] && v.a.heads[s] < |v.a.nodes|
             && v.a.heads[s] < |v.a.own|
    ensures GpuPool(v, out, tail, mark, -1) <==> GpuPool(FreePool(v, s), out, tail, mark, -1)
  {
  }

  lemma GpuError(v: Pool, out: seq<Delivery>, tail: nat, tail': nat, mark: nat, skip: int, d: Delivery)
    requires GpuPool(v, out, tail, mark, skip) && tail <= tail' <= |out| && d.status != 0
    ensures GpuPool(v, out + [d], tail', mark, skip)
  {
  }

  lemma ChainStart(z: Store, gpuPull: bool, mapped: nat -> bool, nodes: seq<Waiter>, head: nat, c: seq<nat>,
                   out: seq<Delivery>, outJobs: seq<Ent>, s: nat, st: nat)
    requires ChainAt(nodes, head, c) && |out| == |outJobs|
    ensures head == (if c == [] then NIL else c[0]) && Report(z, gpuPull, mapped, out, outJobs, |out|, s, st)
  {
  }

  lemma ChainNode(z: Store, nodes: seq<Waiter>, wjob: seq<Ent>, tag: nat, head: nat, c: seq<nat>, k: nat)
    requires ChainAt(nodes, head, c) && ChainMatches(z, nodes, wjob, tag, c) && |nodes| <= NIL
    ensures |wjob| == |nodes|
    ensures k < |c| ==> c[k] < |nodes| && nodes[c[k]].next == NextIn(c, k)
                        && NodeMatches(z, nodes[c[k]], wjob[c[k]], tag)
  {
    if k < |c| { assert c[k] in c; }
  }

  lemma ReportNext(z: Store, gpuPull: bool, mapped: nat -> bool, out: seq<Delivery>, jobs: seq<Ent>,
                   out': seq<Delivery>, jobs': seq<Ent>, n: nat, s: nat, st: nat)
    requires Report(z, gpuPull, mapped, out, jobs, n, s, st) && |out'| == |jobs'| == |out| + 1
    requires out'[..|out|] == out && jobs'[..|out|] == jobs
    requires out'[|out|].slot == s && Answers(z, gpuPull, mapped, out'[|out|], jobs'[|out|], st)
    ensures Report(z, gpuPull, mapped, out', jobs', n, s, st)
  {
    assert forall i :: 0 <= i < |out| ==> out'[i] == out[i] && jobs'[i] == jobs[i];
  }

  lemma FreeCount(z: Store, v: Pool, skip: int)
    requires PoolOk(z, v, skip)
    ensures v.wfreeN == |v.a.free| && |v.a.nodes| == |v.a.own| == |v.wjob|
            && |v.a.heads| == |v.a.chains| == |v.q.pend| == |v.q.place| == |v.due| == |v.staging|
    ensures v.a.free != [] ==> v.a.wfree == v.a.free[0] < |v.a.nodes|
  {
  }

  lemma BuiltAt(z: Store, v: Pool, s: nat, tag: nat, jobs: multiset<Ent>)
    requires Built(z, v, s, tag, jobs)
    ensures s < |v.q.place| == |v.q.pend| == |v.a.chains| == |v.a.heads| == |v.due| == |v.staging|
    ensures v.q.place[s] == AtBackend && v.q.pend[s].first == v.a.heads[s] && v.q.pend[s].tag == tag
            && v.due[s] == multiset{}
    ensures JobsAt(v.wjob, v.a.chains[s]) == jobs
  {
  }

  lemma HeadOf(z: Store, v: Pool, s: nat)
    requires PoolOk(z, v, s) && s < |v.a.chains|
    ensures |v.a.heads| == |v.a.chains| && (v.a.heads[s] == NIL <==> v.a.chains[s] == [])
    ensures v.a.chains[s] != [] ==> v.a.heads[s] == v.a.chains[s][0] < |v.a.nodes| == |v.a.own|
  {
    assert SlotChainOk(v.a, s);
    ChainEnd(v.a.nodes, v.a.heads[s], v.a.chains[s]);
  }

  /** Slots off the stack leave room on it. */
  lemma StackRoom(z: Store, v: Pool, s: nat)
    requires PoolOk(z, v, s) && s < |v.q.place| && v.q.place[s] != OnStack
    ensures |v.q.stack| < |v.q.pend| == |v.q.place|
  {
    NoDupFits(v.q.stack, s, |v.q.place|);
  }
}

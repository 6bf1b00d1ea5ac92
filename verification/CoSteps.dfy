/** The steps of a shard on its pool: what each does to the value and that each keeps it sound. */
module CoSteps {
  import opened Collections
  import opened CoPools
  import opened CoState

  // ---- one slot at a time ----

  lemma RowsAt(z: Store, a: Arena, wjob: seq<Ent>, place: seq<Place>, pend: seq<PendPage>, staging: seq<seq<int>>,
               skip: int, s: nat)
    requires RowsOk(z, a, wjob, place, pend, staging, skip) && s < |place| && s != skip
    ensures |a.chains| == |a.heads| == |place| == |pend| == |staging|
    ensures RowOk(z, a.nodes, wjob, a.chains[s], a.heads[s], place[s], pend[s], staging[s])
  {
  }

  /** The slot being worked on may change place, record and buffer. */
  lemma RowsSet(z: Store, a: Arena, wjob: seq<Ent>, place: seq<Place>, pend: seq<PendPage>, staging: seq<seq<int>>,
                skip: int,
                s: nat, p: Place, pg: PendPage)
    requires RowsOk(z, a, wjob, place, pend, staging, skip) && s < |place| && (skip == -1 || skip == s)
    ensures s < |pend| && RowsOk(z, a, wjob, place[s := p], pend[s := pg], staging, s)
  {
  }

  lemma RowsClose(z: Store, a: Arena, wjob: seq<Ent>, place: seq<Place>, pend: seq<PendPage>, staging: seq<seq<int>>,
                  s: nat)
    requires RowsOk(z, a, wjob, place, pend, staging, s) && s < |place|
    requires RowOk(z, a.nodes, wjob, a.chains[s], a.heads[s], place[s], pend[s], staging[s])
    ensures RowsOk(z, a, wjob, place, pend, staging, -1)
  {
  }

  lemma RowsStage(z: Store, a: Arena, wjob: seq<Ent>, place: seq<Place>, pend: seq<PendPage>, staging: seq<seq<int>>,
                  s: nat, b: seq<int>)
    requires RowsOk(z, a, wjob, place, pend, staging, s) && s < |place|
    ensures s < |staging| && RowsOk(z, a, wjob, place, pend, staging[s := b], s)
  {
  }

  lemma DueAt(chains: seq<seq<nat>>, wjob: seq<Ent>, place: seq<Place>, due: seq<multiset<Ent>>, skip: int, s: nat)
    requires DueOk(chains, wjob, place, due, skip) && s < |place| && s != skip
    ensures |due| == |place| == |chains| && OwesOk(wjob, chains[s], place[s], due[s])
  {
  }

  lemma DueSet(chains: seq<seq<nat>>, wjob: seq<Ent>, place: seq<Place>, due: seq<multiset<Ent>>, skip: int, s: nat,
               p: Place, m: multiset<Ent>)
    requires DueOk(chains, wjob, place, due, skip) && s < |place| && (skip == -1 || skip == s)
    ensures s < |due| && DueOk(chains, wjob, place[s := p], due, s)
            && DueOk(chains, wjob, place[s := p], due[s := m], s)
  {
  }

  lemma DueClose(chains: seq<seq<nat>>, wjob: seq<Ent>, place: seq<Place>, due: seq<multiset<Ent>>, s: nat)
    requires DueOk(chains, wjob, place, due, s) && s < |place| && OwesOk(wjob, chains[s], place[s], due[s])
    ensures DueOk(chains, wjob, place, due, -1)
  {
  }

  /** A slot's chain is made of nodes it owns. */
  lemma NotInChain(a: Arena, t: nat, w: nat)
    requires ArenaOk(a) && t < |a.chains| && w < |a.own| && a.own[w] != t
    ensures w !in a.chains[t]
  {
    assert SlotChainOk(a, t);
    OwnsApart(a.own, t, a.chains[t], w);
  }

  /** Rewriting a node outside its chain does not disturb a slot. */
  lemma RowNodeFrame(z: Store, nodes: seq<Waiter>, wjob: seq<Ent>, c: seq<nat>, head: nat, p: Place, pg: PendPage,
                     staged: seq<int>,
                     w: nat, v: Waiter, e: Ent)
    requires RowOk(z, nodes, wjob, c, head, p, pg, staged) && w < |nodes| == |wjob| && w !in c
    ensures RowOk(z, nodes[w := v], wjob, c, head, p, pg, staged)
            && RowOk(z, nodes[w := v], wjob[w := e], c, head, p, pg, staged)
  {
  }

  lemma OwesNodeFrame(wjob: seq<Ent>, c: seq<nat>, p: Place, owed: multiset<Ent>, w: nat, e: Ent)
    requires OwesOk(wjob, c, p, owed) && w < |wjob| && w !in c
    ensures OwesOk(wjob[w := e], c, p, owed)
  {
    JobSeqFrame(wjob, c, w, e);
  }

  // ---- arming a slot ----

  function Top(q: Slots): nat
    requires q.stack != []
  {
    q.stack[|q.stack| - 1]
  }

  /** The slot being worked on: armed for a page, its chain standing for exactly the requests of
      `jobs`, owing nothing yet. */
  ghost predicate Built(z: Store, v: Pool, s: nat, tag: nat, jobs: multiset<Ent>) {
    && s < |v.q.place| == |v.q.pend| == |v.a.chains| == |v.a.heads| == |v.due| == |v.staging|
    && v.q.place[s] == AtBackend && v.q.pend[s].tag == tag && v.q.pend[s].first == v.a.heads[s]
    && ChainMatches(z, v.a.nodes, v.wjob, tag, v.a.chains[s]) && JobsAt(v.wjob, v.a.chains[s]) == jobs
    && v.due[s] == multiset{}
  }

  lemma FreeSlot(z: Store, v: Pool, s: nat)
    requires PoolOk(z, v, -1) && s < |v.q.place| && v.q.place[s] == OnStack
    ensures |v.q.place| == |v.q.pend| == |v.a.chains| == |v.a.heads| == |v.due| == |v.staging|
    ensures v.a.chains[s] == [] && v.a.heads[s] == NIL && v.due[s] == multiset{}
  {
    RowsAt(z, v.a, v.wjob, v.q.place, v.q.pend, v.staging, -1, s);
    DueAt(v.a.chains, v.wjob, v.q.place, v.due, -1, s);
    assert SlotChainOk(v.a, s);
  }

  function ArmPool(v: Pool, tag: nat, now: nat): Pool
    requires v.q.stack != [] && Top(v.q) < |v.q.pend| && |v.q.pend| == |v.q.place| == |v.q.uses|
  {
    v.(q := Arm(v.q, tag, now))
  }

  lemma ArmPoolKeeps(z: Store, v: Pool, tag: nat, now: nat)
    requires PoolOk(z, v, -1) && v.q.stack != []
    ensures Top(v.q) < |v.q.pend| == |v.q.place| == |v.q.uses| && v.q.place[Top(v.q)] == OnStack
    ensures PoolOk(z, ArmPool(v, tag, now), Top(v.q)) && Built(z, ArmPool(v, tag, now), Top(v.q), tag, multiset{})
  {
    ArmKeeps(v.q, tag, now);
    var s := Top(v.q);
    FreeSlot(z, v, s);
    hide SlotsOk, ArenaOk, RowsOk, DueOk, GsMake, GsGen;
    RowsSet(z, v.a, v.wjob, v.q.place, v.q.pend, v.staging, -1, s, AtBackend, ArmPool(v, tag, now).q.pend[s]);
    DueSet(v.a.chains, v.wjob, v.q.place, v.due, -1, s, AtBackend, multiset{});
  }

  // ---- adding a waiter ----

  /** A waiter for request e in front of slot s's chain. */
  function AddPool(v: Pool, s: nat, e: Ent, off: nat): Pool
    requires v.a.free != [] && v.a.free[0] < |v.a.nodes| && v.a.free[0] < |v.a.own| && v.a.free[0] < |v.wjob|
    requires s < |v.a.heads| && s < |v.a.chains| && s < |v.q.pend| && v.wfreeN > 0
  {
    var w := v.a.free[0];
    v.(a := PushWaiter(v.a, s, e.reqId, e.dst, off), q := v.q.(pend := v.q.pend[s := v.q.pend[s].(first := w)]),
       wfreeN := v.wfreeN - 1, wjob := v.wjob[w := e])
  }

  lemma FirstKeeps(q: Slots, s: nat, w: nat)
    requires SlotsOk(q) && s < |q.pend|
    ensures SlotsOk(q.(pend := q.pend[s := q.pend[s].(first := w)]))
  {
    hide Lists, WordOk;
  }

  lemma PushRows(z: Store, v: Pool, s: nat, e: Ent, off: nat)
    requires PoolOk(z, v, s) && s < |v.q.place| && v.a.free != []
    ensures s < |v.a.chains| == |v.a.heads| && s < |v.q.pend| && v.a.free[0] < |v.a.nodes| == |v.a.own| == |v.wjob|
            && v.wfreeN > 0
    ensures var b := PushWaiter(v.a, s, e.reqId, e.dst, off);
            && RowsOk(z, b, v.wjob[v.a.free[0] := e], v.q.place, v.q.pend, v.staging, s)
            && DueOk(b.chains, v.wjob[v.a.free[0] := e], v.q.place, v.due, s)
  {
    PushKeeps(v.a, s, e.reqId, e.dst, off);
    FreeNodeOwn(v.a);
    var w, b := v.a.free[0], PushWaiter(v.a, s, e.reqId, e.dst, off);
    forall t | 0 <= t < |v.q.place| && t != s
      ensures RowOk(z, b.nodes, v.wjob[w := e], b.chains[t], b.heads[t], v.q.place[t], v.q.pend[t], v.staging[t])
      ensures OwesOk(v.wjob[w := e], b.chains[t], v.q.place[t], v.due[t])
    {
      hide ArenaOk, SlotsOk, RowOk, OwesOk, RowsOk, DueOk;
      RowsAt(z, v.a, v.wjob, v.q.place, v.q.pend, v.staging, s, t);
      DueAt(v.a.chains, v.wjob, v.q.place, v.due, s, t);
      NotInChain(v.a, t, w);
      RowNodeFrame(z, v.a.nodes, v.wjob, v.a.chains[t], v.a.heads[t], v.q.place[t], v.q.pend[t], v.staging[t], w,
                   b.nodes[w], e);
      OwesNodeFrame(v.wjob, v.a.chains[t], v.q.place[t], v.due[t], w, e);
    }
    hide ArenaOk, SlotsOk, RowOk, OwesOk;
  }

  lemma FreeNodeOwn(a: Arena)
    requires ArenaOk(a) && a.free != []
    ensures a.free[0] < |a.own| && a.own[a.free[0]] == -1
    ensures forall t :: 0 <= t < |a.chains| ==> a.free[0] !in a.chains[t]
  {
    OwnsAt(a.own, -1, a.free, 0);
    forall t | 0 <= t < |a.chains| ensures a.free[0] !in a.chains[t] { NotInChain(a, t, a.free[0]); }
  }

  lemma BuiltAdd(z: Store, v: Pool, s: nat, tag: nat, jobs: multiset<Ent>, e: Ent)
    requires Built(z, v, s, tag, jobs) && ArenaOk(v.a) && v.a.free != [] && |v.wjob| == |v.a.nodes| && v.wfreeN > 0
    requires StoreOk(z) && e.tag == tag == TagOf(z, e.node)
    ensures v.a.free[0] < |v.a.nodes| == |v.a.own|
    ensures Built(z, AddPool(v, s, e, OffOf(z, e.node)), s, tag, jobs + multiset{e})
  {
    hide ArenaOk, JobsAt, ChainMatches;
    FreeNodeOwn(v.a);
    var w, c := v.a.free[0], v.a.chains[s];
    FreeFirst(v.a);
    JobsPush(v.wjob, c, w, e);
    ChainPush(z, v.a.nodes, v.wjob, tag, c, w, Waiter(e.reqId, e.dst, OffOf(z, e.node), v.a.heads[s]), e);
  }

  lemma FreeFirst(a: Arena)
    requires ArenaOk(a) && a.free != []
    ensures a.free[0] < |a.nodes| == |a.own| && a.wfree == a.free[0]
  {
  }

  /** One more node at the front of a chain stands for one more request. */
  lemma JobsPush(wjob: seq<Ent>, c: seq<nat>, w: nat, e: Ent)
    requires w < |wjob| && w !in c
    ensures JobsAt(wjob[w := e], [w] + c) == JobsAt(wjob, c) + multiset{e}
  {
    JobSeqFrame(wjob, c, w, e);
    assert ([w] + c)[1..] == c;
    assert JobSeq(wjob[w := e], [w] + c) == [e] + JobSeq(wjob, c);
  }

  lemma ChainPush(z: Store, nodes: seq<Waiter>, wjob: seq<Ent>, tag: nat, c: seq<nat>, w: nat, v: Waiter, e: Ent)
    requires ChainMatches(z, nodes, wjob, tag, c) && w < |nodes| && w !in c && NodeMatches(z, v, e, tag)
    ensures w < |wjob| && ChainMatches(z, nodes[w := v], wjob[w := e], tag, [w] + c)
  {
  }

  lemma AddPoolKeeps(z: Store, v: Pool, s: nat, tag: nat, jobs: multiset<Ent>, e: Ent)
    requires PoolOk(z, v, s) && Built(z, v, s, tag, jobs) && v.a.free != [] && e.tag == tag == TagOf(z, e.node)
    ensures v.a.free[0] < |v.a.nodes| == |v.a.own| == |v.wjob| && v.wfreeN > 0 && v.a.wfree == v.a.free[0]
    ensures var v' := AddPool(v, s, e, OffOf(z, e.node));
            PoolOk(z, v', s) && Built(z, v', s, tag, jobs + multiset{e}) && |v'.a.free| == |v.a.free| - 1
  {
    var off := OffOf(z, e.node);
    PushKeeps(v.a, s, e.reqId, e.dst, off);
    PushRows(z, v, s, e, off);
    BuiltAdd(z, v, s, tag, jobs, e);
    FirstKeeps(v.q, s, v.a.free[0]);
    hide ArenaOk, SlotsOk, RowsOk, DueOk, Built;
    var b := PushWaiter(v.a, s, e.reqId, e.dst, off);
    RowsSet(z, b, v.wjob[v.a.free[0] := e], v.q.place, v.q.pend, v.staging, s, s, v.q.place[s],
            v.q.pend[s].(first := v.a.free[0]));
    assert v.q.place[s := v.q.place[s]] == v.q.place;
  }

  // ---- freeing a chain ----

  /** One node of slot s's chain back to the free list. */
  function FreePool(v: Pool, s: nat): Pool
    requires s < |v.a.heads| && s < |v.a.chains| && v.a.chains[s] != [] && v.a.heads[s] < |v.a.nodes|
             && v.a.heads[s] < |v.a.own|
  {
    v.(a := PopWaiter(v.a, s), wfreeN := v.wfreeN + 1)
  }

  lemma OwnedBy(a: Arena, s: nat)
    requires ArenaOk(a) && s < |a.chains| && a.chains[s] != []
    ensures a.chains[s][0] < |a.own| && a.own[a.chains[s][0]] == s
    ensures forall t :: 0 <= t < |a.chains| && t != s ==> a.chains[s][0] !in a.chains[t]
  {
    assert SlotChainOk(a, s);
    OwnsAt(a.own, s, a.chains[s], 0);
    forall t | 0 <= t < |a.chains|
        && t != s ensures a.chains[s][0] !in a.chains[t] { NotInChain(a, t, a.chains[s][0]); }
  }

  lemma FreePoolKeeps(z: Store, v: Pool, s: nat)
    requires PoolOk(z, v, s) && s < |v.a.chains| && v.a.chains[s] != []
    ensures |v.a.heads| == |v.a.chains| && v.a.heads[s] == v.a.chains[s][0] < |v.a.nodes| == |v.a.own|
    ensures PoolOk(z, FreePool(v, s), s)
  {
    PopKeeps(v.a, s);
    OwnedBy(v.a, s);
    var w, b := v.a.heads[s], PopWaiter(v.a, s);
    forall t | 0 <= t < |v.q.place| && t != s
      ensures RowOk(z, b.nodes, v.wjob, b.chains[t], b.heads[t], v.q.place[t], v.q.pend[t], v.staging[t])
    {
      hide ArenaOk, SlotsOk, RowOk, OwesOk, RowsOk, DueOk;
      RowsAt(z, v.a, v.wjob, v.q.place, v.q.pend, v.staging, s, t);
      RowNodeFrame(z, v.a.nodes, v.wjob, v.a.chains[t], v.a.heads[t], v.q.place[t], v.q.pend[t], v.staging[t], w,
                   b.nodes[w], v.wjob[w]);
    }
    hide ArenaOk, SlotsOk, RowOk, OwesOk;
  }

  /** pend_free of a slot whose chain is empty: after a refused or finished read. */
  function UndoPool(v: Pool, s: nat): Pool
    requires s < |v.q.pend| && s < |v.q.place|
  {
    v.(q := Free(v.q, s))
  }

  lemma UndoPoolKeeps(z: Store, v: Pool, s: nat)
    requires PoolOk(z, v, s) && s < |v.q.place| && v.q.place[s] == AtBackend
    requires s < |v.a.chains| && v.a.chains[s] == [] && s < |v.due| && v.due[s] == multiset{}
    ensures s < |v.q.pend| && PoolOk(z, UndoPool(v, s), -1)
  {
    Lengths(v.q);
    UndoKeeps(v.q, s);
    hide ArenaOk, SlotsOk, RowsOk, DueOk, GsMake, GsGen;
    RowsSet(z, v.a, v.wjob, v.q.place, v.q.pend, v.staging, s, s, OnStack, UndoPool(v, s).q.pend[s]);
    DueSet(v.a.chains, v.wjob, v.q.place, v.due, s, s, OnStack, multiset{});
    FreedClose(z, UndoPool(v, s), s);
  }

  lemma Lengths(q: Slots)
    requires SlotsOk(q)
    ensures |q.pend| == |q.place| == |q.uses|
  {
  }

  lemma FreedClose(z: Store, v: Pool, s: nat)
    requires RowsOk(z, v.a, v.wjob, v.q.place, v.q.pend, v.staging, s) && DueOk(v.a.chains, v.wjob, v.q.place, v.due, s)
    requires s < |v.q.place| && v.q.place[s] == OnStack && v.a.chains[s] == [] && v.due[s] == multiset{}
    ensures RowsOk(z, v.a, v.wjob, v.q.place, v.q.pend, v.staging, -1)
            && DueOk(v.a.chains, v.wjob, v.q.place, v.due, -1)
  {
    RowsClose(z, v.a, v.wjob, v.q.place, v.q.pend, v.staging, s);
    DueClose(v.a.chains, v.wjob, v.q.place, v.due, s);
  }

  /** co_drain_returns for the first slot handed back, its chain already freed. */
  function DrainPool(v: Pool): Pool
    requires v.q.ret != [] && v.q.ret[0] < |v.q.place| && v.q.ret[0] < |v.q.pend|
  {
    v.(q := Drained(v.q))
  }

  lemma DrainPoolKeeps(z: Store, v: Pool)
    requires v.q.ret != [] && PoolOk(z, v, v.q.ret[0])
    requires v.q.ret[0] < |v.a.chains| && v.a.chains[v.q.ret[0]] == [] && v.q.ret[0] < |v.due|
             && v.due[v.q.ret[0]] == multiset{}
    ensures v.q.ret[0] < |v.q.pend| == |v.q.place| && PoolOk(z, DrainPool(v), -1)
  {
    Lengths(v.q);
    DrainedKeeps(v.q);
    var s := v.q.ret[0];
    hide ArenaOk, SlotsOk, RowsOk, DueOk, GsMake, GsGen;
    RowsSet(z, v.a, v.wjob, v.q.place, v.q.pend, v.staging, s, s, OnStack, DrainPool(v).q.pend[s]);
    DueSet(v.a.chains, v.wjob, v.q.place, v.due, s, s, OnStack, multiset{});
    FreedClose(z, DrainPool(v), s);
  }

  /** A returned slot owes nothing. */
  lemma ReturnedOwesNothing(z: Store, v: Pool)
    requires PoolOk(z, v, -1) && v.q.ret != []
    ensures v.q.ret[0] < |v.q.place| == |v.q.pend| == |v.a.chains| == |v.a.heads| == |v.due|
    ensures v.due[v.q.ret[0]] == multiset{} && v.q.pend[v.q.ret[0]].first == v.a.heads[v.q.ret[0]]
    ensures PoolOk(z, v, v.q.ret[0])
  {
    DrainedKeeps(v.q);
    var s := v.q.ret[0];
    RowsAt(z, v.a, v.wjob, v.q.place, v.q.pend, v.staging, -1, s);
    DueAt(v.a.chains, v.wjob, v.q.place, v.due, -1, s);
    hide ArenaOk, SlotsOk, RowOk;
  }

  // ---- the backend accepts ----

  /** An asynchronous DRAM read: the page's bytes are staged at issue and the slot owes its chain. */
  ghost function AcceptPool(z: Store, v: Pool, s: nat, jobs: multiset<Ent>): Pool
    requires s < |v.staging| && s < |v.due| && s < |v.q.pend|
  {
    v.(staging := v.staging[s := Bytes(z, v.q.pend[s].tag, z.page)], due := v.due[s := jobs])
  }

  lemma AcceptPoolKeeps(z: Store, v: Pool, s: nat, tag: nat, jobs: multiset<Ent>)
    requires PoolOk(z, v, s) && Built(z, v, s, tag, jobs)
    ensures PoolOk(z, AcceptPool(z, v, s, jobs), -1)
  {
    var v' := AcceptPool(z, v, s, jobs);
    RowsStage(z, v.a, v.wjob, v.q.place, v.q.pend, v.staging, s, v'.staging[s]);
    RowsClose(z, v.a, v.wjob, v.q.place, v.q.pend, v'.staging, s);
    DueSet(v.a.chains, v.wjob, v.q.place, v.due, s, s, AtBackend, jobs);
    assert v.q.place[s := AtBackend] == v.q.place;
    DueClose(v.a.chains, v.wjob, v.q.place, v'.due, s);
    hide ArenaOk, SlotsOk, RowsOk, DueOk;
  }

  // ---- completion, reaping, reclaim ----

  function FinishPool(v: Pool, s: nat, st: PendState): Pool
    requires s < |v.q.pend| && s < |v.q.place| && s < |v.q.uses|
  {
    v.(q := Finish(v.q, s, st))
  }

  lemma FinishPoolKeeps(z: Store, v: Pool, s: nat, st: PendState)
    requires PoolOk(z, v, -1) && s < |v.q.pend| && s < |v.q.place| && v.q.place[s] == AtBackend
             && (st == DONE || st == ERROR)
    ensures s < |v.q.uses| && PoolOk(z, FinishPool(v, s, st), -1)
  {
    Lengths(v.q);
    FinishKeeps(v.q, s, st);
    RowsAt(z, v.a, v.wjob, v.q.place, v.q.pend, v.staging, -1, s);
    DueAt(v.a.chains, v.wjob, v.q.place, v.due, -1, s);
    hide ArenaOk, SlotsOk, RowsOk, DueOk, GsMake, GsGen;
    var v' := FinishPool(v, s, st);
    RowsSet(z, v.a, v.wjob, v.q.place, v.q.pend, v.staging, -1, s, OnDone, v'.q.pend[s]);
    DueSet(v.a.chains, v.wjob, v.q.place, v.due, -1, s, OnDone, multiset{});
    RowsClose(z, v'.a, v'.wjob, v'.q.place, v'.q.pend, v'.staging, s);
    DueClose(v'.a.chains, v'.wjob, v'.q.place, v'.due, s);
  }

  /** The first finished slot, delivered: held for the GPU, or handed back. */
  ghost function ReapPool(v: Pool, gpuPull: bool, wm: nat): Pool
    requires v.q.done != [] && v.q.done[0] < |v.q.place| && v.q.done[0] < |v.q.pend| && v.q.done[0] < |v.due|
  {
    v.(q := Reaped(v.q, gpuPull, wm), due := v.due[v.q.done[0] := multiset{}])
  }

  lemma ReapPoolKeeps(z: Store, v: Pool, gpuPull: bool, wm: nat)
    requires PoolOk(z, v, -1) && v.q.done != []
    ensures v.q.done[0] < |v.q.place| == |v.q.pend| == |v.due| && PoolOk(z, ReapPool(v, gpuPull, wm), -1)
  {
    Lengths(v.q);
    ReapedKeeps(v.q, gpuPull, wm);
    var s := v.q.done[0];
    RowsAt(z, v.a, v.wjob, v.q.place, v.q.pend, v.staging, -1, s);
    DueAt(v.a.chains, v.wjob, v.q.place, v.due, -1, s);
    hide ArenaOk, SlotsOk, RowsOk, DueOk, ChainMatches;
    var v' := ReapPool(v, gpuPull, wm);
    RowsSet(z, v.a, v.wjob, v.q.place, v.q.pend, v.staging, -1, s, v'.q.place[s], v'.q.pend[s]);
    assert v'.q.pend == v.q.pend[s := v'.q.pend[s]];
    DueSet(v.a.chains, v.wjob, v.q.place, v.due, -1, s, v'.q.place[s], multiset{});
    RowsClose(z, v'.a, v'.wjob, v'.q.place, v'.q.pend, v'.staging, s);
    DueClose(v'.a.chains, v'.wjob, v'.q.place, v'.due, s);
  }

  function ReclaimPool(v: Pool, i: nat): Pool
    requires i < |v.q.held| && v.q.held[i] < |v.q.place|
  {
    v.(q := Reclaimed(v.q, i))
  }

  lemma ReclaimPoolKeeps(z: Store, v: Pool, i: nat)
    requires PoolOk(z, v, -1) && i < |v.q.held|
    ensures v.q.held[i] < |v.q.place| && PoolOk(z, ReclaimPool(v, i), -1)
  {
    Lengths(v.q);
    ReclaimedKeeps(v.q, i);
    var s := v.q.held[i];
    RowsAt(z, v.a, v.wjob, v.q.place, v.q.pend, v.staging, -1, s);
    DueAt(v.a.chains, v.wjob, v.q.place, v.due, -1, s);
    hide ArenaOk, SlotsOk, RowsOk, DueOk, ChainMatches;
    var v' := ReclaimPool(v, i);
    RowsSet(z, v.a, v.wjob, v.q.place, v.q.pend, v.staging, -1, s, OnReturn, v.q.pend[s]);
    assert v'.q.pend == v.q.pend[s := v.q.pend[s]];
    DueSet(v.a.chains, v.wjob, v.q.place, v.due, -1, s, OnReturn, multiset{});
    RowsClose(z, v'.a, v'.wjob, v'.q.place, v'.q.pend, v'.staging, s);
    DueClose(v'.a.chains, v'.wjob, v'.q.place, v'.due, s);
  }

  // ---- the GPU's view of each step ----

  ghost predicate GpuPool(v: Pool, out: seq<Delivery>, tail: nat, mark: nat, skip: int) {
    GpuOk(out, tail, mark, v.q.place, v.q.pend, v.staging, skip)
  }

  lemma SetSame<T>(l: seq<T>, s: nat)
    requires s < |l|
    ensures l[s := l[s]] == l
  {
  }

  lemma ArmGpu(z: Store, v: Pool, tag: nat, now: nat, out: seq<Delivery>, tail: nat, mark: nat)
    requires PoolOk(z, v, -1) && v.q.stack != [] && GpuPool(v, out, tail, mark, -1)
    ensures Top(v.q) < |v.q.pend| == |v.q.place| == |v.q.uses| && GpuPool(ArmPool(v, tag, now), out, tail, mark, -1)
  {
    ArmPoolKeeps(z, v, tag, now);
    hide PoolOk, GpuOk, Built, GsMake, GsGen;
    GpuSet(out, tail, mark, v.q.place, v.q.pend, v.staging, Top(v.q), AtBackend, ArmPool(v, tag, now).q.pend[Top(v.q)]);
  }

  lemma AddGpu(v: Pool, s: nat, e: Ent, off: nat, out: seq<Delivery>, tail: nat, mark: nat)
    requires v.a.free != [] && v.a.free[0] < |v.a.nodes| && v.a.free[0] < |v.a.own| && v.a.free[0] < |v.wjob|
    requires s < |v.a.heads| && s < |v.a.chains| && s < |v.q.pend| && v.wfreeN > 0
    requires GpuPool(v, out, tail, mark, -1) && s < |v.q.place| && v.q.place[s] == AtBackend
    ensures GpuPool(AddPool(v, s, e, off), out, tail, mark, -1)
  {
    hide GpuOk;
    GpuSet(out, tail, mark, v.q.place, v.q.pend, v.staging, s, AtBackend, AddPool(v, s, e, off).q.pend[s]);
    SetSame(v.q.place, s);
  }

  lemma UndoGpu(v: Pool, s: nat, out: seq<Delivery>, tail: nat, mark: nat)
    requires s < |v.q.pend| && s < |v.q.place| && GpuPool(v, out, tail, mark, -1) && v.q.place[s] == AtBackend
    ensures GpuPool(UndoPool(v, s), out, tail, mark, -1)
  {
    hide GpuOk, GsMake, GsGen;
    GpuSet(out, tail, mark, v.q.place, v.q.pend, v.staging, s, OnStack, UndoPool(v, s).q.pend[s]);
  }

  lemma DrainGpu(z: Store, v: Pool, out: seq<Delivery>, tail: nat, mark: nat)
    requires v.q.ret != [] && SlotsOk(v.q) && GpuPool(v, out, tail, mark, -1)
    ensures v.q.ret[0] < |v.q.pend| == |v.q.place| && GpuPool(DrainPool(v), out, tail, mark, -1)
  {
    DrainedKeeps(v.q);
    hide GpuOk, SlotsOk, GsMake, GsGen;
    Lengths(v.q);
    GpuSet(out, tail, mark, v.q.place, v.q.pend, v.staging, v.q.ret[0], OnStack, DrainPool(v).q.pend[v.q.ret[0]]);
  }

  lemma AcceptGpu(z: Store, v: Pool, s: nat, jobs: multiset<Ent>, out: seq<Delivery>, tail: nat, mark: nat)
    requires s < |v.staging| && s < |v.due| && s < |v.q.pend| && s < |v.q.place| && v.q.place[s] == AtBackend
             && GpuPool(v, out, tail, mark, -1)
    ensures GpuPool(AcceptPool(z, v, s, jobs), out, tail, mark, -1)
  {
    hide GpuOk;
    GpuStage(out, tail, mark, v.q.place, v.q.pend, v.staging, s, AcceptPool(z, v, s, jobs).staging[s]);
  }

  lemma FinishGpu(v: Pool, s: nat, st: PendState, out: seq<Delivery>, tail: nat, mark: nat)
    requires s < |v.q.pend| && s < |v.q.place| && s < |v.q.uses| && v.q.place[s] == AtBackend
             && GpuPool(v, out, tail, mark, -1)
    ensures GpuPool(FinishPool(v, s, st), out, tail, mark, -1)
  {
    hide GpuOk, GsMake, GsGen;
    GpuSet(out, tail, mark, v.q.place, v.q.pend, v.staging, s, OnDone, FinishPool(v, s, st).q.pend[s]);
  }

  lemma ReapGpu(v: Pool, out: seq<Delivery>, tail: nat, mark: nat)
    requires v.q.done != [] && v.q.done[0] < |v.q.place| && v.q.done[0] < |v.q.pend| && v.q.done[0] < |v.due|
    requires GpuPool(v, out, tail, mark, v.q.done[0])
    ensures GpuPool(ReapPool(v, true, |out|), out, tail, mark, -1)
  {
    hide GpuOk;
    GpuHold(out, tail, mark, v.q.place, v.q.pend, v.staging, v.q.done[0]);
  }

  lemma ReclaimGpu(v: Pool, i: nat, out: seq<Delivery>, tail: nat, mark: nat)
    requires i < |v.q.held| && v.q.held[i] < |v.q.place| && v.q.held[i] < |v.q.pend| && v.q.place[v.q.held[i]] == OnHeld
    requires GpuPool(v, out, tail, mark, -1) && v.q.pend[v.q.held[i]].wm <= tail
    ensures GpuPool(ReclaimPool(v, i), out, tail, mark, -1)
  {
    hide GpuOk;
    GpuRelease(out, tail, mark, v.q.place, v.q.pend, v.staging, v.q.held[i]);
  }
}

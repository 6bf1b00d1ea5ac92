/** The state of one coalescing shard as a value, what holds of it between steps, and the
    conservation of requests through it. */
module CoState {
  import opened Collections
  import opened Radix
  import opened CoPools

  /** A request in the window: its page, identity, destination and node. */
  datatype Ent = Ent(tag: nat, reqId: nat, dst: nat, node: nat)

  /** One delivery: a completion and row store, or a gather descriptor naming the row's place
      in staging. */
  datatype Delivery = Delivery(reqId: nat, dst: nat, status: nat, data: seq<int>, slot: nat, off: nat)

  // ---- rows and pages ----

  /** Page and row sizes in bytes and the namespace they are read from. */
  datatype Store = Store(page: nat, row: nat, mem: nat -> int)

  predicate StoreOk(z: Store) {
    0 < z.row <= z.page <= 0x1_0000 && z.page % z.row == 0
  }

  function TagOf(z: Store, node: nat): nat
    requires StoreOk(z)
  {
    node * z.row - node * z.row % z.page
  }

  function OffOf(z: Store, node: nat): nat
    requires StoreOk(z)
  {
    node * z.row % z.page
  }

  function Bytes(z: Store, at: nat, n: nat): seq<int> {
    seq(n, i requires 0 <= i < n => z.mem(at + i))
  }

  lemma ModOfMultiple(a: nat, r: nat, k: nat)
    requires r > 0 && k > 0
    ensures k * r > 0 && (a * r) % (k * r) == a % k * r
  {
    var q, m := DivMod(a, k);
    calc { a * r; (k * q + m) * r; (k * r) * q + m * r; }
    MulMono(m, k, r);
    ProductPositive(k, r);
    DivUnique(a * r, k * r, q, m * r);
  }

  lemma ZeroTimes(k: nat, r: nat)
    ensures k * r > 0 ==> k > 0
  {
  }

  lemma PageAligned(at: nat, page: nat)
    requires page > 0
    ensures (at - at % page) % page == 0
  {
    var q, m := DivMod(at, page);
    DivUnique(at - m, page, q, 0);
  }

  /** A row never straddles a page: it is the staged page's bytes at the row's offset. */
  lemma RowInPage(z: Store, node: nat)
    requires StoreOk(z)
    ensures OffOf(z, node) + z.row <= z.page
    ensures TagOf(z, node) + OffOf(z, node) == node * z.row && TagOf(z, node) % z.page == 0
    ensures Bytes(z, TagOf(z, node), z.page)[OffOf(z, node)..OffOf(z, node) + z.row] == Bytes(z, node * z.row, z.row)
  {
    PageAligned(node * z.row, z.page);
    var k, r := DivMod(z.page, z.row);
    assert z.page == k * z.row;
    ZeroTimes(k, z.row);
    ModOfMultiple(node, z.row, k);
    var m := node % k;
    MulMono(m, k, z.row);
  }

  // ---- jobs of a slot ----

  ghost predicate NodeMatches(z: Store, w: Waiter, e: Ent, tag: nat) {
    StoreOk(z) && w.reqId == e.reqId && w.dst == e.dst && w.off == OffOf(z, e.node) && e.tag == tag
        && tag == TagOf(z, e.node)
  }

  /** The requests recorded along a chain, in chain order. */
  ghost function JobSeq(wjob: seq<Ent>, c: seq<nat>): (r: seq<Ent>)
    ensures |r| == |c|
  {
    if c == [] then []
    else [if c[0] < |wjob| then wjob[c[0]] else Ent(0, 0, 0, 0)] + JobSeq(wjob, c[1..])
  }

  ghost function JobsAt(wjob: seq<Ent>, c: seq<nat>): multiset<Ent> {
    multiset(JobSeq(wjob, c))
  }

  lemma {:induction false} JobSeqAt(wjob: seq<Ent>, c: seq<nat>, i: nat)
    requires i < |c| && c[i] < |wjob|
    ensures JobSeq(wjob, c)[i] == wjob[c[i]]
  {
    if i > 0 { JobSeqAt(wjob, c[1..], i - 1); }
  }

  lemma {:induction false} JobSeqFrame(wjob: seq<Ent>, c: seq<nat>, w: nat, e: Ent)
    requires w < |wjob| && w !in c
    ensures JobSeq(wjob[w := e], c) == JobSeq(wjob, c)
  {
    if c != [] {
      assert c[0] in c;
      JobSeqFrame(wjob, c[1..], w, e);
    }
  }

  ghost predicate ChainMatches(z: Store, nodes: seq<Waiter>, wjob: seq<Ent>, tag: nat, c: seq<nat>) {
    |wjob| == |nodes| && forall x :: x in c ==> x < |nodes| && NodeMatches(z, nodes[x], wjob[x], tag)
  }

  // ---- the pool of a shard ----

  /** Slots, waiters, staging buffers, the waiter credit count, which request each waiter stands
      for, and what each slot still has to deliver. */
  datatype Pool = Pool(q: Slots, a: Arena, staging: seq<seq<int>>, wfreeN: nat, wjob: seq<Ent>, due: seq<multiset<Ent>>)

  /** A slot on the stack has no waiters; any other holds its page's bytes and its chain describes
      requests for that page. */
  ghost predicate RowOk(z: Store, nodes: seq<Waiter>, wjob: seq<Ent>, c: seq<nat>, head: nat, p: Place, pg: PendPage,
                        staged: seq<int>) {
    if p == OnStack then c == []
    else pg.first == head && staged == Bytes(z, pg.tag, z.page) && ChainMatches(z, nodes, wjob, pg.tag, c)
  }

  /** Holds of every slot except the one being worked on. */
  ghost predicate RowsOk(z: Store, a: Arena, wjob: seq<Ent>, place: seq<Place>, pend: seq<PendPage>,
                         staging: seq<seq<int>>, skip: int) {
    && |a.chains| == |a.heads| == |place| == |pend| == |staging|
    && forall s :: 0 <= s < |place| && s != skip ==>
         RowOk(z, a.nodes, wjob, a.chains[s], a.heads[s], place[s], pend[s], staging[s])
  }

  predicate Undelivered(p: Place) {
    p == AtBackend || p == OnDone
  }

  /** What a slot still has to deliver: its chain while undelivered, nothing after. */
  ghost predicate OwesOk(wjob: seq<Ent>, c: seq<nat>, p: Place, owed: multiset<Ent>) {
    owed == if Undelivered(p) then JobsAt(wjob, c) else multiset{}
  }

  ghost predicate DueOk(chains: seq<seq<nat>>, wjob: seq<Ent>, place: seq<Place>, due: seq<multiset<Ent>>, skip: int) {
    && |due| == |place| == |chains|
    && forall s :: 0 <= s < |place| && s != skip ==> OwesOk(wjob, chains[s], place[s], due[s])
  }

  ghost predicate PoolOk(z: Store, v: Pool, skip: int) {
    && StoreOk(z) && SlotsOk(v.q) && ArenaOk(v.a)
    && v.wfreeN == |v.a.free| && |v.wjob| == |v.a.nodes|
    && RowsOk(z, v.a, v.wjob, v.q.place, v.q.pend, v.staging, skip)
    && DueOk(v.a.chains, v.wjob, v.q.place, v.due, skip)
  }

  // ---- conservation ----

  ghost function Sum(due: seq<multiset<Ent>>): multiset<Ent> {
    if due == [] then multiset{} else Sum(due[..|due| - 1]) + due[|due| - 1]
  }

  lemma {:induction false} SumUpdate(due: seq<multiset<Ent>>, s: nat, m: multiset<Ent>)
    requires s < |due|
    ensures Sum(due[s := m]) + due[s] == Sum(due) + m
  {
    var n, d := |due| - 1, due[s := m];
    assert Sum(d) == Sum(d[..n]) + d[n] && Sum(due) == Sum(due[..n]) + due[n];
    if s < n {
      SumUpdate(due[..n], s, m);
      assert d[..n] == due[..n][s := m] && d[n] == due[n] && due[..n][s] == due[s];
      assert Sum(d[..n]) + due[s] == Sum(due[..n]) + m;
    } else {
      assert d[..n] == due[..n] && d[n] == m;
    }
    Swap(Sum(d[..n]), Sum(due[..n]), d[n], due[n], due[s], m);
  }

  lemma Swap(x: multiset<Ent>, y: multiset<Ent>, dn: multiset<Ent>, en: multiset<Ent>, e: multiset<Ent>,
             m: multiset<Ent>)
    requires (x + e == y + m && dn == en) || (x == y && dn == m && en == e)
    ensures (x + dn) + e == (y + en) + m
  {
    if x + e == y + m && dn == en {
      calc { (x + dn) + e; (x + e) + dn; (y + m) + en; (y + en) + m; }
    }
  }

  lemma {:induction false} SumEmpty(due: seq<multiset<Ent>>)
    requires forall s :: 0 <= s < |due| ==> due[s] == multiset{}
    ensures Sum(due) == multiset{}
  {
    if due != [] { SumEmpty(due[..|due| - 1]); }
  }

  // ---- deliveries ----

  /** A gather descriptor has 32 bits for the request and 16 for the length. */
  function IdOut(reqId: nat): nat {
    reqId % 0x1_0000_0000
  }

  function LenOut(z: Store, gpuPull: bool): nat {
    if gpuPull then z.row % 0x1_0000 else z.row
  }

  /** Descriptors carry the whole row exactly when a row is shorter than 64 KB. */
  lemma LenExact(z: Store)
    requires StoreOk(z)
    ensures LenOut(z, true) == z.row <==> z.row < 0x1_0000
  {
  }

  /** And a request's identity exactly when it fits 32 bits. */
  lemma IdExact(reqId: nat)
    ensures IdOut(reqId) == reqId <==> reqId < 0x1_0000_0000
  {
  }

  /** The bytes are the node's row. */
  ghost predicate HasRow(z: Store, data: seq<int>, node: nat) {
    |data| == z.row && forall k :: 0 <= k < z.row ==> data[k] == z.mem(node * z.row + k)
  }

  /** What request e is to be told once its page has been read (st is 0) or has failed (st is 1): its
      own identity, cut to 32 bits in a descriptor, and its destination; an error as it is; and a
      success with the whole row, unless a descriptor's 16-bit length loses a row of 64 KB or there is
      nowhere to copy it. */
  ghost predicate Answers(z: Store, gpuPull: bool, mapped: nat -> bool, d: Delivery, e: Ent, st: nat) {
    && d.reqId == (if gpuPull then e.reqId % 0x1_0000_0000 else e.reqId) && d.dst == e.dst
    && (st != 0 ==> d.status == st && d.data == [])
    && (st == 0 && gpuPull ==> d.status == 0 && if z.row < 0x1_0000 then HasRow(z, d.data, e.node) else d.data == [])
    && (st == 0 && !gpuPull && d.dst == 0 ==> d.status == 0 && d.data == [])
    && (st == 0 && !gpuPull && d.dst != 0 && mapped(d.dst) ==> d.status == 0 && HasRow(z, d.data, e.node))
    && (st == 0 && !gpuPull && d.dst != 0 && !mapped(d.dst) ==> d.status == 2 && d.data == [])
  }

  /** A delivery answers its request, its page read or failed. */
  ghost predicate Right(z: Store, gpuPull: bool, mapped: nat -> bool, d: Delivery, e: Ent) {
    Answers(z, gpuPull, mapped, d, e, 0) || Answers(z, gpuPull, mapped, d, e, 1)
  }

  /** deliver_row for one waiter of slot s: a row store and completion by the CPU, which reports 2
      for an unmapped destination, or a gather descriptor. */
  function Deliver(z: Store, gpuPull: bool, mapped: nat -> bool, w: Waiter, s: nat, staged: seq<int>, st: nat): Delivery
    requires st == 0 ==> w.off + LenOut(z, gpuPull) <= |staged|
  {
    if gpuPull then
      Delivery(IdOut(w.reqId), w.dst, st, if st == 0 then staged[w.off..w.off + LenOut(z, true)] else [], s,
               w.off)
    else if st != 0 then Delivery(w.reqId, w.dst, st, [], s, w.off)
    else if w.dst == 0 then Delivery(w.reqId, w.dst, 0, [], s, w.off)
    else if mapped(w.dst) then Delivery(w.reqId, w.dst, 0, staged[w.off..w.off + LenOut(z, false)], s, w.off)
    else Delivery(w.reqId, w.dst, 2, [], s, w.off)
  }

  /** Every delivery from the n-th on comes from slot s and answers its request as st says. */
  ghost predicate Report(z: Store, gpuPull: bool, mapped: nat -> bool, out: seq<Delivery>, outJobs: seq<Ent>, n: nat,
                         s: nat, st: nat)
  {
    |out| == |outJobs| && forall i :: n <= i < |out| ==>
                            out[i].slot == s && Answers(z, gpuPull, mapped, out[i], outJobs[i], st)
  }

  /** A waiter of a page, read or failed, is told what it should be. */
  lemma DeliverRight(z: Store, gpuPull: bool, mapped: nat -> bool, w: Waiter, s: nat, staged: seq<int>, st: nat,
                     e: Ent, tag: nat)
    requires NodeMatches(z, w, e, tag) && st <= 1 && (st == 0 ==> staged == Bytes(z, tag, z.page))
    ensures st == 0 ==> w.off + LenOut(z, gpuPull) <= |staged|
    ensures var d := Deliver(z, gpuPull, mapped, w, s, staged, st);
            && Answers(z, gpuPull, mapped, d, e, st) && d.slot == s
            && (st == 0 && gpuPull ==> d.off + |d.data| <= |staged| && staged[d.off..d.off + |d.data|] == d.data)
  {
    RowInPage(z, e.node);
    if st == 0 {
      var row := staged[w.off..w.off + z.row];
      assert row == Bytes(z, e.node * z.row, z.row);
      assert HasRow(z, row, e.node);
    }
  }

  lemma OutAppend(z: Store, gpuPull: bool, mapped: nat -> bool, out: seq<Delivery>, outJobs: seq<Ent>, d: Delivery,
                  e: Ent)
    requires OutOk(z, gpuPull, mapped, out, outJobs) && Right(z, gpuPull, mapped, d, e)
    ensures OutOk(z, gpuPull, mapped, out + [d], outJobs + [e])
  {
  }

  ghost predicate OutOk(z: Store, gpuPull: bool, mapped: nat -> bool, out: seq<Delivery>, outJobs: seq<Ent>) {
    |out| == |outJobs| && forall i :: 0 <= i < |out| ==> Right(z, gpuPull, mapped, out[i], outJobs[i])
  }

  /** Read out: each delivery carries its request's destination and identity (cut to 32 bits in a
      descriptor). Either its page failed, or the status is that of its destination; and a success with
      somewhere to go carries the whole row, byte for byte, a descriptor's row being below 64 KB. */
  lemma Told(z: Store, gpuPull: bool, mapped: nat -> bool, out: seq<Delivery>, outJobs: seq<Ent>, i: nat)
    requires OutOk(z, gpuPull, mapped, out, outJobs) && i < |out|
    ensures |outJobs| == |out|
    ensures var d, e := out[i], outJobs[i];
            && d.dst == e.dst && (!gpuPull || e.reqId < 0x1_0000_0000 ==> d.reqId == e.reqId)
            && (d.status == 1 || d.status == if gpuPull || d.dst == 0 || mapped(d.dst) then 0 else 2)
            && (d.status == 0 && (if gpuPull then z.row < 0x1_0000 else d.dst != 0) ==>
                  |d.data| == z.row && forall k :: 0 <= k < z.row ==> d.data[k] == z.mem(e.node * z.row + k))
  {
    assert Right(z, gpuPull, mapped, out[i], outJobs[i]);
  }

  // ---- staging held for the GPU ----

  /** A descriptor's slot is held beyond it (or is being reaped) and staging still has the row. */
  ghost predicate DescOk(d: Delivery, i: nat, place: seq<Place>, pend: seq<PendPage>, staging: seq<seq<int>>,
                         skip: int) {
    && d.slot < |place| && d.slot < |pend| && d.slot < |staging| && d.off + |d.data| <= |staging[d.slot]|
    && (d.slot == skip || (place[d.slot] == OnHeld && i < pend[d.slot].wm))
    && staging[d.slot][d.off..d.off + |d.data|] == d.data
  }

  /** Every success descriptor the GPU has not consumed is safe, and no page is held behind a
      watermark older than `mark`. */
  ghost predicate GpuOk(out: seq<Delivery>, tail: nat, mark: nat, place: seq<Place>, pend: seq<PendPage>,
                        staging: seq<seq<int>>, skip: int) {
    && tail <= |out| && mark <= |out| && |pend| == |place| == |staging|
    && (forall i :: tail <= i < |out| && out[i].status == 0 ==> DescOk(out[i], i, place, pend, staging, skip))
    && (forall s :: 0 <= s < |place| && place[s] == OnHeld ==> mark <= pend[s].wm <= |out|)
  }

  /** A slot that is not held, before or after, may change freely. */
  lemma GpuSet(out: seq<Delivery>, tail: nat, mark: nat, place: seq<Place>, pend: seq<PendPage>,
               staging: seq<seq<int>>, s: nat, p: Place, pg: PendPage)
    requires GpuOk(out, tail, mark, place, pend, staging, -1) && s < |place| && place[s] != OnHeld && p != OnHeld
    ensures s < |pend| && GpuOk(out, tail, mark, place[s := p], pend[s := pg], staging, -1)
  {
  }

  lemma GpuStage(out: seq<Delivery>, tail: nat, mark: nat, place: seq<Place>, pend: seq<PendPage>,
                 staging: seq<seq<int>>, s: nat, b: seq<int>)
    requires GpuOk(out, tail, mark, place, pend, staging, -1) && s < |place| && place[s] != OnHeld
    ensures s < |staging| && GpuOk(out, tail, mark, place, pend, staging[s := b], -1)
  {
  }

  /** A descriptor for the slot being reaped, after the GPU has perhaps moved on. */
  lemma GpuAppend(out: seq<Delivery>, tail: nat, tail': nat, mark: nat, place: seq<Place>, pend: seq<PendPage>,
                  staging: seq<seq<int>>, s: nat, d: Delivery)
    requires GpuOk(out, tail, mark, place, pend, staging, s) && tail <= tail' <= |out| && s < |place|
    requires d.status == 0 ==> d.slot == s && d.off + |d.data| <= |staging[s]|
                               && staging[s][d.off..d.off + |d.data|] == d.data
    ensures GpuOk(out + [d], tail', mark, place, pend, staging, s)
  {
  }

  /** Reaped: the slot is held behind a watermark at the head. */
  lemma GpuHold(out: seq<Delivery>, tail: nat, mark: nat, place: seq<Place>, pend: seq<PendPage>,
                staging: seq<seq<int>>, s: nat)
    requires GpuOk(out, tail, mark, place, pend, staging, s) && s < |place|
    ensures s < |pend| && GpuOk(out, tail, mark, place[s := OnHeld], pend[s := pend[s].(wm := |out|)], staging, -1)
  {
    var place', pend' := place[s := OnHeld], pend[s := pend[s].(wm := |out|)];
    forall i | tail <= i < |out| && out[i].status == 0 ensures DescOk(out[i], i, place', pend', staging, -1) {
      assert DescOk(out[i], i, place, pend, staging, s);
    }
  }

  lemma GpuTail(out: seq<Delivery>, tail: nat, tail': nat, mark: nat, place: seq<Place>, pend: seq<PendPage>,
                staging: seq<seq<int>>, skip: int)
    requires GpuOk(out, tail, mark, place, pend, staging, skip) && tail <= tail' <= |out|
    ensures GpuOk(out, tail', mark, place, pend, staging, skip)
  {
  }

  /** A slot whose watermark the tail has reached can go: no live descriptor points into it. */
  lemma GpuRelease(out: seq<Delivery>, tail: nat, mark: nat, place: seq<Place>, pend: seq<PendPage>,
                   staging: seq<seq<int>>, s: nat)
    requires GpuOk(out, tail, mark, place, pend, staging, -1) && s < |place| && place[s] == OnHeld && pend[s].wm <= tail
    ensures GpuOk(out, tail, mark, place[s := OnReturn], pend, staging, -1)
  {
    forall i | tail <= i < |out| && out[i].status == 0
      ensures DescOk(out[i], i, place[s := OnReturn], pend, staging, -1)
    {
      assert DescOk(out[i], i, place, pend, staging, -1);
    }
  }

  /** (s32)(tail - wm) >= 0 on 32-bit cursors. */
  predicate Reached(tail: int, wm: int) {
    (tail - wm) % 0x1_0000_0000 < 0x8000_0000
  }

  /** The comparison sees only the 32 bits of the cursors, and is the real one while they are within
      2^31 of each other: a watermark up to 2^31 ahead of the tail is never taken for consumed. */
  lemma ReachedExact(tail: int, wm: int)
    ensures Reached(tail % 0x1_0000_0000, wm % 0x1_0000_0000) <==> Reached(tail, wm)
    ensures -0x8000_0000 <= tail - wm < 0x8000_0000 ==> (Reached(tail, wm) <==> tail >= wm)
  {
  }
}

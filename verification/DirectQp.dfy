/** The host-owned NVMe queue pair: a submission ring, a completion ring with a phase bit and a
    pool of command identifiers, against a device that fetches commands in order and completes
    them in any order. */
module DirectQp {
  import opened Radix

  datatype Sqe = Sqe(cid: nat, lba: nat)
  datatype Cqe = Cqe(cid: nat, status: nat, phase: nat)

  /** Where a command identifier is: at a position of the free stack, of the submission ring, of
      the device's set, or of the completion ring. Ring positions count from the start. */
  datatype Where = Free(i: nat) | Queued(k: nat) | AtDevice(d: nat) | Posted(p: nat)

  /** An accepted read is with an identifier, or was the n-th reported. */
  datatype ReadState = InFlight(cid: nat) | Reported(n: nat)

  // ---- the phase bit ----

  /** The phase of the k-th completion: 1 in the first lap, alternating after. */
  function PhaseOf(k: nat, qd: nat): nat
    requires qd > 0
  {
    if k / qd % 2 == 0 then 1 else 0
  }

  /** direct_poll's step of cq_head and cq_phase, on a 16-bit head. */
  function NextHead(head: nat, phase: nat, qd: nat): (nat, nat)
    requires phase <= 1
  {
    var h := (head + 1) % 0x1_0000;
    if h == qd then (0, 1 - phase) else (h, phase)
  }

  lemma NextPosition(k: nat, qd: nat)
    requires qd > 0
    ensures if k % qd + 1 == qd then (k + 1) % qd == 0 && (k + 1) / qd == k / qd + 1
            else (k + 1) % qd == k % qd + 1 && (k + 1) / qd == k / qd
  {
    var q, r := DivMod(k, qd);
    if r + 1 == qd {
      DivUnique(k + 1, qd, q + 1, 0);
    } else {
      DivUnique(k + 1, qd, q, r + 1);
    }
  }

  lemma TailStep(k: nat, qd: nat)
    requires qd > 0
    ensures (k % qd + 1) % qd == (k + 1) % qd
  {
    NextPosition(k, qd);
    DivUnique(k % qd + 1, qd, if k % qd + 1 == qd then 1 else 0, if k % qd + 1 == qd then 0 else k % qd + 1);
  }

  lemma HeadStep(k: nat, qd: nat)
    requires 0 < qd < 0x1_0000
    ensures PhaseOf(k, qd) <= 1 && NextHead(k % qd, PhaseOf(k, qd), qd) == ((k + 1) % qd, PhaseOf(k + 1, qd))
  {
    NextPosition(k, qd);
  }

  /** The 16-bit head follows the laps exactly when the ring has fewer than 65536 entries. */
  lemma HeadFollows(qd: nat)
    requires 0 < qd <= 0x1_0000
    ensures qd < 0x1_0000 <==>
            forall k: nat :: NextHead(k % qd, PhaseOf(k, qd), qd) == ((k + 1) % qd, PhaseOf(k + 1, qd))
  {
    if qd < 0x1_0000 {
      forall k: nat ensures NextHead(k % qd, PhaseOf(k, qd), qd) == ((k + 1) % qd, PhaseOf(k + 1, qd)) {
        HeadStep(k, qd);
      }
    } else {
      HeadStuck();
    }
  }

  /** With 65536 entries the head wraps to 0 by itself at the end of the first lap, and the
      expected phase does not flip. */
  lemma HeadStuck()
    ensures var k := 0xFFFF; NextHead(k % 0x1_0000, PhaseOf(k, 0x1_0000), 0x1_0000) == (0, 1)
                             && PhaseOf(k + 1, 0x1_0000) == 0
  {
  }

  /** The phase direct_poll expects after k completions. */
  function PhaseSeen(k: nat, qd: nat): nat
    requires qd > 0
  {
    if qd < 0x1_0000 then PhaseOf(k, qd) else 1
  }

  /** The head and the expected phase over any number of laps, for every depth the code can have. */
  lemma SeenStep(k: nat, qd: nat)
    requires 0 < qd <= 0x1_0000
    ensures PhaseSeen(k, qd) <= 1 && NextHead(k % qd, PhaseSeen(k, qd), qd) == ((k + 1) % qd, PhaseSeen(k + 1, qd))
  {
    NextPosition(k, qd);
  }

  /** It is the phase of the next completion, but for a ring of 65536 entries after its first lap. */
  lemma SeenRight(k: nat, qd: nat)
    requires 0 < qd <= 0x1_0000 && (qd < 0x1_0000 || k < 0x1_0000)
    ensures PhaseSeen(k, qd) == PhaseOf(k, qd)
  {
    if qd == 0x1_0000 { DivUnique(k, qd, 0, k); }
  }

  lemma PreviousLap(k: nat, qd: nat)
    requires 0 < qd <= k
    ensures (k - qd) % qd == k % qd && PhaseOf(k - qd, qd) != PhaseOf(k, qd)
  {
    var q, r := DivMod(k, qd);
    MulMono(q, 0, qd);
    DivUnique(k - qd, qd, q - 1, r);
  }

  // ---- the queue pair ----

  /** The state as a value: the two rings, the free stack, the cookies, the device's commands, the
      four ring positions, and the history of reads. */
  datatype Qp = Qp(qd: nat, sq: seq<Sqe>, cq: seq<Cqe>, free: seq<nat>, cookie: seq<nat>, dev: seq<nat>,
                   issued: nat, fetched: nat, posted: nat, reaped: nat,
                   place: seq<Where>, owner: seq<nat>, accepted: seq<nat>, sqes: seq<Sqe>, tickets: seq<ReadState>,
                       reported: seq<nat>)

  /** Positions are in order and identifiers in flight number issued minus reaped. */
  predicate Counts(q: Qp) {
    && 0 < q.qd && |q.sq| == |q.cq| == q.qd && |q.cookie| == |q.place| == |q.owner| == q.qd - 1
    && q.reaped <= q.posted <= q.fetched <= q.issued && |q.dev| == q.fetched - q.posted
    && |q.free| + (q.issued - q.reaped) == q.qd - 1
    && |q.accepted| == |q.tickets| == |q.sqes| == q.issued && |q.reported| == q.reaped
  }

  /** The identifier named by a place. */
  ghost predicate Names(q: Qp, cid: nat, w: Where)
    requires q.qd > 0
  {
    match w
    case Free(i) => i < |q.free| && q.free[i] == cid
    case Queued(k) => q.fetched <= k < q.issued && k % q.qd < |q.sq| && q.sq[k % q.qd].cid == cid
    case AtDevice(d) => d < |q.dev| && q.dev[d] == cid
    case Posted(p) => q.reaped <= p < q.posted && p % q.qd < |q.cq| && q.cq[p % q.qd].cid == cid
  }

  ghost predicate At(place: seq<Where>, cid: nat, w: Where) {
    cid < |place| && place[cid] == w
  }

  /** Every identifier is at exactly one place, and every place holds exactly its identifier. */
  ghost predicate Placed(q: Qp)
    requires q.qd > 0
  {
    && (forall c :: 0 <= c < |q.place| ==> Names(q, c, q.place[c]))
    && (forall i :: 0 <= i < |q.free| ==> At(q.place, q.free[i], Free(i)))
    && (forall d :: 0 <= d < |q.dev| ==> At(q.place, q.dev[d], AtDevice(d)))
    && (forall k :: q.fetched <= k < q.issued && k % q.qd < |q.sq| ==> At(q.place, q.sq[k % q.qd].cid, Queued(k)))
    && (forall p :: q.reaped <= p < q.posted && p % q.qd < |q.cq| ==> At(q.place, q.cq[p % q.qd].cid, Posted(p)))
  }

  /** The commands not yet fetched are in the ring as they were issued. */
  ghost predicate Unfetched(q: Qp)
    requires q.qd > 0
  {
    forall k :: q.fetched <= k < q.issued && k < |q.sqes| && k % q.qd < |q.sq| ==> q.sq[k % q.qd] == q.sqes[k]
  }

  /** The completion ring holds the phases of the last lap, and zero where nothing was posted. */
  ghost predicate Phases(q: Qp)
    requires q.qd > 0
  {
    && (forall p :: 0 <= p < q.posted && q.posted - q.qd <= p && p % q.qd < |q.cq| ==>
          q.cq[p % q.qd].phase == PhaseOf(p, q.qd))
    && (forall j :: q.posted <= j < q.qd && j < |q.cq| ==> q.cq[j].phase == 0)
  }

  /** An identifier in flight carries its read's cookie; reads and identifiers, and reads and
      reports, are matched one to one. */
  ghost predicate Owned(q: Qp) {
    && |q.cookie| == |q.place| == |q.owner| && |q.accepted| == |q.tickets|
    && (forall c :: 0 <= c < |q.place| && !q.place[c].Free? ==>
          q.owner[c] < |q.tickets| && q.tickets[q.owner[c]] == InFlight(c) && q.cookie[c] == q.accepted[q.owner[c]])
    && (forall r :: 0 <= r < |q.tickets| ==> ReadOk(q, r, q.tickets[r]))
    && (forall n :: 0 <= n < |q.reported| ==> q.reported[n] < |q.tickets| && q.tickets[q.reported[n]] == Reported(n))
  }

  ghost predicate ReadOk(q: Qp, r: nat, s: ReadState) {
    match s
    case InFlight(c) => c < |q.place| && c < |q.owner| && !q.place[c].Free? && q.owner[c] == r
    case Reported(n) => n < |q.reported| && q.reported[n] == r
  }

  ghost predicate QpOk(q: Qp) {
    Counts(q) && Placed(q) && Unfetched(q) && Phases(q) && Owned(q)
  }

  // ---- steps ----

  /** backend_direct_issue_read, accepted: the top identifier takes the cookie and the command goes
      in at the tail. */
  ghost function Issue(q: Qp, cookie: nat, lba: nat): Qp
    requires Counts(q) && q.free != [] && q.free[|q.free| - 1] < q.qd - 1
  {
    var n := |q.free| - 1;
    var c := q.free[n];
    q.(free := q.free[..n], cookie := q.cookie[c := cookie], sq := q.sq[q.issued % q.qd := Sqe(c, lba)],
       issued := q.issued + 1,
       place := q.place[c := Queued(q.issued)], owner := q.owner[c := q.issued], accepted := q.accepted + [cookie],
       sqes := q.sqes + [Sqe(c, lba)], tickets := q.tickets + [InFlight(c)])
  }

  lemma TopFree(q: Qp)
    requires QpOk(q) && q.free != []
    ensures var c := q.free[|q.free| - 1]; c < |q.place| == q.qd - 1 && q.place[c] == Free(|q.free| - 1)
  {
  }

  lemma IssuePlaced(q: Qp, cookie: nat, lba: nat)
    requires QpOk(q) && q.free != []
    ensures q.free[|q.free| - 1] < q.qd - 1 && Placed(Issue(q, cookie, lba))
  {
    TopFree(q);
    var q' := Issue(q, cookie, lba);
    var c := q.free[|q.free| - 1];
    forall k | q'.fetched <= k < q'.issued && k % q.qd < |q'.sq|
      ensures At(q'.place, q'.sq[k % q.qd].cid, Queued(k))
      ensures k < q.issued ==> q'.sq[k % q.qd] == q.sq[k % q.qd]
    {
      if k < q.issued {
        if k % q.qd == q.issued % q.qd { SameCell(k, q.issued, q.qd); }
        assert At(q.place, q.sq[k % q.qd].cid, Queued(k));
      }
    }
    forall x | 0 <= x < |q'.place| ensures Names(q', x, q'.place[x]) {
      assert Names(q, x, q.place[x]);
    }
    forall i | 0 <= i < |q'.free| ensures At(q'.place, q'.free[i], Free(i)) {
      assert At(q.place, q.free[i], Free(i));
    }
    forall d | 0 <= d < |q'.dev| ensures At(q'.place, q'.dev[d], AtDevice(d)) {
      assert At(q.place, q.dev[d], AtDevice(d));
    }
    forall p | q'.reaped <= p < q'.posted && p % q.qd < |q'.cq| ensures At(q'.place, q'.cq[p % q.qd].cid, Posted(p)) {
      assert At(q.place, q.cq[p % q.qd].cid, Posted(p));
    }
  }

  lemma IssueUnfetched(q: Qp, cookie: nat, lba: nat)
    requires QpOk(q) && q.free != []
    ensures q.free[|q.free| - 1] < q.qd - 1 && Unfetched(Issue(q, cookie, lba)) && Phases(Issue(q, cookie, lba))
  {
    TopFree(q);
    var q' := Issue(q, cookie, lba);
    forall k | q'.fetched <= k < q'.issued && k < |q'.sqes|
        && k % q.qd < |q'.sq| ensures q'.sq[k % q.qd] == q'.sqes[k] {
      if k < q.issued && k % q.qd == q.issued % q.qd { SameCell(k, q.issued, q.qd); }
    }
  }

  lemma IssueOwned(q: Qp, cookie: nat, lba: nat)
    requires QpOk(q) && q.free != []
    ensures q.free[|q.free| - 1] < q.qd - 1 && Owned(Issue(q, cookie, lba))
  {
    TopFree(q);
    hide Placed, Unfetched, Phases;
    var q' := Issue(q, cookie, lba);
    forall r | 0 <= r < |q'.tickets| ensures ReadOk(q', r, q'.tickets[r]) {
      if r < |q.tickets| { assert ReadOk(q, r, q.tickets[r]); }
    }
  }

  lemma IssueKeeps(q: Qp, cookie: nat, lba: nat)
    requires QpOk(q) && q.free != []
    ensures q.free[|q.free| - 1] < q.qd - 1 && QpOk(Issue(q, cookie, lba))
  {
    hide Placed, Unfetched, Phases, Owned;
    IssuePlaced(q, cookie, lba);
    IssueUnfetched(q, cookie, lba);
    IssueOwned(q, cookie, lba);
  }

  /** The device fetches the next command. */
  ghost function Fetch(q: Qp): Qp
    requires Counts(q) && q.fetched < q.issued && q.sq[q.fetched % q.qd].cid < |q.place|
  {
    var c := q.sq[q.fetched % q.qd].cid;
    q.(dev := q.dev + [c], fetched := q.fetched + 1, place := q.place[c := AtDevice(|q.dev|)])
  }

  lemma FetchPlaced(q: Qp)
    requires QpOk(q) && q.fetched < q.issued
    ensures q.sq[q.fetched % q.qd].cid < |q.place| && q.place[q.sq[q.fetched % q.qd].cid] == Queued(q.fetched)
            && Placed(Fetch(q))
  {
    hide Unfetched, Phases, Owned;
    assert At(q.place, q.sq[q.fetched % q.qd].cid, Queued(q.fetched));
    var q' := Fetch(q);
    forall k | q'.fetched <= k < q'.issued && k % q.qd < |q'.sq| ensures At(q'.place, q'.sq[k % q.qd].cid, Queued(k)) {
      assert At(q.place, q.sq[k % q.qd].cid, Queued(k));
    }
    forall x | 0 <= x < |q'.place| ensures Names(q', x, q'.place[x]) {
      assert Names(q, x, q.place[x]);
    }
    forall i | 0 <= i < |q'.free| ensures At(q'.place, q'.free[i], Free(i)) {
      assert At(q.place, q.free[i], Free(i));
    }
    forall d | 0 <= d < |q'.dev| ensures At(q'.place, q'.dev[d], AtDevice(d)) {
      if d < |q.dev| { assert At(q.place, q.dev[d], AtDevice(d)); }
    }
    forall p | q'.reaped <= p < q'.posted && p % q.qd < |q'.cq| ensures At(q'.place, q'.cq[p % q.qd].cid, Posted(p)) {
      assert At(q.place, q.cq[p % q.qd].cid, Posted(p));
    }
  }

  /** Moving an identifier between places in flight does not touch the reads. */
  lemma OwnedMove(q: Qp, q': Qp, c: nat, w: Where)
    requires Owned(q) && c < |q.place| && !q.place[c].Free? && !w.Free?
    requires q'.place == q.place[c := w] && q'.owner == q.owner && q'.cookie == q.cookie && q'.accepted == q.accepted
    requires q'.tickets == q.tickets && q'.reported == q.reported
    ensures Owned(q')
  {
    forall r | 0 <= r < |q'.tickets| ensures ReadOk(q', r, q'.tickets[r]) { assert ReadOk(q, r, q.tickets[r]); }
  }

  /** What the device fetches is the next command in the order issued, intact. */
  lemma FetchKeeps(q: Qp)
    requires QpOk(q) && q.fetched < q.issued
    ensures q.sq[q.fetched % q.qd].cid < |q.place| && q.sq[q.fetched % q.qd] == q.sqes[q.fetched]
    ensures QpOk(Fetch(q))
  {
    FetchPlaced(q);
    assert Unfetched(Fetch(q)) && Phases(Fetch(q));
    hide Placed, Unfetched, Phases, Owned;
    OwnedMove(q, Fetch(q), q.sq[q.fetched % q.qd].cid, AtDevice(|q.dev|));
  }

  /** The device completes any of its commands, at its completion tail and phase. */
  ghost function Post(q: Qp, d: nat, status: nat): Qp
    requires Counts(q) && d < |q.dev| && q.dev[d] < |q.place| && q.dev[|q.dev| - 1] < |q.place|
  {
    var c, n := q.dev[d], |q.dev| - 1;
    q.(dev := q.dev[d := q.dev[n]][..n], cq := q.cq[q.posted % q.qd := Cqe(c, status, PhaseOf(q.posted, q.qd))],
       posted := q.posted + 1,
       place := q.place[q.dev[n] := AtDevice(d)][c := Posted(q.posted)])
  }

  lemma PostPlaced(q: Qp, d: nat, status: nat)
    requires QpOk(q) && d < |q.dev|
    ensures q.dev[d] < |q.place| && q.dev[|q.dev| - 1] < |q.place|
    ensures q.place[q.dev[d]] == AtDevice(d) && q.place[q.dev[|q.dev| - 1]] == AtDevice(|q.dev| - 1)
            && Placed(Post(q, d, status))
  {
    hide Unfetched, Phases, Owned;
    var n := |q.dev| - 1;
    assert At(q.place, q.dev[d], AtDevice(d)) && At(q.place, q.dev[n], AtDevice(n));
    var q' := Post(q, d, status);
    forall k | q'.fetched <= k < q'.issued && k % q.qd < |q'.sq| ensures At(q'.place, q'.sq[k % q.qd].cid, Queued(k)) {
      assert At(q.place, q.sq[k % q.qd].cid, Queued(k));
    }
    forall p | q'.reaped <= p < q'.posted && p % q.qd < |q'.cq|
      ensures At(q'.place, q'.cq[p % q.qd].cid, Posted(p)) && (p < q.posted ==> q'.cq[p % q.qd] == q.cq[p % q.qd])
    {
      if p < q.posted {
        if p % q.qd == q.posted % q.qd { SameCell(p, q.posted, q.qd); }
        assert At(q.place, q.cq[p % q.qd].cid, Posted(p));
      }
    }
    forall x | 0 <= x < |q'.place| ensures Names(q', x, q'.place[x]) {
      assert Names(q, x, q.place[x]);
    }
    forall i | 0 <= i < |q'.free| ensures At(q'.place, q'.free[i], Free(i)) {
      assert At(q.place, q.free[i], Free(i));
    }
    forall j | 0 <= j < |q'.dev| ensures At(q'.place, q'.dev[j], AtDevice(j)) {
      assert At(q.place, q.dev[j], AtDevice(j));
    }
  }

  lemma PostPhases(q: Qp, d: nat, status: nat)
    requires Counts(q) && Phases(q) && d < |q.dev| && q.dev[d] < |q.place| && q.dev[|q.dev| - 1] < |q.place|
    ensures Phases(Post(q, d, status))
  {
    var q' := Post(q, d, status);
    forall p | 0 <= p < q'.posted && q'.posted - q.qd <= p
        && p % q.qd < |q'.cq| ensures q'.cq[p % q.qd].phase == PhaseOf(p, q.qd) {
      if p < q.posted && p % q.qd == q.posted % q.qd { SameCell(p, q.posted, q.qd); }
    }
    forall j | q'.posted <= j < q.qd && j < |q'.cq| ensures q'.cq[j].phase == 0 {
      DivUnique(q.posted, q.qd, 0, q.posted);
    }
  }

  lemma PostKeeps(q: Qp, d: nat, status: nat)
    requires QpOk(q) && d < |q.dev|
    ensures q.dev[d] < |q.place| && q.dev[|q.dev| - 1] < |q.place| && QpOk(Post(q, d, status))
  {
    PostPlaced(q, d, status);
    PostPhases(q, d, status);
    assert Unfetched(Post(q, d, status));
    hide Placed, Unfetched, Phases, Owned;
    var n, q' := |q.dev| - 1, Post(q, d, status);
    var mid := q.(place := q.place[q.dev[n] := AtDevice(d)]);
    OwnedMove(q, mid, q.dev[n], AtDevice(d));
    OwnedMove(mid, q', q.dev[d], Posted(q.posted));
  }

  /** The phase test accepts the entry at the head exactly when it is new, on every lap. */
  lemma PhaseTest(q: Qp)
    requires QpOk(q)
    ensures q.cq[q.reaped % q.qd].phase == PhaseOf(q.reaped, q.qd) <==> q.reaped < q.posted
  {
    if q.reaped == q.posted {
      if q.reaped >= q.qd {
        PreviousLap(q.reaped, q.qd);
      } else {
        DivUnique(q.reaped, q.qd, 0, q.reaped);
      }
    }
  }

  /** direct_poll takes the completion at the head: its identifier is free again and its read is
      reported. */
  ghost function Reap(q: Qp): Qp
    requires Counts(q) && q.reaped < q.posted && q.cq[q.reaped % q.qd].cid < q.qd - 1
    requires q.owner[q.cq[q.reaped % q.qd].cid] < |q.tickets|
  {
    var c := q.cq[q.reaped % q.qd].cid;
    q.(free := q.free + [c], reaped := q.reaped + 1, place := q.place[c := Free(|q.free|)],
       tickets := q.tickets[q.owner[c] := Reported(q.reaped)], reported := q.reported + [q.owner[c]])
  }

  lemma HeadEntry(q: Qp)
    requires QpOk(q) && q.reaped < q.posted
    ensures var c := q.cq[q.reaped % q.qd].cid;
            && c < |q.place| == q.qd - 1 && q.place[c] == Posted(q.reaped)
            && q.owner[c] < |q.tickets| && q.tickets[q.owner[c]] == InFlight(c) && q.cookie[c] == q.accepted[q.owner[c]]
  {
    assert At(q.place, q.cq[q.reaped % q.qd].cid, Posted(q.reaped));
  }

  lemma ReapPlaced(q: Qp)
    requires QpOk(q) && q.reaped < q.posted
    ensures q.cq[q.reaped % q.qd].cid < q.qd - 1 && q.owner[q.cq[q.reaped % q.qd].cid] < |q.tickets| && Placed(Reap(q))
  {
    HeadEntry(q);
    hide Unfetched, Phases, Owned;
    var q' := Reap(q);
    forall k | q'.fetched <= k < q'.issued && k % q.qd < |q'.sq| ensures At(q'.place, q'.sq[k % q.qd].cid, Queued(k)) {
      assert At(q.place, q.sq[k % q.qd].cid, Queued(k));
    }
    forall p | q'.reaped <= p < q'.posted && p % q.qd < |q'.cq| ensures At(q'.place, q'.cq[p % q.qd].cid, Posted(p)) {
      assert At(q.place, q.cq[p % q.qd].cid, Posted(p));
    }
    forall x | 0 <= x < |q'.place| ensures Names(q', x, q'.place[x]) {
      assert Names(q, x, q.place[x]);
    }
    forall i | 0 <= i < |q'.free| ensures At(q'.place, q'.free[i], Free(i)) {
      if i < |q.free| { assert At(q.place, q.free[i], Free(i)); }
    }
    forall d | 0 <= d < |q'.dev| ensures At(q'.place, q'.dev[d], AtDevice(d)) {
      assert At(q.place, q.dev[d], AtDevice(d));
    }
  }

  lemma ReapOwned(q: Qp)
    requires QpOk(q) && q.reaped < q.posted
    ensures q.cq[q.reaped % q.qd].cid < q.qd - 1 && q.owner[q.cq[q.reaped % q.qd].cid] < |q.tickets| && Owned(Reap(q))
  {
    HeadEntry(q);
    hide Placed, Unfetched, Phases;
    var q' := Reap(q);
    forall r | 0 <= r < |q'.tickets| ensures ReadOk(q', r, q'.tickets[r]) { assert ReadOk(q, r, q.tickets[r]); }
  }

  lemma ReapKeeps(q: Qp)
    requires QpOk(q) && q.reaped < q.posted
    ensures q.cq[q.reaped % q.qd].cid < q.qd - 1 && q.owner[q.cq[q.reaped % q.qd].cid] < |q.tickets| && QpOk(Reap(q))
  {
    ReapPlaced(q);
    assert Unfetched(Reap(q)) && Phases(Reap(q));
    ReapOwned(q);
    hide Placed, Unfetched, Phases, Owned;
  }

  /** No read is reported twice. */
  lemma ReportedOnce(q: Qp, m: nat, n: nat)
    requires QpOk(q) && m < n < |q.reported|
    ensures q.reported[m] != q.reported[n]
  {
  }

  lemma NoneInFlight(q: Qp, c: nat)
    requires QpOk(q) && q.reaped == q.issued && c < |q.place|
    ensures q.place[c].Free?
  {
    assert Names(q, c, q.place[c]);
  }

  /** When nothing is in flight every read accepted has been reported. */
  lemma AllReported(q: Qp, r: nat)
    requires QpOk(q) && q.reaped == q.issued && r < |q.accepted|
    ensures r in q.reported
  {
    assert ReadOk(q, r, q.tickets[r]);
    match q.tickets[r] {
      case Reported(n) => assert q.reported[n] == r;
      case InFlight(c) => NoneInFlight(q, c);
    }
  }

  // ---- runs ----

  /** qp_create: all but one entry's worth of identifiers free, nothing issued. */
  ghost function Start(qd: nat): (q: Qp)
    requires 0 < qd <= 0x1_0000
    ensures q.qd == qd && QpOk(q)
  {
    var q := Qp(qd, seq(qd, i => Sqe(0, 0)), seq(qd, i => Cqe(0, 0, 0)), seq(qd - 1, i => i), seq(qd - 1, i => 0), [],
                0, 0, 0, 0, seq(qd - 1, i requires 0 <= i => Free(i)), seq(qd - 1, i => 0), [], [], [], []);
    InitOk(q);
    q
  }

  lemma InitOk(q: Qp)
    requires q.qd > 0 && |q.sq| == |q.cq| == q.qd && |q.cookie| == |q.place| == |q.owner| == |q.free| == q.qd - 1
    requires q.dev == q.accepted == q.reported == [] && q.sqes == [] && q.tickets == []
    requires q.issued == q.fetched == q.posted == q.reaped == 0
    requires forall i :: 0 <= i < q.qd - 1 ==> q.free[i] == i && q.place[i] == Free(i)
    requires forall j :: 0 <= j < q.qd ==> q.cq[j].phase == 0
    ensures QpOk(q)
  {
  }

  /** What can happen: a read is asked for, the device fetches a command or completes one it holds,
      the poll takes a completion. */
  datatype Act = Ask(cookie: nat, lba: nat) | Fetched | Completed(d: nat, status: nat) | Polled

  /** What is not possible leaves the pair as it is: a read without a free identifier is put off. */
  ghost function Step(q: Qp, a: Act): (r: Qp)
    requires QpOk(q)
    ensures QpOk(r) && r.qd == q.qd
  {
    match a
    case Ask(cookie, lba) => if q.free == [] then q else IssueKeeps(q, cookie, lba); Issue(q, cookie, lba)
    case Fetched => if q.fetched == q.issued then q else FetchKeeps(q); Fetch(q)
    case Completed(d, status) => if d >= |q.dev| then q else PostKeeps(q, d, status); Post(q, d, status)
    case Polled => if q.reaped == q.posted then q else ReapKeeps(q); Reap(q)
  }

  /** The pair after a history of acts. */
  ghost function Run(qd: nat, acts: seq<Act>): (q: Qp)
    requires 0 < qd <= 0x1_0000
    ensures QpOk(q) && q.qd == qd
  {
    if acts == [] then Start(qd) else Step(Run(qd, acts[..|acts| - 1]), acts[|acts| - 1])
  }

  /** The poll's test takes the entry at the head for new exactly when it is. */
  ghost predicate TestRight(q: Qp)
    requires QpOk(q)
  {
    q.cq[q.reaped % q.qd].phase == PhaseSeen(q.reaped, q.qd) <==> q.reaped < q.posted
  }

  /** Reads issued, fetched, completed and polled one at a time. */
  function Rounds(n: nat): seq<Act> {
    if n == 0 then [] else Rounds(n - 1) + [Ask(0, 0), Fetched, Completed(0, 0), Polled]
  }

  ghost predicate Level(q: Qp, n: nat) {
    q.issued == q.fetched == q.posted == q.reaped == n
  }

  lemma Round(q: Qp)
    requires QpOk(q) && q.qd > 1 && Level(q, q.issued)
    ensures Level(Step(Step(Step(Step(q, Ask(0, 0)), Fetched), Completed(0, 0)), Polled), q.issued + 1)
  {
    hide Placed, Unfetched, Phases, Owned;
  }

  lemma RunNext(qd: nat, h: seq<Act>, a: Act)
    requires 0 < qd <= 0x1_0000
    ensures Run(qd, h + [a]) == Step(Run(qd, h), a)
  {
    hide QpOk, Step;
    assert (h + [a])[..|h|] == h;
  }

  lemma RunFour(qd: nat, h: seq<Act>, a: Act, b: Act, c: Act, d: Act)
    requires 0 < qd <= 0x1_0000
    ensures Run(qd, h + [a, b, c, d]) == Step(Step(Step(Step(Run(qd, h), a), b), c), d)
  {
    hide QpOk, Step, Run;
    RunNext(qd, h, a);
    RunNext(qd, h + [a], b);
    RunNext(qd, h + [a] + [b], c);
    RunNext(qd, h + [a] + [b] + [c], d);
    assert h + [a] + [b] + [c] + [d] == h + [a, b, c, d];
  }

  lemma {:induction false} RoundsDone(qd: nat, n: nat)
    requires 1 < qd <= 0x1_0000
    ensures Level(Run(qd, Rounds(n)), n)
  {
    hide QpOk, Step;
    if n > 0 {
      RoundsDone(qd, n - 1);
      RunFour(qd, Rounds(n - 1), Ask(0, 0), Fetched, Completed(0, 0), Polled);
      Round(Run(qd, Rounds(n - 1)));
    }
  }

  lemma StaleEntry(q: Qp)
    requires QpOk(q) && q.qd == q.reaped == q.posted == 0x1_0000
    ensures q.cq[0].phase == 1
  {
    assert 0 % q.qd == 0 && 0 < q.posted && q.posted - q.qd <= 0;
    assert q.cq[0 % q.qd].phase == PhaseOf(0, q.qd);
  }

  /** In every run the poll's test is right after every step, if and only if the ring has fewer than
      65536 entries: at 65536, once that many reads have gone round one at a time, the test accepts
      the completion of the first of them again. */
  lemma PollExactly(qd: nat)
    requires 0 < qd <= 0x1_0000
    ensures (forall acts: seq<Act> :: TestRight(Run(qd, acts))) <==> qd < 0x1_0000
  {
    hide QpOk, PhaseOf;
    if qd < 0x1_0000 {
      forall acts: seq<Act> ensures TestRight(Run(qd, acts)) { PhaseTest(Run(qd, acts)); }
    } else {
      var acts := Rounds(qd);
      RoundsDone(qd, qd);
      StaleEntry(Run(qd, acts));
      assert !TestRight(Run(qd, acts));
    }
  }

  // ---- the queue pair in memory ----

  class QueuePair {
    const qd: nat
    const sq: array<Sqe>
    const cq: array<Cqe>
    const free: array<nat>
    const cidCookie: array<nat>
    var freeTop: nat
    var sqTail: nat
    var cqHead: nat
    var cqPhase: nat
    /** The device's side, and the history. */
    ghost var dev: seq<nat>
    ghost var issued: nat
    ghost var fetched: nat
    ghost var posted: nat
    ghost var reaped: nat
    ghost var place: seq<Where>
    ghost var owner: seq<nat>
    ghost var accepted: seq<nat>
    ghost var sqes: seq<Sqe>
    ghost var tickets: seq<ReadState>
    ghost var reported: seq<nat>

    ghost function View(): Qp
      reads this, sq, cq, free, cidCookie
    {
      Qp(qd, sq[..], cq[..], if freeTop <= free.Length then free[..freeTop] else [],
         if qd - 1 <= cidCookie.Length && qd > 0 then cidCookie[..qd - 1] else [], dev,
         issued, fetched, posted, reaped, place, owner, accepted, sqes, tickets, reported)
    }

    /** The ring cursors are the positions modulo the depth, with the phase expected next. */
    ghost predicate Cursors()
      reads this
    {
      && 0 < qd <= 0x1_0000 && freeTop <= free.Length == qd && cidCookie.Length == qd && free != cidCookie
      && sqTail == issued % qd && cqHead == reaped % qd && cqPhase == PhaseSeen(reaped, qd)
    }

    ghost predicate Valid()
      reads this, sq, cq, free, cidCookie
    {
      Cursors() && QpOk(View())
    }

    /** qp_create: all but one entry's worth of identifiers free, the completion ring zeroed. */
    constructor (depth: nat)
      requires 0 < depth <= 0x1_0000
      ensures Valid() && qd == depth && freeTop == depth - 1 && accepted == [] && reported == []
      ensures View() == Start(depth)
    {
      hide PhaseOf, QpOk;
      qd := depth;
      sq := new Sqe[depth](i => Sqe(0, 0));
      cq := new Cqe[depth](i => Cqe(0, 0, 0));
      free := new nat[depth](i => i);
      cidCookie := new nat[depth](i => 0);
      freeTop, sqTail, cqHead, cqPhase := depth - 1, 0, 0, 1;
      dev, issued, fetched, posted, reaped := [], 0, 0, 0, 0;
      place, owner := seq(depth - 1, i requires 0 <= i => Free(i)), seq(depth - 1, i => 0);
      accepted, sqes, tickets, reported := [], [], [], [];
      new;
      FirstPhase(depth);
      assert View() == Start(depth);
    }

    method PopCid(cookie: nat) returns (cid: nat)
      requires 0 < qd <= cidCookie.Length && 0 < freeTop <= free.Length && free[freeTop - 1] < qd - 1
               && free != cidCookie
      modifies `freeTop, cidCookie
      ensures freeTop == old(freeTop) - 1 && cid == old(free[freeTop - 1])
              && cidCookie[..qd - 1] == old(cidCookie[..qd - 1])[cid := cookie]
      ensures free[..freeTop] == old(free[..freeTop])[..old(freeTop) - 1]
    {
      freeTop := freeTop - 1;
      cid := free[freeTop];
      cidCookie[cid] := cookie;
    }

    /** The top identifier takes the cookie; the command goes in at the tail. */
    method Submit(cookie: nat, lba: nat)
      requires Cursors() && Counts(View()) && freeTop > 0 && free[freeTop - 1] < qd - 1
      modifies this, sq, cidCookie
      ensures Cursors() && Counts(old(View())) && old(View()).free != []
              && old(View()).free[|old(View()).free| - 1] < qd - 1
      ensures View() == Issue(old(View()), cookie, lba)
    {
      hide PhaseOf, PhaseSeen;
      var cid := PopCid(cookie);
      PutCommand(Sqe(cid, lba));
      place, owner := place[cid := Queued(issued)], owner[cid := issued];
      accepted, sqes, tickets := accepted + [cookie], sqes + [Sqe(cid, lba)], tickets + [InFlight(cid)];
      issued := issued + 1;
    }

    method PutCommand(s: Sqe)
      requires 0 < qd && sqTail == issued % qd < sq.Length
      modifies sq, `sqTail
      ensures sq[..] == old(sq[..])[issued % qd := s] && sqTail == (issued + 1) % qd
    {
      TailStep(issued, qd);
      ghost var was := sq[..];
      sq[sqTail] := s;
      assert sq[..] == was[sqTail := s];
      sqTail := (sqTail + 1) % qd;
    }

    /** The top identifier takes the cookie but its page cannot be mapped: it is pushed back. */
    method MapFails(cookie: nat)
      requires Valid() && freeTop > 0
      modifies free, cidCookie, `freeTop
      ensures Valid() && freeTop == old(freeTop) && View() == old(View()).(cookie := View().cookie)
    {
      hide PhaseOf, QpOk;
      ghost var q := View();
      TopFree(q);
      freeTop := freeTop - 1;
      var cid := free[freeTop];
      cidCookie[cid] := cookie;
      free[freeTop] := cid;
      freeTop := freeTop + 1;
      assert free[..freeTop] == q.free;
      CookieFree(q, View(), cid);
    }

    /** backend_direct_issue_read: refused when the device is absent or the pair cannot be created on
        its first use (createRc, zero once it exists); put off when no identifier is free; refused,
        with the identifier returned, when the page cannot be mapped; otherwise accepted as the next
        read. */
    method IssueRead(cookie: nat, lba: nat, present: bool, createRc: int, mapOk: bool) returns (rc: int)
      requires Valid()
      modifies this, sq, free, cidCookie
      ensures Valid()
      ensures rc == (if !present then -5 else if createRc != 0 then createRc
                     else if old(freeTop) == 0 then -11 else if !mapOk then -5 else 0)
      ensures fetched == old(fetched) && dev == old(dev) && posted == old(posted) && reaped == old(reaped)
              && reported == old(reported) && cq[..] == old(cq[..])
      ensures accepted == old(accepted) + (if rc == 0 then [cookie] else [])
      ensures rc == 0 ==> old(0 < freeTop <= free.Length) && sqes == old(sqes) + [Sqe(old(free[freeTop - 1]), lba)]
                          && freeTop == old(freeTop) - 1 && issued == old(issued) + 1
      ensures rc == 0 ==> View() == Step(old(View()), Ask(cookie, lba))
      ensures rc != 0 ==> freeTop == old(freeTop) && issued == old(issued) && sqes == old(sqes)
                          && View() == old(View()).(cookie := View().cookie)
    {
      hide PhaseOf, Placed, Unfetched, Phases, Owned;
      if !present { return -5; }
      if createRc != 0 { return createRc; }
      if freeTop == 0 { return -11; }
      if !mapOk {
        MapFails(cookie);
        return -5;
      }
      TopFree(View());
      IssueKeeps(View(), cookie, lba);
      Submit(cookie, lba);
      rc := 0;
    }

    /** The device takes the next command: the one issued next, as it was written. */
    ghost method DeviceFetch() returns (s: Sqe)
      requires Valid() && fetched < issued
      modifies `dev, `fetched, `place
      ensures Valid() && fetched == old(fetched) + 1 && old(fetched) < |sqes| && s == sqes[old(fetched)]
      ensures View() == Step(old(View()), Fetched)
    {
      hide PhaseOf, Placed, Unfetched, Phases, Owned;
      FetchKeeps(View());
      ghost var q := View();
      s := sq[fetched % qd];
      place, dev, fetched := place[s.cid := AtDevice(|dev|)], dev + [s.cid], fetched + 1;
      assert View() == Fetch(q);
    }

    /** The device posts a completion for any command it holds. */
    method DevicePost(ghost d: nat, cid: nat, status: nat, at: nat, phase: nat)
      requires Valid() && d < |dev| && cid == dev[d] && at == posted % qd && phase == PhaseOf(posted, qd)
      modifies cq, `dev, `posted, `place
      ensures Valid() && posted == old(posted) + 1 && cq[..] == old(cq[..])[at := Cqe(cid, status, phase)]
      ensures View() == Step(old(View()), Completed(d, status))
    {
      hide PhaseOf, Placed, Unfetched, Phases, Owned;
      ghost var q := View();
      PostKeeps(q, d, status);
      cq[at] := Cqe(cid, status, phase);
      ghost var n := |dev| - 1;
      place := place[dev[n] := AtDevice(d)][cid := Posted(posted)];
      dev := dev[d := dev[n]][..n];
      posted := posted + 1;
      assert View() == Post(q, d, status);
    }

    /** The completion at the head is consumed and its identifier freed. */
    method Take()
      requires Cursors() && Counts(View()) && reaped < posted && cq[cqHead].cid < qd - 1
               && owner[cq[cqHead].cid] < |tickets|
      modifies this, free
      ensures Cursors() && Counts(old(View())) && old(View()).reaped < old(View()).posted
      ensures old(cq[reaped % qd].cid) < qd - 1 && old(View()).owner[old(cq[reaped % qd].cid)] < |old(View()).tickets|
      ensures View() == Reap(old(View()))
    {
      ghost var q := View();
      hide PhaseOf, PhaseSeen, NextHead;
      SeenStep(reaped, qd);
      var cid := cq[cqHead].cid;
      var next := NextHead(cqHead, cqPhase, qd);
      cqHead, cqPhase := next.0, next.1;
      free[freeTop] := cid;
      freeTop := freeTop + 1;
      tickets, reported := tickets[owner[cid] := Reported(reaped)], reported + [owner[cid]];
      place := place[cid := Free(freeTop - 1)];
      reaped := reaped + 1;
      assert free[..freeTop] == q.free + [cid];
    }

    /** One turn of direct_poll: a new completion exactly when the phase matches; then the read it
        answers is reported with that read's own cookie. */
    method PollOne() returns (isNew: bool, cookie: nat, status: nat)
      requires Valid() && (qd < 0x1_0000 || reaped < 0x1_0000)
      modifies this, free
      ensures Valid() && (isNew <==> old(reaped < posted)) && posted == old(posted) && accepted == old(accepted)
      ensures View() == Step(old(View()), Polled) && fetched == old(fetched) && dev == old(dev) && sqes == old(sqes)
      ensures !isNew ==> reported == old(reported) && reaped == old(reaped)
      ensures isNew ==> reaped == old(reaped) + 1 && |reported| == old(|reported|) + 1
                        && reported[..|reported| - 1] == old(reported)
                        && reported[|reported| - 1] < |accepted| && cookie == accepted[reported[|reported| - 1]]
                        && old(reaped) % qd < cq.Length && status == cq[old(reaped) % qd].status
    {
      hide PhaseOf, PhaseSeen, Placed, Unfetched, Phases, Owned;
      ghost var q := View();
      SeenRight(reaped, qd);
      PhaseTest(q);
      if cq[cqHead].phase != cqPhase { return false, 0, 0; }
      HeadEntry(q);
      ReapKeeps(q);
      cookie, status := cidCookie[cq[cqHead].cid], cq[cqHead].status;
      Take();
      isNew := true;
    }

    /** At 65536 entries, when a whole lap has been reaped and nothing new posted, the poll's test
        accepts the entry at the head: a completion it has reported already. */
    lemma StaleAccepted()
      requires Valid() && qd == reaped == posted == 0x1_0000
      ensures cq[cqHead].phase == cqPhase
    {
      hide Placed, Unfetched, Owned;
      StaleEntry(View());
    }

    /** direct_poll: afterwards every posted completion has been reported. */
    method Poll()
      requires Valid() && (qd < 0x1_0000 || posted < 0x1_0000)
      modifies this, free
      ensures Valid() && reaped == posted == old(posted) && old(reported) <= reported && accepted == old(accepted)
    {
      hide QpOk, PhaseOf, PhaseSeen;
      var more := true;
      ReapedBound(View());
      while more
        invariant Valid() && posted == old(posted) && old(reported) <= reported && accepted == old(accepted)
        invariant reaped <= posted && (!more ==> reaped >= posted)
        decreases posted - reaped, more
      {
        var cookie, status;
        more, cookie, status := PollOne();
        ReapedBound(View());
      }
    }
  }

  lemma ReapedBound(q: Qp)
    requires QpOk(q)
    ensures q.reaped <= q.posted
  {
  }

  lemma FirstPhase(qd: nat)
    requires qd > 0
    ensures PhaseOf(0, qd) == PhaseSeen(0, qd) == 1 && 0 % qd == 0
  {
  }

  /** Rewriting the cookie of a free identifier changes nothing that matters. */
  lemma CookieFree(q: Qp, q': Qp, cid: nat)
    requires QpOk(q) && cid < |q.place| && q.place[cid].Free? && |q'.cookie| == |q.cookie|
    requires q' == q.(cookie := q'.cookie) && forall c :: 0 <= c < |q.cookie| && c != cid ==>
                                                q'.cookie[c] == q.cookie[c]
    ensures QpOk(q')
  {
    forall r | 0 <= r < |q'.tickets| ensures ReadOk(q', r, q'.tickets[r]) { assert ReadOk(q, r, q.tickets[r]); }
    forall x | 0 <= x < |q'.place| ensures Names(q', x, q'.place[x]) { assert Names(q, x, q.place[x]); }
  }
}

/** The bounded request ring with many producers and one consumer, as interleaved atomic steps. A
    producer reserves a position, waits for its cell, writes, and publishes; the consumer takes a
    published cell and releases it for the next lap. Sequence numbers are 32 bits wide. */
module MpscRing {
  import opened Collections
  import opened Radix

  const W: nat := 0x1_0000_0000

  datatype Payload = Payload(reqId: nat, node: nat, dst: nat)

  /** How far the owner of a position has got. */
  datatype Stage = Reserved(p: nat) | Granted(p: nat) | Written(p: nat) | Published | Popped

  datatype Producer = Idle | Holds(pos: nat)

  /** The cells with their sequence numbers, the cursors, the consumer's step, the producers, the
      stage and payload of every position ever reserved, and what was popped. */
  datatype Ring = Ring(entries: nat, seqs: seq<nat>, cells: seq<Payload>, head: nat, tail: nat, taken: bool,
                       prods: seq<Producer>, stage: seq<Stage>, sent: seq<Payload>, popped: seq<Payload>)

  datatype Action = Reserve(p: nat, x: Payload) | Grant(p: nat) | Write(p: nat) | Publish(p: nat) | Take | Release

  function Cell(r: Ring, pos: nat): (c: nat)
    requires r.entries > 0
    ensures c < r.entries
  {
    pos % W % r.entries
  }

  /** Enough for a step to be defined. */
  predicate WellFormed(r: Ring) {
    && r.entries > 0 && |r.seqs| == |r.cells| == r.entries && |r.stage| == |r.sent| == r.head
    && forall p :: 0 <= p < |r.prods| && r.prods[p].Holds? ==> r.prods[p].pos < r.head
  }

  /** One atomic step; a step that is not enabled, such as a wait that fails, changes nothing. */
  function Do(r: Ring, a: Action): Ring
    requires WellFormed(r)
  {
    match a
    case Reserve(p, x) =>
      if p < |r.prods| && r.prods[p].Idle? then
        r.(head := r.head + 1, prods := r.prods[p := Holds(r.head)], stage := r.stage + [Reserved(p)],
           sent := r.sent + [x])
      else r
    case Grant(p) =>
      if p < |r.prods| && r.prods[p].Holds? && r.stage[r.prods[p].pos] == Reserved(p)
         && r.seqs[Cell(r, r.prods[p].pos)] == r.prods[p].pos % W then
        r.(stage := r.stage[r.prods[p].pos := Granted(p)])
      else r
    case Write(p) =>
      if p < |r.prods| && r.prods[p].Holds? && r.stage[r.prods[p].pos] == Granted(p) then
        var pos := r.prods[p].pos;
        r.(stage := r.stage[pos := Written(p)], cells := r.cells[Cell(r, pos) := r.sent[pos]])
      else r
    case Publish(p) =>
      if p < |r.prods| && r.prods[p].Holds? && r.stage[r.prods[p].pos] == Written(p) then
        var pos := r.prods[p].pos;
        r.(stage := r.stage[pos := Published], seqs := r.seqs[Cell(r, pos) := (pos + 1) % W],
           prods := r.prods[p := Idle])
      else r
    case Take =>
      if !r.taken && r.seqs[Cell(r, r.tail)] == (r.tail + 1) % W then
        r.(taken := true, popped := r.popped + [r.cells[Cell(r, r.tail)]])
      else r
    case Release =>
      if r.taken && r.tail < r.head then
        r.(taken := false, seqs := r.seqs[Cell(r, r.tail) := (r.tail + r.entries) % W], tail := r.tail + 1,
           stage := r.stage[r.tail := Popped])
      else r
  }

  /** What the sequence number of a position's cell stands at during its lap. */
  function Val(r: Ring, pos: nat): nat {
    if pos < |r.stage| && r.stage[pos] == Published then pos + 1 else pos
  }

  /** The ring as configured: two entries at least, a power of two in the code, dividing 2^32; and
      entries and producers together fewer than 2^32. */
  predicate Configured(entries: nat, producers: nat) {
    2 <= entries <= 0x8000_0000 && W % entries == 0 && entries + producers < W
  }

  predicate Shape(r: Ring) {
    && Configured(r.entries, |r.prods|) && |r.seqs| == |r.cells| == r.entries
    && |r.stage| == |r.sent| == r.head && r.tail <= r.head
  }

  ghost predicate SeqsOk(r: Ring)
    requires Shape(r)
  {
    forall pos :: r.tail <= pos < r.tail + r.entries ==> r.seqs[Cell(r, pos)] == Val(r, pos) % W
  }

  /** A position's stage names its producer, is within the ring once past the wait, and its cell
      holds its payload once written. */
  ghost predicate StageOk(r: Ring, pos: nat)
    requires Shape(r) && pos < r.head
  {
    match r.stage[pos]
    case Reserved(p) => pos >= r.tail && p < |r.prods| && r.prods[p] == Holds(pos)
    case Granted(p) => r.tail <= pos < r.tail + r.entries && p < |r.prods| && r.prods[p] == Holds(pos)
    case Written(p) => r.tail <= pos < r.tail + r.entries && p < |r.prods| && r.prods[p] == Holds(pos)
        && r.cells[Cell(r, pos)] == r.sent[pos]
    case Published => r.tail <= pos < r.tail + r.entries && r.cells[Cell(r, pos)] == r.sent[pos]
    case Popped => pos < r.tail
  }

  ghost predicate ProdOk(r: Ring, p: nat)
    requires p < |r.prods|
  {
    r.prods[p].Holds? ==> r.prods[p].pos < |r.stage| && r.stage[r.prods[p].pos] in {Reserved(p), Granted(p), Written(p)}
  }

  /** The consumer has the payloads of a prefix of the reservations, in order. */
  predicate PoppedOk(r: Ring)
    requires Shape(r)
  {
    && (r.taken ==> r.tail < r.head && r.stage[r.tail] == Published)
    && r.popped == r.sent[..r.tail + if r.taken then 1 else 0]
  }

  ghost predicate Inv(r: Ring) {
    && Shape(r) && SeqsOk(r) && PoppedOk(r)
    && (forall pos :: 0 <= pos < r.head ==> StageOk(r, pos))
    && (forall p :: 0 <= p < |r.prods| ==> ProdOk(r, p))
  }

  // ---- positions, cells and wrapped sequence numbers ----

  lemma ModMod(pos: nat, n: nat)
    requires 0 < n && W % n == 0
    ensures pos % W % n == pos % n
  {
    var k, z := DivMod(W, n);
    var q, low := DivMod(pos, W);
    var j, m := DivMod(low, n);
    calc { pos; W * q + low; (n * k) * q + (n * j + m); n * (k * q) + n * j + m; n * (k * q + j) + m; }
    DivUnique(pos, n, k * q + j, m);
  }

  /** Within a lap different positions have different cells. */
  lemma CellsApart(r: Ring, a: nat, b: nat)
    requires Shape(r) && a <= b < a + r.entries && Cell(r, a) == Cell(r, b)
    ensures a == b
  {
    ModMod(a, r.entries);
    ModMod(b, r.entries);
    SameCell(a, b, r.entries);
  }

  /** Every position's cell is used by exactly one position of the current lap. */
  lemma LapPosition(r: Ring, pos: nat) returns (cur: nat)
    requires Shape(r) && r.tail <= pos
    ensures r.tail <= cur < r.tail + r.entries && cur <= pos && Cell(r, cur) == Cell(r, pos)
            && (pos - cur) % r.entries == 0
  {
    var q, m := DivMod(pos - r.tail, r.entries);
    cur := r.tail + m;
    assert pos - cur == r.entries * q;
    DivUnique(pos - cur, r.entries, q, 0);
    AddLaps(cur, r.entries, q);
    ModMod(cur, r.entries);
    ModMod(pos, r.entries);
  }

  lemma AddLaps(a: nat, n: nat, q: nat)
    requires n > 0
    ensures (a + n * q) % n == a % n
  {
    var k, m := DivMod(a, n);
    calc { a + n * q; n * k + m + n * q; n * (k + q) + m; }
    DivUnique(a + n * q, n, k + q, m);
  }

  /** Wrapped numbers less than 2^32 apart are equal exactly when the numbers are. */
  lemma WrapExact(a: int, b: int)
    requires a < b + W && b < a + W
    ensures a % W == b % W <==> a == b
  {
  }

  lemma NextLap(r: Ring, pos: nat)
    requires Shape(r)
    ensures Cell(r, pos + r.entries) == Cell(r, pos)
  {
    ModMod(pos, r.entries);
    ModMod(pos + r.entries, r.entries);
    AddLaps(pos, r.entries, 1);
  }

  // ---- how many positions are outstanding ----

  /** The producers that hold a position past the ring but below n. */
  ghost function Waiting(r: Ring, n: nat): set<nat> {
    set p: nat | p < |r.prods| && r.prods[p].Holds? && r.tail + r.entries <= r.prods[p].pos < n
  }

  /** Every position past the ring is held by a producer of its own. */
  lemma {:induction false} WaitingMany(r: Ring, n: nat)
    requires Inv(r) && n <= r.head
    ensures n <= r.tail + r.entries + |Waiting(r, n)|
  {
    if n > r.tail + r.entries {
      WaitingMany(r, n - 1);
      assert StageOk(r, n - 1);
      var p := r.stage[n - 1].p;
      assert p !in Waiting(r, n - 1);
      SubsetSize(Waiting(r, n - 1) + {p}, Waiting(r, n));
    }
  }

  /** No more positions are reserved ahead of the tail than the ring has entries and producers to
      wait for one, and fewer while some producer is idle: the 32-bit cursors never overrun. */
  lemma Outstanding(r: Ring)
    requires Inv(r)
    ensures r.head <= r.tail + r.entries + |r.prods|
    ensures forall p :: 0 <= p < |r.prods| && r.prods[p].Idle? ==> r.head < r.tail + r.entries + |r.prods|
  {
    WaitingMany(r, r.head);
    SubsetSize(Waiting(r, r.head), Below(|r.prods|));
    forall p | 0 <= p < |r.prods| && r.prods[p].Idle? ensures r.head < r.tail + r.entries + |r.prods| {
      SubsetSize(Waiting(r, r.head), Below(|r.prods|) - {p});
    }
  }

  /** A waiting producer's test succeeds exactly when the ring has come round to its position. */
  lemma ReadyExactly(r: Ring, p: nat)
    requires Inv(r) && p < |r.prods| && r.prods[p].Holds? && r.prods[p].pos < r.head
             && r.stage[r.prods[p].pos] == Reserved(p)
    ensures r.seqs[Cell(r, r.prods[p].pos)] == r.prods[p].pos % W <==> r.prods[p].pos < r.tail + r.entries
  {
    var pos := r.prods[p].pos;
    assert StageOk(r, pos);
    var cur := LapPosition(r, pos);
    Outstanding(r);
    WrapExact(Val(r, cur), pos);
    DivUnique(1, r.entries, 0, 1);
    if pos < r.tail + r.entries { CellsApart(r, cur, pos); }
  }

  /** The consumer's test succeeds exactly when the position at the tail is published. */
  lemma TakeExactly(r: Ring)
    requires Inv(r)
    ensures r.seqs[Cell(r, r.tail)] == (r.tail + 1) % W <==> r.tail < r.head && r.stage[r.tail] == Published
  {
    WrapExact(Val(r, r.tail), r.tail + 1);
  }

  // ---- every step keeps the ring sound ----

  lemma HoldsBelow(r: Ring)
    requires Inv(r)
    ensures WellFormed(r)
  {
    forall p | 0 <= p < |r.prods| && r.prods[p].Holds? ensures r.prods[p].pos < r.head { assert ProdOk(r, p); }
  }

  lemma ReserveKeeps(r: Ring, p: nat, x: Payload)
    requires Inv(r) && p < |r.prods| && r.prods[p].Idle?
    ensures Inv(r.(head := r.head + 1, prods := r.prods[p := Holds(r.head)], stage := r.stage + [Reserved(p)],
                   sent := r.sent + [x]))
  {
    var r' := r.(head := r.head + 1, prods := r.prods[p := Holds(r.head)], stage := r.stage + [Reserved(p)],
                 sent := r.sent + [x]);
    forall pos | 0 <= pos < r'.head ensures StageOk(r', pos) {
      if pos < r.head { assert StageOk(r, pos); }
    }
    forall j | 0 <= j < |r'.prods| ensures ProdOk(r', j) { assert ProdOk(r, j); }
    forall pos | r'.tail <= pos < r'.tail + r'.entries ensures r'.seqs[Cell(r', pos)] == Val(r', pos) % W {
      assert r.seqs[Cell(r, pos)] == Val(r, pos) % W;
    }
  }

  lemma GrantKeeps(r: Ring, p: nat, pos: nat)
    requires Inv(r) && p < |r.prods| && r.prods[p] == Holds(pos) && pos < r.head && r.stage[pos] == Reserved(p)
    requires r.seqs[Cell(r, pos)] == pos % W
    ensures Inv(r.(stage := r.stage[pos := Granted(p)]))
  {
    ReadyExactly(r, p);
    assert StageOk(r, pos);
    var r' := r.(stage := r.stage[pos := Granted(p)]);
    forall i | 0 <= i < r'.head ensures StageOk(r', i) { assert StageOk(r, i); }
    forall j | 0 <= j < |r'.prods| ensures ProdOk(r', j) { assert ProdOk(r, j); }
    forall i | r'.tail <= i < r'.tail + r'.entries ensures r'.seqs[Cell(r', i)] == Val(r', i) % W {
      assert r.seqs[Cell(r, i)] == Val(r, i) % W;
    }
  }

  /** A write lands in a cell no other live position uses. */
  lemma WriteKeeps(r: Ring, p: nat, pos: nat)
    requires Inv(r) && p < |r.prods| && r.prods[p] == Holds(pos) && pos < r.head && r.stage[pos] == Granted(p)
    ensures Inv(r.(stage := r.stage[pos := Written(p)], cells := r.cells[Cell(r, pos) := r.sent[pos]]))
  {
    assert StageOk(r, pos);
    var r' := r.(stage := r.stage[pos := Written(p)], cells := r.cells[Cell(r, pos) := r.sent[pos]]);
    forall i | 0 <= i < r'.head ensures StageOk(r', i) {
      assert StageOk(r, i);
      if r.tail <= i < r.tail + r.entries && Cell(r, i) == Cell(r, pos) {
        CellsApart(r, if i < pos then i else pos, if i < pos then pos else i);
      }
    }
    forall j | 0 <= j < |r'.prods| ensures ProdOk(r', j) { assert ProdOk(r, j); }
    forall i | r'.tail <= i < r'.tail + r'.entries ensures r'.seqs[Cell(r', i)] == Val(r', i) % W {
      assert r.seqs[Cell(r, i)] == Val(r, i) % W;
    }
  }

  lemma PublishKeeps(r: Ring, p: nat, pos: nat)
    requires Inv(r) && p < |r.prods| && r.prods[p] == Holds(pos) && pos < r.head && r.stage[pos] == Written(p)
    ensures Inv(r.(stage := r.stage[pos := Published], seqs := r.seqs[Cell(r, pos) := (pos + 1) % W],
                   prods := r.prods[p := Idle]))
  {
    assert StageOk(r, pos);
    var r' := r.(stage := r.stage[pos := Published], seqs := r.seqs[Cell(r, pos) := (pos + 1) % W],
                 prods := r.prods[p := Idle]);
    forall i | 0 <= i < r'.head ensures StageOk(r', i) { assert StageOk(r, i); }
    forall j | 0 <= j < |r'.prods| ensures ProdOk(r', j) { assert ProdOk(r, j); }
    forall i | r'.tail <= i < r'.tail + r'.entries ensures r'.seqs[Cell(r', i)] == Val(r', i) % W {
      assert r.seqs[Cell(r, i)] == Val(r, i) % W;
      if Cell(r, i) == Cell(r, pos) {
        CellsApart(r, if i < pos then i else pos, if i < pos then pos else i);
      }
    }
  }

  lemma TakeKeeps(r: Ring)
    requires Inv(r) && !r.taken && r.seqs[Cell(r, r.tail)] == (r.tail + 1) % W
    ensures Inv(r.(taken := true, popped := r.popped + [r.cells[Cell(r, r.tail)]]))
  {
    TakeExactly(r);
    assert StageOk(r, r.tail);
    var r' := r.(taken := true, popped := r.popped + [r.cells[Cell(r, r.tail)]]);
    forall i | 0 <= i < r'.head ensures StageOk(r', i) { assert StageOk(r, i); }
    forall j | 0 <= j < |r'.prods| ensures ProdOk(r', j) { assert ProdOk(r, j); }
    forall i | r'.tail <= i < r'.tail + r'.entries ensures r'.seqs[Cell(r', i)] == Val(r', i) % W {
      assert r.seqs[Cell(r, i)] == Val(r, i) % W;
    }
    assert r.sent[..r.tail + 1] == r.sent[..r.tail] + [r.sent[r.tail]];
  }

  lemma ReleaseKeeps(r: Ring)
    requires Inv(r) && r.taken && r.tail < r.head
    ensures Inv(r.(taken := false, seqs := r.seqs[Cell(r, r.tail) := (r.tail + r.entries) % W], tail := r.tail + 1,
                   stage := r.stage[r.tail := Popped]))
  {
    var r' := r.(taken := false, seqs := r.seqs[Cell(r, r.tail) := (r.tail + r.entries) % W], tail := r.tail + 1,
                 stage := r.stage[r.tail := Popped]);
    forall i | 0 <= i < r'.head ensures StageOk(r', i) { assert StageOk(r, i); }
    forall j | 0 <= j < |r'.prods| ensures ProdOk(r', j) { assert ProdOk(r, j); }
    forall i | r'.tail <= i < r'.tail + r'.entries ensures r'.seqs[Cell(r', i)] == Val(r', i) % W {
      if i == r.tail + r.entries {
        NextLap(r, r.tail);
        NotYetPublished(r, i);
      } else {
        assert r.seqs[Cell(r, i)] == Val(r, i) % W;
        if Cell(r, i) == Cell(r, r.tail) { CellsApart(r, r.tail, i); }
      }
    }
  }

  lemma NotYetPublished(r: Ring, pos: nat)
    requires Inv(r) && pos >= r.tail + r.entries
    ensures Val(r, pos) == pos
  {
    if pos < r.head { assert StageOk(r, pos); }
  }

  lemma StepKeeps(r: Ring, a: Action)
    requires Inv(r)
    ensures WellFormed(r) && Inv(Do(r, a))
  {
    HoldsBelow(r);
    hide Inv;
    StepCases(r, a);
  }

  lemma StepCases(r: Ring, a: Action)
    requires Inv(r) && WellFormed(r)
    ensures Inv(Do(r, a))
  {
    match a {
      case Reserve(p, x) =>
        if p < |r.prods| && r.prods[p].Idle? { ReserveKeeps(r, p, x); }
      case Grant(p) =>
        if p < |r.prods| && r.prods[p].Holds? && r.stage[r.prods[p].pos] == Reserved(p)
           && r.seqs[Cell(r, r.prods[p].pos)] == r.prods[p].pos % W { GrantKeeps(r, p, r.prods[p].pos); }
      case Write(p) =>
        if p < |r.prods| && r.prods[p].Holds?
            && r.stage[r.prods[p].pos] == Granted(p) { WriteKeeps(r, p, r.prods[p].pos); }
      case Publish(p) =>
        if p < |r.prods| && r.prods[p].Holds?
            && r.stage[r.prods[p].pos] == Written(p) { PublishKeeps(r, p, r.prods[p].pos); }
      case Take =>
        if !r.taken && r.seqs[Cell(r, r.tail)] == (r.tail + 1) % W { TakeKeeps(r); }
      case Release =>
        if r.taken && r.tail < r.head { ReleaseKeeps(r); }
    }
  }

  // ---- whole runs ----

  /** The ring as initialised: cell i waits for position i. */
  function Start(entries: nat, producers: nat, fill: Payload): (r: Ring)
    ensures |r.seqs| == |r.cells| == entries && forall i :: 0 <= i < entries ==> r.seqs[i] == i
  {
    Ring(entries, seq(entries, i => i), seq(entries, i => fill), 0, 0, false, seq(producers, i => Idle), [], [], [])
  }

  lemma StartInv(entries: nat, producers: nat, fill: Payload)
    requires Configured(entries, producers)
    ensures Inv(Start(entries, producers, fill))
  {
    var r := Start(entries, producers, fill);
    forall pos | 0 <= pos < entries ensures r.seqs[Cell(r, pos)] == Val(r, pos) % W {
      ModMod(pos, entries);
      DivUnique(pos, entries, 0, pos);
    }
  }

  /** A run from the initial ring, any producer or the consumer taking each step. */
  ghost predicate Run(trace: seq<Ring>, acts: seq<Action>, entries: nat, producers: nat, fill: Payload) {
    && |trace| == |acts| + 1 && trace[0] == Start(entries, producers, fill)
    && forall i :: 0 <= i < |acts| ==> Steps(trace[i], acts[i], trace[i + 1])
  }

  predicate Steps(r: Ring, a: Action, r': Ring) {
    WellFormed(r) && r' == Do(r, a)
  }

  /** However producers and consumer interleave, what has been popped is exactly the payloads of the
      first reservations, in reservation order: none duplicated, reordered or overwritten, and none lost
      once the tail has reached the head. */
  lemma {:induction false} RunInOrder(trace: seq<Ring>, acts: seq<Action>, entries: nat, producers: nat, fill: Payload,
                                      n: nat)
    requires Configured(entries, producers) && Run(trace, acts, entries, producers, fill) && n < |trace|
    ensures Inv(trace[n]) && trace[n].popped <= trace[n].sent
    ensures trace[n].tail == trace[n].head ==> trace[n].popped == trace[n].sent
  {
    if n == 0 {
      StartInv(entries, producers, fill);
    } else {
      RunInOrder(trace, acts, entries, producers, fill, n - 1);
      assert Steps(trace[n - 1], acts[n - 1], trace[n]);
      StepKeeps(trace[n - 1], acts[n - 1]);
    }
  }

  /** With a single entry the published mark of one position is the next position's turn: the
      second producer is let in, and overwrites a payload that was never popped. */
  lemma OneEntryOverwrites(x: Payload, y: Payload)
    requires x != y
    ensures var r0 := Start(1, 2, x);
            var r4 := Do(Do(Do(Do(r0, Reserve(0, x)), Grant(0)), Write(0)), Publish(0));
            var r7 := Do(Do(Do(r4, Reserve(1, y)), Grant(1)), Write(1));
            r4.cells[0] == x && r7.popped == [] && r7.stage[0] == Published && r7.cells[0] == y
  {
    var r0 := Start(1, 2, x);
    assert r0.prods == [Idle, Idle];
    var r1 := Do(r0, Reserve(0, x));
    assert r1.stage == [Reserved(0)] && r1.prods[0] == Holds(0) && r1.seqs[0] == 0 && Cell(r1, 0) == 0;
    var r2 := Do(r1, Grant(0));
    assert r2.stage == [Granted(0)];
    var r3 := Do(r2, Write(0));
    assert r3.stage == [Written(0)] && r3.cells == [x];
    var r4 := Do(r3, Publish(0));
    assert r4.stage == [Published] && r4.seqs == [1] && r4.prods == [Idle, Idle];
    var r5 := Do(r4, Reserve(1, y));
    assert r5.stage == [Published, Reserved(1)] && r5.prods[1] == Holds(1) && Cell(r5, 1) == 0;
    var r6 := Do(r5, Grant(1));
    assert r6.stage == [Published, Granted(1)];
    var r7 := Do(r6, Write(1));
    assert r7.cells == [y];
  }
}

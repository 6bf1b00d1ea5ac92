/** The backends behind the coalescer: the striping of pages over devices, the emulated backend's
    FIFO of timed completions, and the single-producer completion ring to the GPU. */
module CoBackend {
  import opened Radix

  // ---- striping ----

  /** co_map_backend: the device and the offset on it of a page-aligned offset. */
  function MapBackend(isReal: bool, ndev: nat, nsid: nat, page: nat, tag: nat): (r: (nat, nat))
    requires page > 0
    ensures isReal ==> (if ndev > 1 then r.0 < ndev else r.0 == 0)
  {
    if !isReal then (if nsid != 0 then nsid - 1 else 0, tag)
    else if ndev > 1 then (tag / page % ndev, tag / page / ndev * page)
    else (0, tag)
  }

  /** Different pages are at different places, each whole and page-aligned on its device. */
  lemma MapInjective(isReal: bool, ndev: nat, nsid: nat, page: nat, a: nat, b: nat)
    requires page > 0 && a % page == 0 && b % page == 0
    requires MapBackend(isReal, ndev, nsid, page, a) == MapBackend(isReal, ndev, nsid, page, b)
    ensures a == b
  {
    if isReal && ndev > 1 {
      var i, j := a / page, b / page;
      RadixInjective(i / ndev, 0, j / ndev, 0, page);
      assert i == i / ndev * ndev + i % ndev && j == j / ndev * ndev + j % ndev;
    }
  }

  /** On real devices the page numbers are dealt out in turn: the device and the place on it give the
      number back. The emulated device is the namespace's own, at the same offset. */
  lemma MapInverse(isReal: bool, ndev: nat, nsid: nat, page: nat, tag: nat)
    requires page > 0 && tag % page == 0
    ensures var (dev, at) := MapBackend(isReal, ndev, nsid, page, tag);
            if isReal then at % page == 0 && (if ndev > 1 then dev < ndev && at / page * ndev + dev == tag / page
                                              else dev == 0 && at == tag)
            else at == tag && (if nsid > 0 then dev + 1 == nsid else dev == 0)
  {
    if isReal && ndev > 1 {
      var i := tag / page;
      DivUnique(i / ndev * page, page, i / ndev, 0);
      assert i == i / ndev * ndev + i % ndev;
    }
  }

  // ---- a ring of n cells with absolute cursors ----

  function CellAt<T>(cells: seq<T>, k: nat): T
    requires |cells| > 0
  {
    cells[k % |cells|]
  }

  /** The entries between the cursors, oldest first. */
  ghost function Window<T>(cells: seq<T>, head: nat, tail: nat): (r: seq<T>)
    requires |cells| > 0 && head <= tail
    ensures |r| == tail - head
  {
    if head == tail then [] else Window(cells, head, tail - 1) + [CellAt(cells, tail - 1)]
  }

  lemma {:induction false} WindowFrame<T>(cells: seq<T>, c: seq<T>, head: nat, tail: nat)
    requires |c| == |cells| > 0 && head <= tail && forall k :: head <= k < tail ==> CellAt(c, k) == CellAt(cells, k)
    ensures Window(c, head, tail) == Window(cells, head, tail)
  {
    if head < tail { WindowFrame(cells, c, head, tail - 1); }
  }

  /** Writing at the tail of a ring with room appends and disturbs nothing. */
  lemma WindowPush<T>(cells: seq<T>, head: nat, tail: nat, x: T)
    requires |cells| > 0 && head <= tail < head + |cells|
    ensures Window(cells[tail % |cells| := x], head, tail + 1) == Window(cells, head, tail) + [x]
  {
    var c, n := cells[tail % |cells| := x], |cells|;
    forall k | head <= k < tail ensures CellAt(c, k) == CellAt(cells, k) {
      if k % n == tail % n { SameCell(k, tail, n); }
    }
    WindowFrame(cells, c, head, tail);
  }

  lemma {:induction false} WindowPop<T>(cells: seq<T>, head: nat, tail: nat)
    requires |cells| > 0 && head < tail
    ensures Window(cells, head, tail) == [CellAt(cells, head)] + Window(cells, head + 1, tail)
  {
    if head + 1 < tail { WindowPop(cells, head, tail - 1); }
  }

  // ---- the emulated backend ----

  /** A read that completes at due. */
  datatype Timed = Timed(due: nat, cookie: nat)

  /** How many of the oldest reads are due. */
  function DuePrefix(q: seq<Timed>, now: nat): (n: nat)
    ensures n <= |q|
  {
    if q != [] && q[0].due <= now then 1 + DuePrefix(q[1..], now) else 0
  }

  lemma {:induction false} DuePrefixIs(q: seq<Timed>, now: nat)
    ensures var n := DuePrefix(q, now); (forall i :: 0 <= i < n ==> q[i].due <= now) && (n < |q| ==> q[n].due > now)
  {
    if q != [] && q[0].due <= now {
      DuePrefixIs(q[1..], now);
      assert forall i :: 1 <= i < |q| ==> q[i] == q[1..][i - 1];
    }
  }

  lemma DueNext(q: seq<Timed>, now: nat, n: nat)
    requires n < |q| && n <= DuePrefix(q, now)
    ensures if q[n].due <= now then n < DuePrefix(q, now) else n == DuePrefix(q, now)
  {
    DuePrefixIs(q, now);
  }

  /** Due times never decrease along the queue, and none is beyond the limit. */
  predicate Timely(q: seq<Timed>, limit: nat) {
    && (forall i, j :: 0 <= i < j < |q| ==> q[i].due <= q[j].due)
    && (forall i :: 0 <= i < |q| ==> q[i].due <= limit)
  }

  lemma TimelySuffix(q: seq<Timed>, limit: nat, n: nat)
    requires Timely(q, limit) && n <= |q|
    ensures Timely(q[n..], limit)
  {
  }

  lemma TimelyAppend(q: seq<Timed>, limit: nat, x: Timed)
    requires Timely(q, limit) && limit <= x.due
    ensures Timely(q + [x], x.due)
  {
  }

  /** So the due prefix is everything due: draining from the front completes exactly that. */
  lemma PrefixIsAllDue(q: seq<Timed>, limit: nat, now: nat)
    requires Timely(q, limit)
    ensures forall i :: 0 <= i < |q| ==> (q[i].due <= now <==> i < DuePrefix(q, now))
  {
    var n := DuePrefix(q, now);
    DuePrefixIs(q, now);
    forall i | 0 <= i < |q| ensures q[i].due <= now <==> i < n {
      if i > n { assert q[n].due <= q[i].due; }
    }
  }

  /** The cookies of the first n reads. */
  function Cookies(q: seq<Timed>, n: nat): (r: seq<nat>)
    requires n <= |q|
    ensures |r| == n && forall i :: 0 <= i < n ==> r[i] == q[i].cookie
  {
    seq(n, i requires 0 <= i < n => q[i].cookie)
  }

  /** backend_model's ring of one shard, with constant latency. */
  const MAX_SHARDS: nat := 32

  /** A completion reported: for which cookie and with which status. */
  datatype Done = Done(cookie: nat, status: int)

  /** What becomes of a completion that is due, given a roll below a million and the rates at which
      completions are dropped and failed on purpose. */
  function Outcome(drop: nat, err: nat, cookie: nat, roll: nat): seq<Done> {
    if drop == 0 && err == 0 then [Done(cookie, 0)]
    else if roll < drop then []
    else if roll < (drop + err) % 0x1_0000_0000 then [Done(cookie, -5)]
    else [Done(cookie, 0)]
  }

  function Outcomes(drop: nat, err: nat, cookies: seq<nat>, rolls: seq<nat>): seq<Done>
    requires |cookies| == |rolls|
    decreases |cookies|
  {
    if cookies == [] then []
    else
      var n := |cookies| - 1;
      Outcomes(drop, err, cookies[..n], rolls[..n]) + Outcome(drop, err, cookies[n], rolls[n])
  }

  /** Without fault injection every completion due is reported, once, in order, as a success. */
  lemma {:induction false} NoFaults(cookies: seq<nat>, rolls: seq<nat>)
    requires |cookies| == |rolls|
    ensures var d := Outcomes(0, 0, cookies, rolls);
            |d| == |cookies| && forall i :: 0 <= i < |d| ==> d[i] == Done(cookies[i], 0)
    decreases |cookies|
  {
    if cookies != [] { NoFaults(cookies[..|cookies| - 1], rolls[..|rolls| - 1]); }
  }

  /** With it, what is dropped is exactly what rolled below the drop rate: nothing is made up. */
  lemma {:induction false} FaultsOnly(drop: nat, err: nat, cookies: seq<nat>, rolls: seq<nat>)
    requires |cookies| == |rolls| && drop + err > 0
    ensures |Outcomes(drop, err, cookies, rolls)| == |cookies| - |Dropped(drop, cookies, rolls)|
    ensures multiset(CookiesOf(Outcomes(drop, err, cookies, rolls))) + multiset(Dropped(drop, cookies, rolls))
            == multiset(cookies)
    decreases |cookies|
  {
    if cookies != [] {
      var n := |cookies| - 1;
      FaultsOnly(drop, err, cookies[..n], rolls[..n]);
      CookiesOfConcat(Outcomes(drop, err, cookies[..n], rolls[..n]), Outcome(drop, err, cookies[n], rolls[n]));
      assert cookies == cookies[..n] + [cookies[n]];
      OneOutcome(drop, err, cookies[n], rolls[n]);
    }
  }

  lemma OneOutcome(drop: nat, err: nat, cookie: nat, roll: nat)
    requires drop + err > 0
    ensures CookiesOf(Outcome(drop, err, cookie, roll)) == if roll < drop then [] else [cookie]
  {
  }

  /** The places of the rolls that are not below the drop rate. */
  function Kept(drop: nat, rolls: seq<nat>): seq<nat> {
    if rolls == [] then []
    else
      var n := |rolls| - 1;
      Kept(drop, rolls[..n]) + if rolls[n] >= drop then [n] else []
  }

  /** All of them, in order. */
  lemma {:induction false} KeptIs(drop: nat, rolls: seq<nat>)
    ensures var r := Kept(drop, rolls);
            && (forall k :: 0 <= k < |r| ==> r[k] < |rolls| && rolls[r[k]] >= drop)
            && (forall k, m :: 0 <= k < m < |r| ==> r[k] < r[m])
            && forall i :: 0 <= i < |rolls| && rolls[i] >= drop ==> i in r
  {
    if rolls != [] {
      var n := |rolls| - 1;
      KeptIs(drop, rolls[..n]);
      assert forall i :: 0 <= i < n ==> rolls[i] == rolls[..n][i];
    }
  }

  /** With faults injected, the completions that did not roll below the drop rate are reported in order,
      each with -5 exactly when its roll lies below the two rates added in 32 bits. */
  lemma {:induction false} FaultsAre(drop: nat, err: nat, cookies: seq<nat>, rolls: seq<nat>)
    requires |cookies| == |rolls| && drop + err > 0
    ensures var d, at := Outcomes(drop, err, cookies, rolls), Kept(drop, rolls);
            |d| == |at| && forall k :: 0 <= k < |d| ==>
                             && at[k] < |rolls| && d[k].cookie == cookies[at[k]]
                             && d[k].status == if rolls[at[k]] < (drop + err) % 0x1_0000_0000 then -5 else 0
    decreases |cookies|
  {
    if cookies != [] {
      var n := |cookies| - 1;
      FaultsAre(drop, err, cookies[..n], rolls[..n]);
      assert forall i :: 0 <= i < n ==> rolls[i] == rolls[..n][i] && cookies[i] == cookies[..n][i];
    }
  }

  function Dropped(drop: nat, cookies: seq<nat>, rolls: seq<nat>): seq<nat>
    requires |cookies| == |rolls|
    decreases |cookies|
  {
    if cookies == [] then []
    else
      var n := |cookies| - 1;
      Dropped(drop, cookies[..n], rolls[..n]) + if rolls[n] < drop then [cookies[n]] else []
  }

  function CookiesOf(d: seq<Done>): (r: seq<nat>)
    ensures |r| == |d| && forall i :: 0 <= i < |d| ==> r[i] == d[i].cookie
  {
    seq(|d|, i requires 0 <= i < |d| => d[i].cookie)
  }

  lemma CookiesOfConcat(a: seq<Done>, b: seq<Done>)
    ensures CookiesOf(a + b) == CookiesOf(a) + CookiesOf(b)
  {
  }

  class TimerRing {
    const e: array<Timed>
    const latency: nat
    var head: nat
    var tail: nat
    /** The clock at the last issue. */
    ghost var clock: nat

    ghost predicate Valid()
      reads this, e
    {
      0 < e.Length && head <= tail <= head + e.Length && Timely(Pending(), clock + latency)
    }

    /** The reads issued and not completed, oldest first. */
    ghost function Pending(): (r: seq<Timed>)
      requires 0 < e.Length && head <= tail
      reads this, e
      ensures |r| == tail - head
    {
      Window(e[..], head, tail)
    }

    constructor (cap: nat, ns: nat)
      requires cap > 0
      ensures Valid() && Pending() == [] && e.Length == cap && latency == ns && clock == 0
    {
      e := new Timed[cap](i => Timed(0, 0));
      latency, head, tail, clock := ns, 0, 0, 0;
    }

    /** backend_model_issue_read: refused for a shard without a ring, put off exactly when the ring
        is full, refused when the namespace is not mapped, otherwise queued last. */
    method IssueRead(cookie: nat, now: nat, mapped: bool) returns (rc: int)
      requires Valid() && now >= clock
      modifies this, e
      ensures Valid() && rc == (if cookie / 0x1_0000_0000 % 0x1_0000_0000 >= MAX_SHARDS then -22
                                else if old(|Pending()|) == e.Length then -11 else if !mapped then -5 else 0)
      ensures Pending() == old(Pending()) + (if rc == 0 then [Timed(now + latency, cookie)] else [])
      ensures clock == if rc == 0 then now else old(clock)
    {
      if cookie / 0x1_0000_0000 % 0x1_0000_0000 >= MAX_SHARDS { return -22; }
      if tail - head >= e.Length { return -11; }
      if !mapped { return -5; }
      ghost var was, q := e[..], Pending();
      WindowPush(was, head, tail, Timed(now + latency, cookie));
      e[tail % e.Length] := Timed(now + latency, cookie);
      assert e[..] == was[tail % |was| := Timed(now + latency, cookie)];
      TimelyAppend(q, clock + latency, Timed(now + latency, cookie));
      tail, clock := tail + 1, now;
      assert Pending() == q + [Timed(now + latency, cookie)];
      rc := 0;
    }

    /** n reads of q have been taken off and reported or dropped as the rolls say; the rest are
        pending. */
    ghost predicate Drained(q: seq<Timed>, n: nat, drop: nat, err: nat, rolls: seq<nat>, done: seq<Done>)
      reads this, e
    {
      && 0 < e.Length && head <= tail <= head + e.Length && n <= |q| && Pending() == q[n..]
      && |rolls| == n && done == Outcomes(drop, err, Cookies(q, n), rolls)
    }

    /** One turn of the poll: the oldest read is taken off if it is due. */
    method PollOne(now: nat, drop: nat, err: nat, ghost q: seq<Timed>, ghost n: nat, ghost rolls: seq<nat>,
                   done: seq<Done>)
      returns (more: bool, done': seq<Done>, ghost roll: nat)
      requires Drained(q, n, drop, err, rolls, done) && n <= DuePrefix(q, now)
      modifies `head
      ensures (more <==> n < DuePrefix(q, now)) && roll < 1_000_000
      ensures if more then Drained(q, n + 1, drop, err, rolls + [roll], done') && head == old(head) + 1 <= tail
              else Drained(q, n, drop, err, rolls, done') && head == old(head)
    {
      hide Window, CellAt, Cookies, DuePrefix, Outcomes, Outcome;
      PendingLength(q, n, drop, err, rolls, done);
      if head == tail || e[head % e.Length].due > now {
        if head != tail {
          FrontIs(e[..], head, tail, q, n);
          DueNext(q, now, n);
        }
        return false, done, 0;
      }
      FrontIs(e[..], head, tail, q, n);
      DueNext(q, now, n);
      var chance: nat :| chance < 1_000_000;
      OutcomesNext(q, n, drop, err, rolls, chance);
      done' := done + Outcome(drop, err, e[head % e.Length].cookie, chance);
      roll := chance;
      head := head + 1;
      more := true;
    }

    lemma PendingLength(q: seq<Timed>, n: nat, drop: nat, err: nat, rolls: seq<nat>, done: seq<Done>)
      requires Drained(q, n, drop, err, rolls, done)
      ensures tail - head == |q| - n
    {
      assert |Pending()| == tail - head;
    }

    /** backend_model_poll: takes off exactly the due prefix, in the order issued, and reports each as
        its roll says. */
    method Poll(now: nat, drop: nat, err: nat) returns (done: seq<Done>, ghost rolls: seq<nat>)
      requires Valid()
      modifies `head
      ensures Valid() && tail == old(tail)
      ensures var n := DuePrefix(old(Pending()), now);
              |rolls| == n && done == Outcomes(drop, err, Cookies(old(Pending()), n), rolls)
                  && Pending() == old(Pending())[n..]
      ensures forall i :: 0 <= i < |rolls| ==> rolls[i] < 1_000_000
    {
      hide Cookies, DuePrefix, Timely, Window, Outcomes;
      done, rolls := [], [];
      ghost var q, n := Pending(), 0;
      NoCookies(q, drop, err);
      var more := true;
      while more
        invariant Drained(q, n, drop, err, rolls, done) && n <= DuePrefix(q, now) && (!more ==> n == DuePrefix(q, now))
        invariant forall i :: 0 <= i < |rolls| ==> rolls[i] < 1_000_000
        decreases tail - head, more
      {
        ghost var roll;
        more, done, roll := PollOne(now, drop, err, q, n, rolls, done);
        if more { n, rolls := n + 1, rolls + [roll]; }
      }
      TimelySuffix(q, clock + latency, n);
    }
  }

  lemma NoCookies(q: seq<Timed>, drop: nat, err: nat)
    ensures Cookies(q, 0) == [] && q[0..] == q && Outcomes(drop, err, [], []) == []
  {
  }

  lemma CookiesNext(q: seq<Timed>, n: nat)
    requires n < |q|
    ensures Cookies(q, n + 1) == Cookies(q, n) + [q[n].cookie]
  {
  }

  lemma OutcomesNext(q: seq<Timed>, n: nat, drop: nat, err: nat, rolls: seq<nat>, roll: nat)
    requires n < |q| && |rolls| == n
    ensures Outcomes(drop, err, Cookies(q, n + 1), rolls + [roll])
         == Outcomes(drop, err, Cookies(q, n), rolls) + Outcome(drop, err, q[n].cookie, roll)
  {
    CookiesNext(q, n);
    var c, r := Cookies(q, n + 1), rolls + [roll];
    assert c[..n] == Cookies(q, n) && r[..n] == rolls;
  }

  lemma FrontIs(cells: seq<Timed>, head: nat, tail: nat, q: seq<Timed>, n: nat)
    requires |cells| > 0 && head < tail && n <= |q| && Window(cells, head, tail) == q[n..]
    ensures n < |q| && cells[head % |cells|] == q[n] && Window(cells, head + 1, tail) == q[n + 1..]
  {
    WindowPop(cells, head, tail);
    assert q[n..][1..] == q[n + 1..] && q[n..][0] == q[n];
  }

  // ---- the completion ring ----

  /** One producer (the shard), one consumer (the GPU side); cursors count from the start. */
  class CompletionRing<T> {
    const cells: array<T>
    var head: nat
    var tail: nat

    ghost predicate Valid()
      reads this
    {
      0 < cells.Length && tail <= head <= tail + cells.Length
    }

    ghost function Queue(): seq<T>
      requires Valid()
      reads this, cells
    {
      Window(cells[..], tail, head)
    }

    constructor (n: nat, x: T)
      requires n > 0
      ensures Valid() && Queue() == [] && cells.Length == n
    {
      cells := new T[n](i => x);
      head, tail := 0, 0;
    }

    /** push_cqe's test and store: false while the ring is full, and the caller tries again. */
    method TryPush(x: T) returns (ok: bool)
      requires Valid()
      modifies `head, cells
      ensures Valid() && (ok <==> old(|Queue()|) < cells.Length) && Queue() == old(Queue()) + (if ok then [x] else [])
    {
      if head - tail >= cells.Length { return false; }
      ghost var was := cells[..];
      WindowPush(was, tail, head, x);
      cells[head % cells.Length] := x;
      assert cells[..] == was[head % |was| := x];
      head := head + 1;
      ok := true;
    }

    /** l1_pop_cqe: the oldest completion, if there is one. */
    method TryPop() returns (ok: bool, x: T)
      requires Valid()
      modifies `tail
      ensures Valid() && (ok <==> old(Queue()) != []) && (ok ==> old(Queue()) == [x] + Queue())
              && (!ok ==> Queue() == old(Queue()))
    {
      x := cells[tail % cells.Length];
      if head == tail { return false, x; }
      WindowPop(cells[..], tail, head);
      tail := tail + 1;
      ok := true;
    }
  }
}

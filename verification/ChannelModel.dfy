/** The bandwidth model of a channel: a circular array of credits per 4 us interval, reset lazily
    as the clock moves, standing for an unbounded ledger of what each interval has granted. */
module ChannelModel {
  import opened Radix

  const N: nat := 98304
  const INTERVAL: nat := 4000
  const UNIT_SIZE: nat := 128
  const U32: nat := 0x1_0000_0000

  /** BANDWIDTH_TO_MAX_CREDITS and BANDWIDTH_TO_TX_TIME for MiB/s. */
  function MaxCredits(mbps: nat): nat {
    mbps * 0x10_0000 * INTERVAL / 1_000_000_000 / UNIT_SIZE
  }

  function TxTime(mbps: nat): nat
    requires mbps > 0
  {
    Quotient(UNIT_SIZE * 1_000_000_000, mbps * 0x10_0000)
  }

  function Quotient(a: nat, b: nat): nat
    requires b > 0
  {
    a / b
  }

  /** They are the whole units an interval moves at that bandwidth, and the whole nanoseconds a unit
      takes. */
  lemma ParametersAre(mbps: nat)
    requires mbps > 0
    ensures MaxCredits(mbps) * UNIT_SIZE * 1_000_000_000 <= mbps * 0x10_0000 * INTERVAL
            < (MaxCredits(mbps) + 1) * UNIT_SIZE * 1_000_000_000
    ensures TxTime(mbps) * (mbps * 0x10_0000) <= UNIT_SIZE * 1_000_000_000 < (TxTime(mbps) + 1) * (mbps * 0x10_0000)
  {
    var a, b := UNIT_SIZE * 1_000_000_000, mbps * 0x10_0000;
    var q, r := DivMod(a, b);
    assert b * q == q * b && (q + 1) * b == q * b + b;
  }

  /** Credits are kept in a byte and divided by: the bandwidths that work are 31 to 7812 MiB/s. */
  lemma CreditsFit(mbps: nat)
    ensures 1 <= MaxCredits(mbps) <= 255 <==> 31 <= mbps <= 7812
  {
  }

  // ---- the unbounded ledger ----

  /** Credits granted so far in an interval, counted from time zero. */
  function Used(u: map<nat, nat>, i: nat): nat {
    if i in u then u[i] else 0
  }

  /** What an interval still has to give to a request for rem. */
  function Share(u: map<nat, nat>, max: nat, i: nat, rem: nat): (c: nat)
    ensures c <= rem
  {
    var left := if Used(u, i) <= max then max - Used(u, i) else 0;
    if rem <= left then rem else left
  }

  function Grant(u: map<nat, nat>, i: nat, c: nat): map<nat, nat> {
    u[i := Used(u, i) + c]
  }

  /** Takes rem credits from interval i on, as much as each has left, up to the horizon end:
      the new ledger, the last interval used, and what could not be had. */
  function Spend(u: map<nat, nat>, max: nat, i: nat, end: nat, rem: nat): (r: (map<nat, nat>, nat, nat))
    requires i < end
    ensures i <= r.1 < end
    decreases end - i
  {
    var c := Share(u, max, i, rem);
    if rem > c && i + 1 < end then Spend(Grant(u, i, c), max, i + 1, end, rem - c) else (Grant(u, i, c), i, rem - c)
  }

  ghost predicate Bounded(u: map<nat, nat>, max: nat) {
    forall j: nat :: Used(u, j) <= max
  }

  /** Granting a share keeps the bound, fills the interval unless the request is met, and touches
      no other. */
  lemma GrantIs(u: map<nat, nat>, max: nat, i: nat, rem: nat)
    requires Bounded(u, max)
    ensures var c := Share(u, max, i, rem);
            && Bounded(Grant(u, i, c), max) && Used(Grant(u, i, c), i) == Used(u, i) + c
                && (rem > c ==> Used(Grant(u, i, c), i) == max)
            && forall j: nat :: j != i ==> Used(Grant(u, i, c), j) == Used(u, j)
  {
    assert Used(u, i) <= max;
    forall j: nat ensures Used(Grant(u, i, Share(u, max, i, rem)), j) <= max { assert Used(u, j) <= max; }
  }

  /** u' is u but for the intervals from i to last, all full but the last. */
  ghost predicate Filled(u: map<nat, nat>, u': map<nat, nat>, max: nat, i: nat, last: nat) {
    && (forall j: nat :: j < i || j > last ==> Used(u', j) == Used(u, j))
    && (forall j: nat :: i <= j < last ==> Used(u', j) == max)
  }

  /** No interval grants more than the maximum; the intervals before the last used are full; what
      is left over is left because the horizon is full. */
  lemma {:induction false} SpendIs(u: map<nat, nat>, max: nat, i: nat, end: nat, rem: nat)
    requires i < end && Bounded(u, max)
    ensures var r := Spend(u, max, i, end, rem);
            && Bounded(r.0, max) && i <= r.1 < end && Filled(u, r.0, max, i, r.1)
            && (r.2 > 0 ==> r.1 == end - 1 && Used(r.0, r.1) == max)
    decreases end - i
  {
    hide Bounded, Share, Grant, Used;
    var c := Share(u, max, i, rem);
    GrantIs(u, max, i, rem);
    if rem > c && i + 1 < end {
      SpendIs(Grant(u, i, c), max, i + 1, end, rem - c);
    }
  }

  /** Credits granted from interval a up to b. */
  function Total(u: map<nat, nat>, a: nat, b: nat): nat
    requires a <= b
    decreases b - a
  {
    if a == b then 0 else Used(u, a) + Total(u, a + 1, b)
  }

  lemma {:induction false} TotalFrame(u: map<nat, nat>, v: map<nat, nat>, a: nat, b: nat)
    requires a <= b && forall j: nat :: a <= j < b ==> Used(u, j) == Used(v, j)
    ensures Total(u, a, b) == Total(v, a, b)
    decreases b - a
  {
    if a < b { TotalFrame(u, v, a + 1, b); }
  }

  /** Exactly the credits asked for are granted, but for those the horizon cannot hold. */
  lemma {:induction false} SpendConserves(u: map<nat, nat>, max: nat, i: nat, end: nat, rem: nat)
    requires i < end && Bounded(u, max)
    ensures var r := Spend(u, max, i, end, rem); Total(r.0, i, end) + r.2 == Total(u, i, end) + rem
    decreases end - i
  {
    hide Bounded, Share, Grant, Used;
    var c := Share(u, max, i, rem);
    var u' := Grant(u, i, c);
    GrantIs(u, max, i, rem);
    TotalFrame(u, u', i + 1, end);
    if rem > c && i + 1 < end {
      SpendConserves(u', max, i + 1, end, rem - c);
      SpendIs(u', max, i + 1, end, rem - c);
    }
  }

  // ---- how far a request reaches ----

  /** What the intervals from a up to b have left. */
  function Left(u: map<nat, nat>, max: nat, a: nat, b: nat): nat
    requires a <= b
    decreases b - a
  {
    if a == b then 0 else (if Used(u, a) < max then max - Used(u, a) else 0) + Left(u, max, a + 1, b)
  }

  /** A request for rem credits from interval i on reaches just s intervals further: what is left before
      the last of them does not do, and with the last it does, or the horizon ends there. */
  ghost predicate Reaches(u: map<nat, nat>, max: nat, i: nat, end: nat, rem: nat, s: nat) {
    && i + s < end && (s > 0 ==> Left(u, max, i, i + s) < rem)
    && (i + s + 1 == end || rem <= Left(u, max, i, i + s + 1))
  }

  lemma {:induction false} LeftSame(u: map<nat, nat>, v: map<nat, nat>, max: nat, a: nat, b: nat)
    requires a <= b && forall j: nat :: a <= j < b ==> Used(u, j) == Used(v, j)
    ensures Left(u, max, a, b) == Left(v, max, a, b)
    decreases b - a
  {
    if a < b { LeftSame(u, v, max, a + 1, b); }
  }

  lemma {:induction false} LeftMore(u: map<nat, nat>, max: nat, a: nat, b: nat, c: nat)
    requires a <= b <= c
    ensures Left(u, max, a, b) <= Left(u, max, a, c)
    decreases b - a
  {
    if a < b { LeftMore(u, max, a + 1, b, c); }
  }

  /** What an interval gives is all it has left, unless the request needs less. */
  lemma LeftFirst(u: map<nat, nat>, max: nat, a: nat, b: nat, rem: nat)
    requires a < b && Bounded(u, max)
    ensures Used(u, a) <= max && Left(u, max, a, b) == max - Used(u, a) + Left(u, max, a + 1, b)
    ensures Share(u, max, a, rem) == if rem <= max - Used(u, a) then rem else max - Used(u, a)
    ensures b == a + 1 ==> Left(u, max, a + 1, b) == 0
  {
    assert Used(u, a) <= max;
  }

  /** The spending ends at the interval the request reaches. */
  lemma {:induction false} SpendReaches(u: map<nat, nat>, max: nat, i: nat, end: nat, rem: nat)
    requires i < end && Bounded(u, max)
    ensures Reaches(u, max, i, end, rem, Spend(u, max, i, end, rem).1 - i)
    decreases end - i
  {
    hide Left, Used, Share, Grant, Bounded;
    var c := Share(u, max, i, rem);
    LeftFirst(u, max, i, i + 1, rem);
    if rem > c && i + 1 < end {
      var u' := Grant(u, i, c);
      var s := Spend(u', max, i + 1, end, rem - c).1 - (i + 1);
      GrantIs(u, max, i, rem);
      SpendReaches(u', max, i + 1, end, rem - c);
      LeftSame(u, u', max, i + 1, i + 1 + s);
      LeftSame(u, u', max, i + 1, i + 1 + s + 1);
      LeftFirst(u, max, i, i + 1 + s, rem);
      LeftFirst(u, max, i, i + 1 + s + 1, rem);
    }
  }

  /** There is only one such interval. */
  lemma ReachesOnce(u: map<nat, nat>, max: nat, i: nat, end: nat, rem: nat, s: nat, t: nat)
    requires Reaches(u, max, i, end, rem, s) && Reaches(u, max, i, end, rem, t)
    ensures s == t
  {
    if s < t { LeftMore(u, max, i, i + s + 1, i + t); }
    if t < s { LeftMore(u, max, i, i + t + 1, i + s); }
  }

  lemma {:induction false} LeftFull(u: map<nat, nat>, max: nat, a: nat, b: nat)
    requires a <= b && forall j: nat :: a <= j < b ==> Used(u, j) == max
    ensures Left(u, max, a, b) == 0
    decreases b - a
  {
    if a < b { LeftFull(u, max, a + 1, b); }
  }

  lemma {:induction false} LeftUntouched(u: map<nat, nat>, max: nat, a: nat, b: nat)
    requires a <= b && forall j: nat :: a <= j < b ==> Used(u, j) == 0
    ensures Left(u, max, a, b) == max * (b - a)
    decreases b - a
  {
    if a < b {
      LeftUntouched(u, max, a + 1, b);
      OneLess(max, b - a);
    }
  }

  lemma {:induction false} LeftSplit(u: map<nat, nat>, max: nat, a: nat, b: nat, c: nat)
    requires a <= b <= c
    ensures Left(u, max, a, c) == Left(u, max, a, b) + Left(u, max, b, c)
    decreases b - a
  {
    if a < b { LeftSplit(u, max, a + 1, b, c); }
  }

  /** With k intervals full ahead of it and those after them untouched, a request reaches past the full
      ones and as far as it needs. */
  lemma QueuedReaches(u: map<nat, nat>, max: nat, i: nat, end: nat, units: nat, k: nat, s: nat)
    requires max > 0 && units > 0 && i + k < end && units <= max * (end - (i + k))
    requires (forall j: nat :: i <= j < i + k ==> Used(u, j) == max)
             && (forall j: nat :: i + k <= j < end ==> Used(u, j) == 0)
    ensures Reaches(u, max, i, end, units, s) <==> s == k + (units - 1) / max
  {
    hide Left, Used;
    var q, m := DivMod(units - 1, max);
    assert max * (q + 1) == max * q + max;
    assert q < end - (i + k);
    QueuedLeft(u, max, i, end, k, q);
    QueuedLeft(u, max, i, end, k, q + 1);
    assert Reaches(u, max, i, end, units, k + q);
    if Reaches(u, max, i, end, units, s) { ReachesOnce(u, max, i, end, units, s, k + q); }
  }

  lemma QueuedLeft(u: map<nat, nat>, max: nat, i: nat, end: nat, k: nat, q: nat)
    requires i + k + q <= end
    requires (forall j: nat :: i <= j < i + k ==> Used(u, j) == max)
             && (forall j: nat :: i + k <= j < end ==> Used(u, j) == 0)
    ensures Left(u, max, i, i + (k + q)) == max * q
  {
    hide Left, Used;
    LeftSplit(u, max, i, i + k, i + k + q);
    LeftFull(u, max, i, i + k);
    LeftUntouched(u, max, i + k, i + k + q);
  }

  lemma OneLess(max: nat, n: nat)
    requires n > 0
    ensures max * n == max + max * (n - 1) && (n == 1 ==> max * n == max)
  {
  }

  // ---- the circular array ----

  function Slot(head: nat, o: nat): (p: nat)
    ensures p < N
  {
    (head + o) % N
  }

  /** The first N intervals from time index t are in the array from head; from t + valid on nothing
      has been granted. */
  ghost predicate Mirrors(avail: seq<nat>, head: nat, t: nat, valid: nat, u: map<nat, nat>, max: nat) {
    && |avail| == N && head < N && valid <= N && Bounded(u, max)
    && (forall o :: 0 <= o < N ==> avail[Slot(head, o)] == max - Used(u, t + o))
    && (forall j: nat :: j >= t + valid ==> Used(u, j) == 0)
  }

  lemma SlotsApart(head: nat, a: nat, b: nat)
    requires a < N && b < N && Slot(head, a) == Slot(head, b)
    ensures a == b
  {
  }

  lemma SlotShift(head: nat, k: nat, o: nat)
    ensures Slot(Slot(head, k), o) == Slot(head, k + o)
    ensures k + o >= N ==> Slot(head, k + o) == Slot(head, k + o - N)
  {
    var q, r := DivMod(head + k, N);
    var q2, r2 := DivMod(r + o, N);
    DivUnique(head + k + o, N, q + q2, r2);
    if k + o >= N {
      var q3, r3 := DivMod(head + k + o - N, N);
      DivUnique(head + k + o, N, q3 + 1, r3);
    }
  }

  /** Moving to time index t' forgets the k slots passed: either the clock moved k intervals, or it
      moved past everything granted. */
  lemma Advanced(avail: seq<nat>, avail': seq<nat>, head: nat, t: nat, t': nat, valid: nat, k: nat, u: map<nat, nat>,
                 max: nat)
    requires Mirrors(avail, head, t, valid, u, max) && |avail'| == N && t <= t'
             && k == (if t' - t < valid then t' - t else valid)
    requires forall o :: 0 <= o < N ==> avail'[Slot(head, o)] == if o < k then max else avail[Slot(head, o)]
    ensures Mirrors(avail', Slot(head, k), t', valid - k, u, max)
  {
    var h := Slot(head, k);
    forall o | 0 <= o < N ensures avail'[Slot(h, o)] == max - Used(u, t' + o) {
      SlotShift(head, k, o);
      if k + o < N {
        assert avail'[Slot(head, k + o)] == avail[Slot(head, k + o)];
        assert avail[Slot(head, k + o)] == max - Used(u, t + (k + o));
      } else {
        assert avail'[Slot(head, k + o - N)] == max;
      }
    }
  }

  /** Granting c credits of interval t + o. */
  lemma Granted(avail: seq<nat>, head: nat, t: nat, valid: nat, u: map<nat, nat>, max: nat, o: nat, c: nat)
    requires Mirrors(avail, head, t, valid, u, max) && o < N && c <= avail[Slot(head, o)]
    ensures Mirrors(avail[Slot(head, o) := avail[Slot(head, o)] - c], head, t, if valid > o then valid else o + 1,
                    Grant(u, t + o, c), max)
  {
    var p, u' := Slot(head, o), Grant(u, t + o, c);
    var avail' := avail[p := avail[p] - c];
    assert avail[p] == max - Used(u, t + o);
    forall j: nat ensures Used(u', j) <= max { assert Used(u, j) <= max; }
    forall x | 0 <= x < N ensures avail'[Slot(head, x)] == max - Used(u', t + x) {
      assert avail[Slot(head, x)] == max - Used(u, t + x);
      if Slot(head, x) == p { SlotsApart(head, x, o); }
    }
    forall j: nat | j >= t + valid && j >= t + o + 1 ensures Used(u', j) == 0 { assert Used(u, j) == 0; }
  }

  lemma ShareIs(avail: seq<nat>, head: nat, t: nat, valid: nat, u: map<nat, nat>, max: nat, o: nat, rem: nat)
    requires Mirrors(avail, head, t, valid, u, max) && o < N
    ensures Share(u, max, t + o, rem) == if rem <= avail[Slot(head, o)] then rem else avail[Slot(head, o)]
  {
    assert avail[Slot(head, o)] == max - Used(u, t + o);
  }

  // ---- the finish time ----

  /** DIV_ROUND_UP into 32 bits. */
  function Units(length: nat): nat {
    (length + UNIT_SIZE - 1) / UNIT_SIZE % U32
  }

  /** The 32-bit count is the least number of units that cover the length, exactly while there are that
      many in 32 bits. */
  lemma UnitsExactly(length: nat)
    ensures length <= Units(length) * UNIT_SIZE < length + UNIT_SIZE <==> length <= (U32 - 1) * UNIT_SIZE
  {
    var n := (length + UNIT_SIZE - 1) / UNIT_SIZE;
    assert length <= n * UNIT_SIZE < length + UNIT_SIZE;
  }

  /** A request with k intervals full ahead of it is late by k intervals, or by one less if it fills the
      last it needs. */
  lemma QueuedDelay(u: map<nat, nat>, max: nat, i: nat, end: nat, units: nat, k: nat, s: nat)
    requires max > 0 && units > 0 && i + k < end && units <= max * (end - (i + k)) && Reaches(u, max, i, end, units, s)
    requires (forall j: nat :: i <= j < i + k ==> Used(u, j) == max)
             && (forall j: nat :: i + k <= j < end ==> Used(u, j) == 0)
    ensures (if s > units / max then s - units / max else 0) == if k > 0 && units % max == 0 then k - 1 else k
  {
    QueuedReaches(u, max, i, end, units, k, s);
    CeilIs(units, max);
  }

  /** On untouched intervals within the horizon a request is not late: it finishes after exactly its
      transfer time, if and only if that fits 32 bits. */
  lemma UntouchedFinish(u: map<nat, nat>, max: nat, i: nat, end: nat, request: nat, lat: nat, units: nat, s: nat)
    requires i < end && max > 0 && (forall j: nat :: i <= j < end ==> Used(u, j) == 0) && units <= max * (end - i)
    requires Reaches(u, max, i, end, units, s)
    ensures var finish := request + lat * units % U32 + (if s > units / max then (s - units / max) * INTERVAL else 0);
            finish == request + lat * units <==> lat * units < U32
  {
    if units > 0 { QueuedDelay(u, max, i, end, units, 0, s); }
    WrapSmall(lat * units);
  }

  lemma WrapSmall(x: nat)
    ensures x % U32 == x <==> x < U32
  {
  }

  lemma CeilIs(units: nat, max: nat)
    requires units > 0 && max > 0
    ensures (units - 1) / max == if units % max == 0 then units / max - 1 else units / max
  {
    var q, m := DivMod(units - 1, max);
    assert max * (q + 1) == max * q + max;
    if m + 1 < max { DivUnique(units, max, q, m + 1); } else { DivUnique(units, max, q + 1, 0); }
  }

  // ---- the model in memory ----

  class Channel {
    const avail: array<nat>
    const maxCredits: nat
    const xferLat: nat
    var head: nat
    var validLen: nat
    var curTime: nat
    /** The unbounded ledger. */
    ghost var used: map<nat, nat>

    ghost predicate Valid()
      reads this, avail
    {
      && avail.Length == N && 1 <= maxCredits <= 255
      && Mirrors(avail[..], head, curTime / INTERVAL, validLen, used, maxCredits)
    }

    /** chmodel_init, for any bandwidth whose credits fit the arithmetic: the array is a mirror of an
        untouched ledger exactly when the credits fit a byte and are not zero. */
    constructor (mbps: nat)
      requires 0 < mbps < U32
      ensures Valid() <==> 31 <= mbps <= 7812
      ensures used == map[] && maxCredits == MaxCredits(mbps) && xferLat == TxTime(mbps)
              && head == validLen == curTime == 0
      ensures avail.Length == N && forall p :: 0 <= p < N ==> avail[p] == MaxCredits(mbps) % 256
    {
      CreditsFit(mbps);
      hide MaxCredits, TxTime;
      var m := MaxCredits(mbps);
      avail := new nat[N](i => m % 256);
      maxCredits, xferLat := m, TxTime(mbps);
      head, validLen, curTime, used := 0, 0, 0, map[];
    }

    /** The memsets of the slots passed. */
    method Reset(k: nat)
      requires avail.Length == N && head < N && k <= N
      modifies avail
      ensures forall o :: 0 <= o < N ==> avail[Slot(head, o)] == if o < k then maxCredits else old(avail[Slot(head, o)])
    {
      if head + k >= N {
        Memset(head, N - head);
        Memset(0, k - (N - head));
      } else {
        Memset(head, k);
      }
    }

    method Memset(at: nat, n: nat)
      requires at + n <= avail.Length
      modifies avail
      ensures forall p :: 0 <= p < avail.Length ==> avail[p] == if at <= p < at + n then maxCredits else old(avail[p])
    {
      for i := 0 to n
        invariant forall p :: 0 <= p < avail.Length ==>
                    avail[p] == if at <= p < at + i then maxCredits else old(avail[p])
      {
        avail[at + i] := maxCredits;
      }
    }

    /** The head follows the clock by the 32-bit gap, at most over what was granted, and the intervals
        passed are reset. Where that gap is as good as the real one the ledger is still mirrored. */
    method MoveTo(now: nat)
      requires Valid() && curTime <= now
      modifies this, avail
      ensures curTime == now && used == old(used) && avail.Length == N && old(head) < N
      ensures var gap := (now / INTERVAL - old(curTime) / INTERVAL) % U32;
              var k := if gap < old(validLen) then gap else old(validLen);
              && head == (old(head) + k) % N && validLen == old(validLen) - k
              && forall o :: 0 <= o < N ==>
                   avail[Slot(old(head), o)] == if o < k then maxCredits else old(avail[Slot(head, o)])
      ensures old(GapOk(now / INTERVAL - curTime / INTERVAL, validLen)) ==> Valid()
    {
      hide Mirrors, Slot;
      ghost var was := avail[..];
      ghost var t := curTime / INTERVAL;
      DivMono(curTime, now, INTERVAL);
      var gap := (now / INTERVAL - curTime / INTERVAL) % U32;
      var k := if gap < validLen then gap else validLen;
      ghost var kept := GapOk(now / INTERVAL - t, validLen);
      MirrorShape(was, head, t, validLen, used, maxCredits);
      Reset(k);
      assert forall o :: 0 <= o < N ==> avail[..][Slot(head, o)] == if o < k then maxCredits else was[Slot(head, o)];
      if kept { Advanced(was, avail[..], head, t, now / INTERVAL, validLen, k, used, maxCredits); }
      SlotIs(head, k);
      head, curTime, validLen := (head + k) % N, now, validLen - k;
    }

    /** Takes the credits of a request from the interval at offset o on; steps is the number of
        intervals beyond the first. */
    method Consume(o: nat, units: nat) returns (steps: nat)
      requires Valid() && o < N
      modifies avail, `validLen, `used
      ensures Valid() && var t := curTime / INTERVAL;
              var r := Spend(old(used), maxCredits, t + o, t + N, units); used == r.0 && steps == r.1 - (t + o)
    {
      hide Mirrors, Slot, Spend, Share, Grant;
      ghost var t, u := curTime / INTERVAL, used;
      var pos, rem := Slot(head, o), units;
      steps := 0;
      MirrorShape(avail[..], head, t, validLen, used, maxCredits);
      ghost var v: nat := validLen;
      while true
        invariant o + steps < N && pos == Slot(head, o + steps) && avail.Length == N
        invariant Mirrors(avail[..], head, t, v, used, maxCredits) && validLen == old(validLen) <= v
                  && (v == validLen || v == o + steps)
        invariant Spend(u, maxCredits, t + o, t + N, units) == Spend(used, maxCredits, t + o + steps, t + N, rem)
        decreases N - (o + steps)
      {
        var c := if rem <= avail[pos] then rem else avail[pos];
        ShareIs(avail[..], head, t, v, used, maxCredits, o + steps, rem);
        Granted(avail[..], head, t, v, used, maxCredits, o + steps, c);
        SpendStep(used, maxCredits, t + o + steps, t + N, rem);
        ghost var was := avail[..];
        avail[pos] := avail[pos] - c;
        assert avail[..] == was[pos := was[pos] - c];
        used := Grant(used, t + o + steps, c);
        v := if v > o + steps then v else o + steps + 1;
        rem := rem - c;
        var next := (pos + 1) % N;
        NextSlot(head, o + steps);
        if rem == 0 || next == head { break; }
        steps, pos := steps + 1, next;
      }
      OffsetOf(head, pos, o + steps);
      var length := if pos >= head then pos - head + 1 else N - (head - pos - 1);
      if length > validLen { validLen := length; }
    }

    /** chmodel_request at wall-clock time now. In the past, or beyond the horizon, nothing is
        charged; otherwise the credits come from the interval found on, which is the request's own
        exactly while it is less than 2^32 intervals ahead. The finish is the transfer time later, and
        an interval later for each one the request reaches further than its size alone accounts for. */
    method Request(now: nat, request: nat, length: nat) returns (finish: nat)
      requires Valid() && curTime <= now && GapOk(now / INTERVAL - curTime / INTERVAL, validLen)
      modifies this, avail
      ensures Valid() && curTime == now
      ensures request < now || Ahead(now, request) >= N ==> finish == request && used == old(used)
      ensures now <= request && Ahead(now, request) < N ==>
                var i, end, units := now / INTERVAL + Ahead(now, request), now / INTERVAL + N, Units(length);
                && used == Spend(old(used), maxCredits, i, end, units).0
                && exists s: nat :: Reaches(old(used), maxCredits, i, end, units, s)
                     && finish == request + xferLat * units % U32
                                  + (if s > units / maxCredits then (s - units / maxCredits) * INTERVAL else 0)
    {
      hide Mirrors, Slot, Spend, Units, Reaches;
      MoveTo(now);
      if request < now { return request; }
      DivMono(now, request, INTERVAL);
      var o := Ahead(now, request);
      if o >= N { return request; }
      var units := Units(length);
      ghost var u := used;
      MirrorShape(avail[..], head, now / INTERVAL, validLen, u, maxCredits);
      SpendReaches(u, maxCredits, now / INTERVAL + o, now / INTERVAL + N, units);
      var steps := Consume(o, units);
      var delay := if steps > units / maxCredits then steps - units / maxCredits else 0;
      finish := request + xferLat * units % U32 + delay * INTERVAL;
    }
  }

  /** How many intervals ahead a request is, in 32 bits. */
  function Ahead(now: nat, request: nat): nat {
    (request / INTERVAL - now / INTERVAL) % U32
  }

  /** The interval a request is charged to is its own exactly when it is less than 2^32 ahead. */
  lemma AheadExactly(now: nat, request: nat)
    requires now <= request
    ensures now / INTERVAL + Ahead(now, request) == request / INTERVAL <==> request / INTERVAL - now / INTERVAL < U32
  {
    DivMono(now, request, INTERVAL);
  }

  /** min(gap, valid) survives the truncation of the gap to 32 bits. */
  predicate GapOk(gap: nat, valid: nat) {
    gap < U32 || gap % U32 >= valid
  }

  /** The truncated gap moves the head as far as the real one exactly then. */
  lemma GapExactly(gap: nat, valid: nat)
    requires valid <= N
    ensures GapOk(gap, valid) <==>
            (if gap % U32 < valid then gap % U32 else valid) == (if gap < valid then gap else valid)
  {
  }

  lemma SlotIs(head: nat, k: nat)
    ensures Slot(head, k) == (head + k) % N
  {
  }

  lemma NextSlot(head: nat, o: nat)
    requires head < N && o < N
    ensures (Slot(head, o) + 1) % N == Slot(head, o + 1)
    ensures Slot(head, o + 1) == head <==> o + 1 == N
  {
  }

  lemma OffsetOf(head: nat, pos: nat, o: nat)
    requires head < N && o < N && pos == Slot(head, o)
    ensures o + 1 == if pos >= head then pos - head + 1 else N - (head - pos - 1)
  {
  }

  lemma MirrorShape(avail: seq<nat>, head: nat, t: nat, valid: nat, u: map<nat, nat>, max: nat)
    requires Mirrors(avail, head, t, valid, u, max)
    ensures |avail| == N && head < N && valid <= N && Bounded(u, max)
  {
  }

  lemma SpendStep(u: map<nat, nat>, max: nat, i: nat, end: nat, rem: nat)
    requires i < end
    ensures var c := Share(u, max, i, rem);
            Spend(u, max, i, end, rem) ==
            if rem > c && i + 1 < end then Spend(Grant(u, i, c), max, i + 1, end, rem - c)
                else (Grant(u, i, c), i, rem - c)
  {
  }
}

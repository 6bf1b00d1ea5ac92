/** The bucket mode of a shard as a value: requests are binned by page, and a lap may empty one
    bucket, as a burst, into the window. */
module CoBuckets {
  import Arith = Radix
  import opened CoPools
  import opened CoState
  import opened CoFanout

  /** The entry a request becomes: the page its row lies in. */
  function Entry(z: Store, r: Req): Ent
    requires StoreOk(z)
  {
    Ent(TagOf(z, r.node), r.reqId, r.dst, r.node)
  }

  function Pow2(n: nat): (r: nat)
    ensures r > 0
  {
    if n == 0 then 1 else 2 * Pow2(n - 1)
  }

  /** The bucket of a page: its 32-bit index shifted and masked. */
  function BucketOf(c: Config, tag: nat): (b: nat)
    requires ConfigOk(c)
    ensures b < c.buckets
  {
    tag / c.z.page % 0x1_0000_0000 / Pow2(c.bucketShift) % c.buckets
  }

  /** Pages take the buckets in turn, so many to a bucket as the shift says. */
  lemma BucketsInTurn(c: Config, page: nat)
    requires ConfigOk(c) && page + Pow2(c.bucketShift) < 0x1_0000_0000
    ensures Pow2(0) == 1 && Pow2(c.bucketShift + 1) == 2 * Pow2(c.bucketShift) && BucketOf(c, 0) == 0
    ensures var n, b := Pow2(c.bucketShift), BucketOf(c, page * c.z.page);
            && BucketOf(c, (page + n) * c.z.page) == (if b + 1 == c.buckets then 0 else b + 1)
            && ((page + 1) % n != 0 ==> BucketOf(c, (page + 1) * c.z.page) == b)
  {
    var n := Pow2(c.bucketShift);
    BucketAt(c, 0);
    BucketAt(c, page);
    BucketAt(c, page + n);
    BucketAt(c, page + 1);
    hide BucketOf, Pow2;
    NextTurn(page, n, c.buckets);
  }

  lemma BucketAt(c: Config, page: nat)
    requires ConfigOk(c) && page < 0x1_0000_0000
    ensures BucketOf(c, page * c.z.page) == page / Pow2(c.bucketShift) % c.buckets
    ensures Pow2(0) == 1 && Pow2(c.bucketShift + 1) == 2 * Pow2(c.bucketShift)
            && 0 / Pow2(c.bucketShift) % c.buckets == 0
  {
    PageBack(page, c.z.page);
    Arith.DivUnique(0, Pow2(c.bucketShift), 0, 0);
  }

  lemma NextTurn(page: nat, n: nat, k: nat)
    requires n > 0 && k > 0
    ensures (page + n) / n % k == if page / n % k + 1 == k then 0 else page / n % k + 1
    ensures (page + 1) % n != 0 ==> (page + 1) / n == page / n
  {
    var q, r := Arith.DivMod(page, n);
    var t, b := Arith.DivMod(q, k);
    Arith.DivUnique(page + n, n, q + 1, r);
    if b + 1 < k { Arith.DivUnique(q + 1, k, t, b + 1); } else { Arith.DivUnique(q + 1, k, t + 1, 0); }
    if r + 1 < n { Arith.DivUnique(page + 1, n, q, r + 1); } else { Arith.DivUnique(page + 1, n, q + 1, 0); }
  }

  lemma PageBack(page: nat, z: nat)
    requires z > 0
    ensures page * z / z == page
  {
    Arith.DivUnique(page * z, z, page, 0);
  }

  /** The entries in each bucket, when the oldest came in, the requests still in the ring, and the
      bucket last emptied into the window. */
  datatype Buckets = Buckets(bins: seq<seq<Ent>>, oldest: nat, rest: seq<Req>, burst: seq<Ent>)

  predicate NoneBinned(bins: seq<seq<Ent>>) {
    forall b :: 0 <= b < |bins| ==> bins[b] == []
  }

  /** The next request is binned; a full bucket becomes the burst first. */
  function BinOne(c: Config, s: Buckets, now: nat): (r: Buckets)
    requires ConfigOk(c) && |s.bins| == c.buckets && s.rest != []
    ensures |r.bins| == c.buckets && r.rest == s.rest[1..]
  {
    var e := Entry(c.z, s.rest[0]);
    var b := BucketOf(c, e.tag);
    var full := |s.bins[b]| >= c.bucketCap;
    Buckets(s.bins[b := (if full then [] else s.bins[b]) + [e]], if NoneBinned(s.bins) then now else s.oldest,
            s.rest[1..], if full then s.bins[b] else [])
  }

  /** The request goes behind those in the bucket of its page; nothing is lost or reordered, no other
      bucket changes, and a burst is made exactly of a bucket that was full. */
  lemma BinOneIs(c: Config, s: Buckets, now: nat)
    requires ConfigOk(c) && |s.bins| == c.buckets && s.rest != []
    ensures var t, q := BinOne(c, s, now), s.rest[0];
            var b := BucketOf(c, q.node * c.z.row - q.node * c.z.row % c.z.page);
            && t.burst + t.bins[b] == s.bins[b] + [Ent(TagOf(c.z, q.node), q.reqId, q.dst, q.node)]
            && (t.burst != [] <==> |s.bins[b]| >= c.bucketCap) && 1 <= |t.bins[b]|
                && (t.burst != [] ==> |t.bins[b]| == 1)
            && (forall k :: 0 <= k < c.buckets && k != b ==> t.bins[k] == s.bins[k])
            && t.oldest == if forall k :: 0 <= k < c.buckets ==> s.bins[k] == [] then now else s.oldest
  {
    hide BucketOf;
  }

  /** Requests are binned up to the budget, or the first burst. */
  function BinAll(c: Config, s: Buckets, budget: nat, now: nat): (r: Buckets)
    requires ConfigOk(c) && |s.bins| == c.buckets
    ensures |r.bins| == c.buckets
    decreases budget
  {
    if budget == 0 || s.rest == [] || s.burst != [] then s else BinAll(c, BinOne(c, s, now), budget - 1, now)
  }

  /** The first of the fullest buckets. */
  function FullestOf(bins: seq<seq<Ent>>): (b: nat)
    requires bins != []
    ensures b < |bins| && forall k :: 0 <= k < |bins| ==> |bins[k]| <= |bins[b]| && (k < b ==> |bins[k]| < |bins[b]|)
  {
    var n := |bins| - 1;
    if n == 0 then 0
    else
      var f := FullestOf(bins[..n]);
      assert forall k :: 0 <= k < n ==> bins[k] == bins[..n][k];
      if |bins[n]| > |bins[f]| then n else f
  }

  /** Nothing else is the first of the fullest. */
  lemma FirstFullest(bins: seq<seq<Ent>>, b: nat)
    requires b < |bins| && forall k :: 0 <= k < |bins| ==> |bins[k]| <= |bins[b]| && (k < b ==> |bins[k]| < |bins[b]|)
    ensures b == FullestOf(bins)
  {
    var f := FullestOf(bins);
    assert |bins[f]| == |bins[b]|;
  }

  /** Without a burst yet, the fullest bucket becomes one when the requests binned have aged, or the
      ring is empty and the bucket worth it. */
  function QuietEvict(c: Config, s: Buckets, now: nat): (r: Buckets)
    requires ConfigOk(c) && |s.bins| == c.buckets
    ensures |r.bins| == c.buckets && r.rest == s.rest && r.oldest == s.oldest
  {
    if s.burst != [] || NoneBinned(s.bins) then s
    else
      var b := FullestOf(s.bins);
      if now - s.oldest >= c.flushNs || (s.rest == [] && |s.bins[b]| >= c.flushMin)
      then s.(bins := s.bins[b := []], burst := s.bins[b]) else s
  }

  /** A burst is made exactly when the requests binned have aged, or the ring is empty and a bucket is
      worth it; it is one of the fullest buckets, and the others stay. */
  lemma QuietEvictIs(c: Config, s: Buckets, now: nat)
    requires ConfigOk(c) && |s.bins| == c.buckets && s.burst == []
    ensures var t := QuietEvict(c, s, now);
            && (t.burst != [] <==> exists b :: 0 <= b < c.buckets && s.bins[b] != []
                                     && (now - s.oldest >= c.flushNs || (s.rest == [] && |s.bins[b]| >= c.flushMin)))
            && (t.burst == [] ==> t == s)
            && (t.burst != [] ==>
                  exists b :: 0 <= b < c.buckets && t == s.(bins := s.bins[b := []], burst := s.bins[b])
                    && forall k :: 0 <= k < c.buckets ==> |s.bins[k]| <= |s.bins[b]|)
  {
    if !NoneBinned(s.bins) {
      var b := FullestOf(s.bins);
      assert |s.bins[b]| > 0;
    }
  }

  /** What a lap does that finds no window in hand. */
  function BinLap(c: Config, s: Buckets, now: nat): (r: Buckets)
    requires ConfigOk(c) && |s.bins| == c.buckets
    ensures |r.bins| == c.buckets
  {
    QuietEvict(c, BinAll(c, s.(burst := []), c.window, now), now)
  }

  /** Once there is a burst, no more is binned. */
  lemma BurstStays(c: Config, s: Buckets, budget: nat, now: nat)
    requires ConfigOk(c) && |s.bins| == c.buckets
    ensures s.burst == [] || BinAll(c, s, budget, now) == s
  {
  }

  lemma BurstKept(c: Config, s: Buckets, now: nat)
    requires ConfigOk(c) && |s.bins| == c.buckets
    ensures s.burst == [] || QuietEvict(c, s, now) == s
    ensures NoneBinned(s.bins) ==> QuietEvict(c, s, now) == s
  {
  }

  // ---- histories ----

  /** A lap with no window in hand: its time, and what reached the ring since the one before. What
      arrives while the lap pops is counted as there when it began, for it is popped in the same
      order. */
  datatype Tick = Tick(now: nat, arrivals: seq<Req>)

  function AfterLaps(c: Config, h: seq<Tick>): (r: Buckets)
    requires ConfigOk(c)
    ensures |r.bins| == c.buckets
  {
    if h == [] then Buckets(seq(c.buckets, i => []), 0, [], [])
    else
      var s, t := AfterLaps(c, h[..|h| - 1]), h[|h| - 1];
      BinLap(c, s.(rest := s.rest + t.arrivals), t.now)
  }

  /** The clock does not run back, and what a lap leaves in the ring fits it. */
  predicate Possible(c: Config, h: seq<Tick>)
    requires ConfigOk(c)
  {
    h != [] ==>
      && Possible(c, h[..|h| - 1]) && |AfterLaps(c, h).rest| <= c.entries
      && (|h| > 1 ==> h[|h| - 2].now <= h[|h| - 1].now)
  }

  /** No lap of any history empties a bucket that does not fit the window, which has the size of the
      ring. */
  ghost predicate BurstsFit(c: Config)
    requires ConfigOk(c)
  {
    forall h :: Possible(c, h) ==> |AfterLaps(c, h).burst| <= c.entries
  }

  // ---- a bucket within the window's size always fits ----

  /** No bucket is past its capacity. */
  predicate Within(c: Config, s: Buckets) {
    |s.burst| <= c.bucketCap && forall b :: 0 <= b < |s.bins| ==> |s.bins[b]| <= c.bucketCap
  }

  lemma {:induction false} AllWithin(c: Config, s: Buckets, budget: nat, now: nat)
    requires ConfigOk(c) && |s.bins| == c.buckets && Within(c, s)
    ensures Within(c, BinAll(c, s, budget, now))
    decreases budget
  {
    hide BucketOf, Entry;
    if budget > 0 && s.rest != [] && s.burst == [] { AllWithin(c, BinOne(c, s, now), budget - 1, now); }
  }

  lemma LapWithin(c: Config, s: Buckets, now: nat)
    requires ConfigOk(c) && |s.bins| == c.buckets && Within(c, s)
    ensures Within(c, BinLap(c, s, now))
  {
    AllWithin(c, s.(burst := []), c.window, now);
  }

  lemma {:induction false} LapsWithin(c: Config, h: seq<Tick>)
    requires ConfigOk(c)
    ensures Within(c, AfterLaps(c, h))
  {
    if h != [] {
      var s, t := AfterLaps(c, h[..|h| - 1]), h[|h| - 1];
      LapsWithin(c, h[..|h| - 1]);
      LapWithin(c, s.(rest := s.rest + t.arrivals), t.now);
    }
  }

  /** A bucket capacity within the ring keeps every burst within the window. */
  lemma CapacityFits(c: Config)
    requires ConfigOk(c) && c.bucketCap <= c.entries
    ensures BurstsFit(c)
  {
    forall h | Possible(c, h) ensures |AfterLaps(c, h).burst| <= c.entries { LapsWithin(c, h); }
  }

  // ---- and otherwise it need not ----

  const ROW: Req := Req(0, 0, 0)

  /** The bucket all requests for the first row go to. */
  function RowBucket(c: Config): (b: nat)
    requires ConfigOk(c)
    ensures b < c.buckets
  {
    BucketOf(c, Entry(c.z, ROW).tag)
  }

  /** Laps at one time, the ring never running empty, all requests being for one row. */
  function Flood(c: Config, n: nat): (h: seq<Tick>)
    ensures |h| == n
  {
    seq(n, i => Tick(0, seq(if i == 0 then c.window + 1 else c.window, j => ROW)))
  }

  predicate OneRow(rest: seq<Req>) {
    forall i :: 0 <= i < |rest| ==> rest[i] == ROW
  }

  /** The row's bucket has taken `filled` requests, and at most one waits. */
  predicate Flooded(c: Config, s: Buckets, filled: nat)
    requires ConfigOk(c)
  {
    && |s.bins| == c.buckets && |s.bins[RowBucket(c)]| == filled <= c.bucketCap
    && s.oldest == 0 && OneRow(s.rest)
  }

  /** Binning k requests for the row fills the bucket by k, or a full bucket becomes the burst. */
  lemma {:induction false} BinRow(c: Config, s: Buckets, k: nat)
    requires ConfigOk(c) && |s.bins| == c.buckets && s.burst == [] && s.oldest == 0 && OneRow(s.rest) && k < |s.rest|
    requires |s.bins[RowBucket(c)]| <= c.bucketCap
    ensures var t, b := BinAll(c, s, k, 0), RowBucket(c);
            if |s.bins[b]| + k <= c.bucketCap
            then |t.bins[b]| == |s.bins[b]| + k && t.burst == [] && t.oldest == 0 && t.rest == s.rest[k..]
            else |t.burst| == c.bucketCap && |t.rest| < |s.rest|
    decreases k
  {
    hide BucketOf, Entry;
    if k > 0 {
      var t := BinOne(c, s, 0);
      if |s.bins[RowBucket(c)]| < c.bucketCap { BinRow(c, t, k - 1); }
    }
  }

  /** One lap of the flood: none of it is evicted by age or for an empty ring. */
  lemma FloodLap(c: Config, s: Buckets, filled: nat)
    requires ConfigOk(c) && c.flushNs > 0 && Flooded(c, s, filled) && |s.rest| == c.window + 1
    ensures var t := BinLap(c, s, 0);
            if filled + c.window <= c.bucketCap then Flooded(c, t, filled + c.window) && |t.rest| == 1
            else |t.burst| == c.bucketCap && |t.rest| <= c.window
  {
    hide BucketOf, Entry, RowBucket, BinAll;
    var u := s.(burst := []);
    BinRow(c, u, c.window);
  }

  /** One more lap of the flood. */
  lemma FloodStep(c: Config, n: nat, filled: nat)
    requires ConfigOk(c) && c.flushNs > 0 && c.window > 0 && Possible(c, Flood(c, n))
    requires var s := AfterLaps(c, Flood(c, n)); Flooded(c, s, filled) && |s.rest| == if n == 0 then 0 else 1
    ensures Possible(c, Flood(c, n + 1))
    ensures var t := AfterLaps(c, Flood(c, n + 1));
            if filled + c.window <= c.bucketCap then Flooded(c, t, filled + c.window) && |t.rest| == 1
            else |t.burst| == c.bucketCap
  {
    hide BucketOf, Entry, RowBucket, BinLap;
    var h := Flood(c, n + 1);
    assert h[..n] == Flood(c, n);
    var s := AfterLaps(c, Flood(c, n));
    FloodLap(c, s.(rest := s.rest + h[n].arrivals), filled);
  }

  /** As long as the bucket is not full the flood fills it. */
  lemma {:induction false} Floods(c: Config, n: nat)
    requires ConfigOk(c) && c.flushNs > 0 && c.window > 0 && n * c.window <= c.bucketCap
    ensures Possible(c, Flood(c, n)) && Flooded(c, AfterLaps(c, Flood(c, n)), n * c.window)
    ensures |AfterLaps(c, Flood(c, n)).rest| == if n == 0 then 0 else 1
  {
    hide BucketOf, Entry, RowBucket, BinLap;
    if n > 0 {
      assert n * c.window == (n - 1) * c.window + c.window;
      Floods(c, n - 1);
      FloodStep(c, n - 1, (n - 1) * c.window);
    }
  }

  /** With an age limit at all and a window that is open, every burst of every history fits the
      window exactly when the bucket capacity does not exceed the ring. */
  lemma BurstsFitExactly(c: Config)
    requires ConfigOk(c) && c.flushNs > 0 && c.window > 0
    ensures BurstsFit(c) <==> c.bucketCap <= c.entries
  {
    if c.bucketCap <= c.entries {
      CapacityFits(c);
    } else {
      hide AfterLaps, Possible, Flood, Flooded;
      var n, r := Arith.DivMod(c.bucketCap, c.window);
      Floods(c, n);
      FloodStep(c, n, n * c.window);
      assert |AfterLaps(c, Flood(c, n + 1)).burst| == c.bucketCap;
    }
  }

  /** With the default flush time, window and bucket bits, a ring of 1024 and the largest bucket
      capacity the code accepts, five laps do it: the burst is four times the window. */
  lemma BurstOverruns(mem: nat -> int)
    ensures var c := Config(Store(4096, 512, mem), false, false, false, Bucketed, 1024, 1, 200_000, 0, 1024, 256, 4096,
                            0, x => true);
            ConfigOk(c) && Possible(c, Flood(c, 5)) && |AfterLaps(c, Flood(c, 5)).burst| == 4096 > c.entries
  {
    var c := Config(Store(4096, 512, mem), false, false, false, Bucketed, 1024, 1, 200_000, 0, 1024, 256, 4096, 0,
                    x => true);
    hide AfterLaps, Possible, Flood, Flooded, BucketOf, Entry, RowBucket;
    Floods(c, 4);
    FloodStep(c, 4, 4 * c.window);
  }

  // ---- without an age limit ----

  /** With no age limit the condition is sufficient and not necessary: with a window of one, whatever
      the capacity, no burst is longer than one request. */
  lemma {:induction false} AgedAtOnce(c: Config, h: seq<Tick>)
    requires ConfigOk(c) && c.flushNs == 0 && c.window == 1 && Possible(c, h)
    ensures var s := AfterLaps(c, h); |s.burst| <= 1 && NoneBinned(s.bins)
  {
    hide BucketOf, Entry;
    if h != [] {
      var s, t := AfterLaps(c, h[..|h| - 1]), h[|h| - 1];
      AgedAtOnce(c, h[..|h| - 1]);
      var u := s.(rest := s.rest + t.arrivals, burst := []);
      if u.rest != [] {
        var v := BinOne(c, u, t.now);
        assert BinAll(c, u, 1, t.now) == BinAll(c, v, 0, t.now) == v;
      }
    }
  }
}

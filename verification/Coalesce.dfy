/** One coalescing shard: requests are popped from its ring into a window or into buckets, the
    window is sealed and issued page by page, and the environment completes, delays, repeats or
    drops reads while the GPU consumes. */
module Coalesce {
  import opened Collections
  import Arith = Radix
  import opened CoPools
  import opened CoState
  import opened CoSteps
  import opened CoSort
  import opened CoCount
  import opened CoBuckets
  import opened CoFanout
  import opened Wrappers

  /** Every bucket can be copied into the window, which has the size of the ring. */
  predicate BucketsFit(c: Config) {
    c.sort == Bucketed ==> c.bucketCap <= c.entries
  }

  predicate InBucket(c: Config, s: seq<Ent>, b: nat) {
    ConfigOk(c) && forall e :: e in s ==> BucketOf(c, e.tag) == b
  }

  ghost function Contents(bkt: seq<seq<Ent>>): (r: seq<multiset<Ent>>)
    ensures |r| == |bkt| && forall b :: 0 <= b < |bkt| ==> r[b] == multiset(bkt[b])
  {
    if bkt == [] then [] else Contents(bkt[..|bkt| - 1]) + [multiset(bkt[|bkt| - 1])]
  }

  class Shard {
    const cfg: Config
    const pools: Pools
    const win: array<Ent>
    const scr: array<Ent>
    const htab: array<nat>
    const rcnt: array<nat>
    /** The bucket store, one run of entries per bucket. */
    const bkt: array<seq<Ent>>
    /** Requests in the shard's ring, not yet popped. */
    var rq: seq<Req>
    var winN: nat
    var winSorted: bool
    var issuePos: nat
    var flushUniq: nat
    var oldestNs: nat
    var bktTotal: nat
    var reqsIn: nat
    var uniquePages: nat
    var pageMerges: nat
    /** Every request ever popped, and how many runs have been accepted or refused. */
    ghost var popped: seq<Ent>
    ghost var runs: nat

    /** The window, the buckets and the counters as a value. */
    ghost function WinV(): Win
      reads `winN, `issuePos, `winSorted, `flushUniq, `bktTotal, `reqsIn, `uniquePages, `pageMerges, `runs, `popped,
            win, bkt
    {
      Win(win[..], winN, issuePos, winSorted, flushUniq, bkt[..], bktTotal, reqsIn, uniquePages, pageMerges, runs,
          popped)
    }

    ghost predicate Apart()
    {
      && cfg == pools.cfg && ConfigOk(cfg) && win != scr && rcnt.Length == 256 && htab != rcnt
          && cfg.entries < htab.Length
      && win.Length == scr.Length == cfg.entries && 2 * cfg.entries == pools.warena.Length && bkt.Length == cfg.buckets
      && Buffers() !! pools.Footprint() && bkt !in Buffers() && bkt !in pools.Footprint()
    }

    /** This shard and the window's arrays. */
    ghost function Buffers(): set<object> {
      {this, win, scr, htab, rcnt}
    }

    /** Holds between any two steps of the consumer and its environment. */
    ghost predicate Inv()
      reads this, pools.Footprint(), win, bkt
    {
      Apart() && pools.Kept() && ShardOk(cfg, WinV(), pools.Served())
    }

    /** The issue half delivers at most `most` requests, takes nothing back, and leaves the pages held
        for the GPU as they are. */
    twostate predicate Issuing(most: int)
      reads pools`out, pools`tail, pools`outJobs, pools`gpuHeld, pools`doneList, pools`mark, pools`lastScanNs
    {
      && pools.Onward() && |pools.out| <= |old(pools.out)| + most && pools.doneList == old(pools.doneList)
      && pools.gpuHeld == old(pools.gpuHeld) && pools.mark == old(pools.mark)
      && pools.lastScanNs == old(pools.lastScanNs)
    }

    /** Requests in the ring, the window or the buckets, not yet issued. */
    ghost function Load(): int
      reads `rq, `winN, `issuePos, `bktTotal
    {
      |rq| + winN - issuePos + bktTotal
    }

    /** What a lap does with what waits: nothing is added, and every read sent off was waiting. */
    twostate predicate Draining()
      reads `rq, `winN, `issuePos, `bktTotal, pools`place
    {
      && Load() <= old(Load()) && |rq| <= |old(rq)|
      && Travel(pools.place) <= old(Travel(pools.place)) + 4 * (old(Load()) - Load())
    }

    /** Something that waited was popped or issued. */
    twostate predicate Moved()
      reads `rq, `winN, `issuePos, `bktTotal
    {
      Load() < old(Load()) || |rq| < |old(rq)|
    }

    /** A sealed window has something left to issue. */
    predicate Unfinished()
      reads `winSorted, `issuePos, `winN
    {
      winSorted ==> issuePos < winN
    }

    /** Deliveries and the GPU's cursor are as they were. */
    twostate predicate Undelivered()
      reads pools`out, pools`tail, pools`outJobs
    {
      pools.out == old(pools.out) && pools.outJobs == old(pools.outJobs) && pools.tail == old(pools.tail)
    }

    /** nvmev_coalesce_init for one shard. */
    constructor (c: Config, shard: nat, pendCap: nat)
      requires ConfigOk(c) && 0 < pendCap <= 0x1_0000
      ensures Inv() && cfg == c && popped == [] && rq == [] && pools.out == [] && Paced() && Unfinished()
      ensures fresh(pools.Footprint()) && fresh(Buffers()) && fresh(bkt)
    {
      hide Pools.Kept, Pools.Served, ShardOk, StoreOk, Inv, WinV;
      cfg := c;
      win := new Ent[c.entries](i => Ent(0, 0, 0, 0));
      scr := new Ent[c.entries](i => Ent(0, 0, 0, 0));
      htab := new nat[2 * c.entries](i => EMPTY);
      rcnt := new nat[256](i => 0);
      bkt := new seq<Ent>[c.buckets](i => []);
      pools := new Pools(c, shard, pendCap);
      rq, winN, winSorted, issuePos, flushUniq, oldestNs, bktTotal := [], 0, false, 0, 0, 0, 0;
      reqsIn, uniquePages, pageMerges, popped, runs := 0, 0, 0, [], 0;
      new;
      StartsSound();
    }

    /** With everything empty the shard is sound. */
    lemma StartsSound()
      requires Apart() && pools.Kept() && pools.Served() == multiset{} && popped == []
      requires winN == issuePos == flushUniq == bktTotal == reqsIn == uniquePages == pageMerges == runs == 0
               && !winSorted
      requires forall b :: 0 <= b < bkt.Length ==> bkt[b] == []
      ensures Inv()
    {
      hide Pools.Kept, Pools.Served, ShardOk, StoreOk;
      StartOk(cfg, WinV());
    }

    /** A producer's request reaches the shard's ring. */
    method Arrive(r: Req)
      requires Inv()
      modifies `rq
      ensures Inv() && rq == old(rq) + [r] && (old(Paced()) ==> Paced())
      ensures Work() == old(Work()) + 6
    {
      hide Pools.Kept, Pools.Served, ShardOk;
      rq := rq + [r];
    }

    // ---- filling and sealing the window ----

    method Put(e: Ent)
      requires winN < win.Length && bkt !in Buffers()
      modifies win, `winN, `popped
      ensures old(winN) < win.Length && WinV() == Take(old(WinV()), e)
    {
      ghost var was := win[..];
      win[winN] := e;
      assert win[..] == was[winN := e];
      winN := winN + 1;
      popped := popped + [e];
    }

    /** One request popped into the window. */
    method TakeRequest(now: nat)
      requires Inv() && rq != [] && !winSorted && winN < win.Length
      modifies win, `rq, `winN, `oldestNs, `popped
      ensures Inv() && rq == old(rq[1..]) && winN == old(winN) + 1
      ensures oldestNs == if old(winN) == 0 then now else old(oldestNs)
      ensures popped == old(popped) + [Entry(cfg.z, old(rq[0]))]
    {
      hide Pools.Kept, Pools.Served, ShardOk, WinV, Entry, ConfigOk;
      ConfigStore(cfg);
      WinIs();
      var req := rq[0];
      rq := rq[1..];
      if winN == 0 { oldestNs := now; }
      var e := Entry(cfg.z, req);
      EntryOk(cfg.z, req);
      TakeKeeps(cfg, WinV(), pools.Served(), e);
      Put(e);
      WinIs();
    }

    lemma WinIs()
      ensures WinV().win == win[..] && WinV().n == winN && WinV().pos == issuePos && WinV().sorted == winSorted
              && WinV().uniq == flushUniq
      ensures WinV().bins == bkt[..] && WinV().total == bktTotal && WinV().popped == popped
    {
    }

    /** Any library sort by page: some sorted arrangement of the entries. */
    method LibrarySort(n: nat)
      requires Apart() && n <= win.Length && EntsOk(cfg.z, win[..n])
      modifies win
      ensures SortedByTag(win[..n]) && multiset(win[..n]) == multiset(old(win[..n]))
    {
      ConfigStore(cfg);
      RadixSorts(cfg.z, win[..n]);
      var perm: seq<Ent> :| SortedByTag(perm) && multiset(perm) == multiset(win[..n]);
      assert |perm| == |multiset(perm)| == |multiset(win[..n])| == n;
      forall i | 0 <= i < n { win[i] := perm[i]; }
      assert win[..n] == perm;
    }

    /** co_sort_window's sort and count. */
    method SortWindow() returns (uniq: nat)
      requires Apart() && winN <= win.Length && EntsOk(cfg.z, win[..winN])
      modifies win, scr, htab, rcnt
      ensures multiset(win[..winN]) == multiset(old(win[..winN])) && uniq == |Tags(win[..winN])|
      ensures cfg.sort != Hashed ==> SortedByTag(win[..winN])
    {
      hide Passes, SortedByTag, EntsOk;
      ConfigStore(cfg);
      match cfg.sort {
        case Comparison =>
          LibrarySort(winN);
          uniq := CountAdjacent(win, winN);
          SortedGrouped(win[..winN]);
        case Hashed =>
          TagsSmall(cfg.z, win[..winN]);
          uniq := HashUnique(win, winN, htab);
        case Radix => uniq := SortRadix();
        case Bucketed => uniq := SortRadix();
      }
    }

    /** The radix sort, the default of the switch as well. */
    method SortRadix() returns (uniq: nat)
      requires Apart() && winN <= win.Length && EntsOk(cfg.z, win[..winN])
      modifies win, scr, rcnt
      ensures multiset(win[..winN]) == multiset(old(win[..winN])) && uniq == |Tags(win[..winN])|
      ensures SortedByTag(win[..winN])
    {
      hide Passes, SortedByTag, EntsOk, Tags;
      ConfigStore(cfg);
      RadixSorts(cfg.z, win[..winN]);
      RadixByPage(win, scr, winN, cfg.z.page, rcnt);
      uniq := CountAdjacent(win, winN);
      SortedGrouped(win[..winN]);
    }

    /** co_sort_window: the window is sealed. */
    method Seal()
      requires Inv() && !winSorted
      modifies win, scr, htab, rcnt, `flushUniq, `issuePos, `winSorted
      ensures Inv() && winSorted && winN == old(winN) && issuePos == 0
    {
      hide Pools.Kept, Pools.Served, ShardOk, ConfigOk, EntsOk, Tags, SortedByTag;
      ghost var w := WinV();
      Unsealed(cfg, w, pools.Served());
      flushUniq := SortWindow();
      SealKeeps(cfg, w, pools.Served(), win[..], flushUniq);
      issuePos, winSorted := 0, true;
    }

    // ---- issuing ----

    /** The run of one page at i, or a single request when merging is off. */
    method RunLength(i: nat) returns (run: nat)
      requires i < winN <= win.Length
      ensures 0 < run && i + run <= winN && MaximalRun(cfg, win[..], winN, i, run)
    {
      run := 1;
      if !cfg.noMerge {
        while i + run < winN && win[i + run].tag == win[i].tag
          invariant 0 < run && i + run <= winN && forall j :: i <= j < i + run ==> win[j].tag == win[i].tag
        {
          run := run + 1;
        }
      }
    }

    /** The run at the front is handed to the backend; the window is not touched. */
    method HandOver(run: nat, now: nat, rc: Answer)
      requires Inv() && 0 < pools.pendFreeN && 0 < run <= pools.wfreeN && RunOf(pools.cfg.z, win[..], issuePos, run)
      modifies pools.Footprint()
      ensures pools.Kept() && WinV() == old(WinV()) && Issuing(if rc == Again then 0 else run)
      ensures issuePos + run <= win.Length && pools.pendReturn == old(pools.pendReturn)
      ensures Travel(pools.place) <= old(Travel(pools.place)) + (if rc == Again then 0 else 4)
      ensures pools.Served() == old(pools.Served()) + (if rc == Again then multiset{}
                                                       else multiset(win[issuePos..issuePos + run]))
    {
      hide Inv, Apart, WinV, Pools.Kept, Pools.Served, Pools.Onward, ShardOk, RunOf, ConfigOk, Travel;
      InvParts();
      RunFits(pools.cfg.z, win[..], issuePos, run);
      pools.IssueRun(win, issuePos, run, now, rc);
      if rc == Again { NothingSent(); }
    }

    twostate lemma NothingSent()
      requires pools.Onward() && pools.out == old(pools.out)
      ensures |pools.out| <= |old(pools.out)|
    {
    }

    /** The run at the front goes to the backend; unless the backend is full it is passed. */
    method IssueFront(run: nat, now: nat, rc: Answer)
      requires Inv() && winSorted && 0 < pools.pendFreeN && 0 < run <= pools.wfreeN
               && MaximalRun(cfg, win[..], winN, issuePos, run)
      modifies pools.Footprint(), `issuePos, `runs
      ensures Inv() && issuePos == old(issuePos) + (if rc == Again then 0 else run) && Issuing(issuePos - old(issuePos))
      ensures pools.pendReturn == old(pools.pendReturn)
      ensures Travel(pools.place) <= old(Travel(pools.place)) + 4 * (issuePos - old(issuePos))
    {
      hide Inv, Apart, Pools.Kept, Pools.Served, ShardOk, WinV, MaximalRun, RunOf, Issuing, Travel;
      InvParts();
      RunReady(run);
      RunPasses(run);
      HandOver(run, now, rc);
      if rc != Again { Advance(run); }
      InvFrom();
    }

    /** The shard is sound whether the run is put off or passed. */
    lemma RunPasses(run: nat)
      requires Inv() && winSorted && MaximalRun(cfg, win[..], winN, issuePos, run)
      ensures issuePos + run <= win.Length && ShardOk(cfg, WinV(), pools.Served() + multiset{})
      ensures ShardOk(cfg, Advanced(WinV(), run), pools.Served() + multiset(win[issuePos..issuePos + run]))
    {
      hide Pools.Kept, Pools.Served, ShardOk, MaximalRun;
      AfterRun(cfg, WinV(), pools.Served(), run);
      assert win[..][issuePos..issuePos + run] == win[issuePos..issuePos + run];
    }

    /** The run at the front is of well-formed requests for one page. */
    lemma RunReady(run: nat)
      requires Inv() && MaximalRun(cfg, win[..], winN, issuePos, run)
      ensures issuePos + run <= win.Length && RunOf(pools.cfg.z, win[..], issuePos, run)
    {
      hide Pools.Kept, Pools.Served, ShardOk, MaximalRun, EntOk;
      RunFacts(cfg, WinV(), pools.Served(), run);
      assert forall j :: issuePos <= j < issuePos + run ==> WinV().win[j] == win[j];
    }

    lemma InvParts()
      requires Inv()
      ensures Apart() && pools.Kept() && ShardOk(cfg, WinV(), pools.Served()) && cfg == pools.cfg && ConfigOk(cfg)
      ensures this !in pools.Footprint() && win !in pools.Footprint() && bkt !in pools.Footprint()
    {
      hide Pools.Kept, Pools.Served, ShardOk;
    }

    lemma InvFrom()
      requires Apart() && pools.Kept() && ShardOk(cfg, WinV(), pools.Served())
      ensures Inv()
    {
    }

    /** There is no credit for the run at the front: a slot, and a waiter for each of its requests. */
    ghost predicate Stalled()
      reads win, `winN, `issuePos, pools`pendFreeN, pools`wfreeN
    {
      forall run: nat :: MaximalRun(cfg, win[..], winN, issuePos, run) ==> pools.pendFreeN == 0 || pools.wfreeN < run
    }

    /** One turn of co_flush_issue. The run at the front goes exactly when there is credit for it and
        the backend is not full; without credit, something is outstanding that will bring it back. */
    method IssueNext(now: nat, rc: Answer) returns (go: bool)
      requires Inv() && winSorted && issuePos < winN
      modifies pools.Footprint(), `issuePos, `runs
      ensures Inv() && (if go then old(issuePos) < issuePos <= winN else issuePos == old(issuePos))
      ensures Issuing(issuePos - old(issuePos))
      ensures rc != Again && !go ==> pools.pendFreeN < pools.pend.Length
      ensures Travel(pools.place) <= old(Travel(pools.place)) + 4 * (issuePos - old(issuePos))
      ensures rc != Again && old(pools.pendFreeN) == pools.pend.Length ==> go
      ensures pools.pendReturn == old(pools.pendReturn)
      ensures (go <==> rc != Again && !old(Stalled())) && (rc != Again && !go ==> Stalled())
      ensures go ==> MaximalRun(cfg, win[..], winN, old(issuePos), issuePos - old(issuePos))
    {
      hide Pools.Kept, ShardOk, WinV, Travel, MaximalRun;
      PosWithin();
      var run := RunLength(issuePos);
      OneRun(cfg, win[..], winN, issuePos, run);
      if pools.pendFreeN == 0 || pools.wfreeN < run {
        CreditsShort(run);
        return false;
      }
      IssueFront(run, now, rc);
      go := rc != Again;
    }

    method Advance(run: nat)
      requires Apart()
      modifies `issuePos, `runs
      ensures issuePos == old(issuePos) + run && WinV() == Advanced(old(WinV()), run)
      ensures (old(pools.Kept()) ==> pools.Kept()) && pools.Served() == old(pools.Served())
    {
      hide Pools.Kept, Pools.Served;
      issuePos, runs := issuePos + run, runs + 1;
    }

    /** The end of co_flush_issue: the whole window is issued, so it is charged and cleared. */
    method Charge()
      requires Inv() && winSorted && issuePos == winN
      modifies `reqsIn, `uniquePages, `pageMerges, `winN, `winSorted, `issuePos
      ensures Inv() && winN == 0 && !winSorted && reqsIn == old(reqsIn + winN)
    {
      hide Pools.Kept, Pools.Served, ShardOk, ConfigOk;
      ChargeKeeps(cfg, WinV(), pools.Served());
      reqsIn, uniquePages, pageMerges := reqsIn + winN, uniquePages + flushUniq, pageMerges + (winN - flushUniq);
      winN, winSorted, issuePos := 0, false, 0;
    }

    /** co_flush_issue: issues runs as far as credits and the backend allow; what cannot go now
        stays for the next lap. Left unfinished by anything but a full backend, the window waits
        for reads that are outstanding. A backend with room (roomy) puts nothing off. */
    method FlushIssue(now: nat, roomy: bool) returns (ghost full: bool)
      requires Inv() && winSorted
      modifies pools.Footprint(), `issuePos, `runs, `reqsIn, `uniquePages, `pageMerges, `winN, `winSorted
      ensures Inv() && (winSorted && !full ==> pools.pendFreeN < pools.pend.Length) && (!winSorted ==> winN == 0)
      ensures winSorted ==> winN == old(winN) && (!full ==> Stalled())
      ensures Issuing(win.Length) && Unfinished() && pools.pendReturn == old(pools.pendReturn)
      ensures Draining() && (roomy ==> !full)
      ensures roomy && old(pools.pendFreeN == pools.pend.Length && issuePos < winN) ==> Moved()
    {
      hide Inv, Travel, MaximalRun, Stalled;
      var go := true;
      full := false;
      PosWithin();
      while issuePos < winN && go
        invariant Inv() && winSorted && (!go && !full ==> pools.pendFreeN < pools.pend.Length && issuePos < winN)
        invariant !go && !full ==> Stalled()
        invariant (!go ==> issuePos < winN) && old(issuePos) <= issuePos <= winN == old(winN) <= win.Length
        invariant Issuing(issuePos - old(issuePos)) && pools.pendReturn == old(pools.pendReturn) && (roomy ==> !full)
        invariant Travel(pools.place) <= old(Travel(pools.place)) + 4 * (issuePos - old(issuePos))
        invariant roomy && issuePos == old(issuePos) && old(pools.pendFreeN) == pools.pend.Length ==>
                    go && pools.pendFreeN == old(pools.pendFreeN)
        decreases winN - issuePos, go
      {
        var rc: Answer :| roomy ==> rc != Again;
        go := IssueNext(now, rc);
        full := rc == Again;
      }
      if issuePos >= winN { Charge(); }
    }

    lemma PosWithin()
      requires Inv()
      ensures issuePos <= winN <= win.Length
    {
      WinShape(cfg, WinV(), pools.Served());
    }

    // ---- buckets ----

    method Bin(e: Ent, b: nat)
      requires b < bkt.Length && bkt !in Buffers()
      modifies bkt, `bktTotal, `popped
      ensures b < |old(WinV()).bins| && WinV() == BinnedIn(old(WinV()), b, e)
    {
      ghost var was := bkt[..];
      bkt[b] := bkt[b] + [e];
      assert bkt[..] == was[b := was[b] + [e]];
      bktTotal := bktTotal + 1;
      popped := popped + [e];
    }

    /** memcpy of bucket b into the empty window, the bucket emptied. */
    method Unload(b: nat) returns (n: nat)
      requires b < bkt.Length && |bkt[b]| <= win.Length && |bkt[b]| <= bktTotal && bkt !in Buffers()
      modifies win, bkt, `bktTotal, `winN
      ensures n == old(|bkt[b]|) && winN == n && win[..n] == old(bkt[b]) && bktTotal == old(bktTotal) - n
      ensures bkt[..] == old(bkt[..])[b := []]
    {
      n := |bkt[b]|;
      ghost var was, e := bkt[..], bkt[b];
      forall i | 0 <= i < n { win[i] := bkt[b][i]; }
      assert win[..n] == e;
      winN, bktTotal := n, bktTotal - n;
      bkt[b] := [];
      assert bkt[..] == was[b := []];
    }

    /** co_bucket_evict: bucket b becomes the sealed window. */
    method Evict(b: nat)
      requires Inv() && !winSorted && winN == 0 && b < bkt.Length && |bkt[b]| <= win.Length && cfg.sort == Bucketed
      modifies win, scr, htab, rcnt, bkt, `bktTotal, `winN, `flushUniq, `winSorted, `issuePos
      ensures Inv() && winSorted == (old(bkt[b]) != []) && bkt[b] == [] && winN == |old(bkt[b])|
      ensures bkt[..] == old(bkt[..])[b := []] && bktTotal == old(bktTotal - |bkt[b]|) && issuePos == 0
      ensures winN <= win.Length && multiset(win[..winN]) == multiset(old(bkt[b]))
    {
      hide Pools.Kept, Pools.Served, ShardOk, ConfigOk, EntsOk, Tags, SortedByTag;
      Unsealed(cfg, WinV(), pools.Served());
      if |bkt[b]| == 0 {
        assert bkt[..][b := []] == bkt[..];
        return;
      }
      ghost var w := WinV();
      BucketFits(cfg, w, pools.Served(), b);
      SortBucket(b);
      EvictKeeps(cfg, w, pools.Served(), b, win[..], flushUniq);
      issuePos, winSorted := 0, true;
    }

    /** The bucket's entries unloaded into the window, sorted and counted. */
    method SortBucket(b: nat)
      requires Apart() && b < bkt.Length && |bkt[b]| <= win.Length && |bkt[b]| <= bktTotal && EntsOk(cfg.z, bkt[b])
      modifies win, bkt, `bktTotal, `winN, `flushUniq
      ensures winN == old(|bkt[b]|) <= win.Length && bkt[..] == old(bkt[..])[b := []]
              && bktTotal == old(bktTotal - |bkt[b]|)
      ensures multiset(win[..winN]) == multiset(old(bkt[b])) && flushUniq == |Tags(win[..winN])|
              && SortedByTag(win[..winN])
    {
      hide ConfigOk, EntsOk, Tags, SortedByTag;
      ConfigStore(cfg);
      var n := Unload(b);
      LibrarySort(n);
      flushUniq := CountAdjacent(win, n);
      SortedGrouped(win[..n]);
    }

    /** co_bucket_fullest: the first of the fullest buckets, unless all are empty. */
    method Fullest() returns (best: Option<nat>)
      ensures best.None? <==> NoneBinned(bkt[..])
      ensures best.Some? ==> best.value < bkt.Length && best.value == FullestOf(bkt[..])
      ensures best.Some? ==> forall b :: 0 <= b < bkt.Length ==>
                |bkt[b]| <= |bkt[best.value]| && (b < best.value ==> |bkt[b]| < |bkt[best.value]|)
    {
      best := None;
      var bestn := 0;
      for b := 0 to bkt.Length
        invariant if best.None? then bestn == 0 else best.value < b && bestn == |bkt[best.value]| > 0
        invariant forall k :: 0 <= k < b ==> |bkt[k]| <= bestn && (best.Some? && k < best.value ==> |bkt[k]| < bestn)
      {
        if |bkt[b]| > bestn {
          bestn := |bkt[b]|;
          best := Some(b);
        }
      }
      if best.Some? { FirstFullest(bkt[..], best.value); }
    }

    /** The buckets, the ring and the window are as s says; a burst is in the window. */
    ghost predicate Holds(s: Buckets)
      reads this, bkt, win
    {
      && bkt[..] == s.bins && oldestNs == s.oldest && rq == s.rest
      && winN == |s.burst| <= win.Length && winSorted == (s.burst != []) && multiset(win[..winN]) == multiset(s.burst)
    }

    /** The buckets and the ring, with no window in hand. */
    ghost function BktV(): Buckets
      reads `oldestNs, `rq, bkt
    {
      Buckets(bkt[..], oldestNs, rq, [])
    }

    /** Should a lap at this time empty a bucket, it fits the window. */
    ghost predicate LapFits(now: nat)
      reads `oldestNs, `rq, `winSorted, `winN, bkt
    {
      cfg.sort == Bucketed && !winSorted && winN == 0 ==>
        ConfigOk(cfg) && bkt.Length == cfg.buckets && |BinLap(cfg, BktV(), now).burst| <= cfg.entries
    }

    /** Buckets within the window's size always fit. */
    lemma FitsAlways(now: nat)
      requires Inv() && BucketsFit(cfg)
      ensures LapFits(now)
    {
      hide Pools.Kept, Pools.Served, BinLap;
      if cfg.sort == Bucketed { LapWithin(cfg, BktV(), now); }
    }

    lemma NothingHeldYet()
      requires Inv() && !winSorted && winN == 0
      ensures Holds(BktV()) && |bkt[..]| == cfg.buckets && ConfigOk(cfg)
    {
      hide Pools.Kept, Pools.Served, ShardOk;
    }

    /** The next request is taken off the ring; the clock is noted when no bucket holds anything. */
    method PopEntry(now: nat) returns (e: Ent)
      requires Inv() && rq != []
      modifies `rq, `oldestNs
      ensures Inv() && rq == old(rq[1..]) && oldestNs == (if NoneBinned(bkt[..]) then now else old(oldestNs))
      ensures StoreOk(cfg.z) && e == Entry(cfg.z, old(rq[0])) && EntOk(cfg.z, e)
    {
      hide Pools.Kept, Pools.Served, ShardOk, WinV, EntOk;
      StoreHere();
      BinnedTotal();
      e := Entry(cfg.z, rq[0]);
      EntryOk(cfg.z, rq[0]);
      rq := rq[1..];
      if bktTotal == 0 { oldestNs := now; }
    }

    /** An entry joins its bucket. */
    method BinEntry(b: nat, e: Ent)
      requires Inv() && cfg.sort == Bucketed && ConfigOk(cfg) && EntOk(cfg.z, e)
               && b == BucketOf(cfg, e.tag) < bkt.Length
               && |bkt[b]| < cfg.bucketCap
      modifies bkt, `bktTotal, `popped
      ensures Inv() && bkt[..] == old(bkt[..])[b := old(bkt[b]) + [e]] && bktTotal == old(bktTotal) + 1
              && popped == old(popped) + [e]
    {
      hide Pools.Kept, Pools.Served, ShardOk, WinV, EntOk, BucketOf;
      WinIs();
      BinKeeps(cfg, WinV(), pools.Served(), b, e);
      Bin(e, b);
      WinIs();
    }

    /** A full bucket is evicted. */
    method MakeRoom(b: nat) returns (full: bool)
      requires Inv() && !winSorted && winN == 0 && issuePos == 0 && cfg.sort == Bucketed && ConfigOk(cfg)
      requires b < bkt.Length && (|bkt[b]| >= cfg.bucketCap ==> |bkt[b]| <= win.Length)
      modifies win, scr, htab, rcnt, bkt, `bktTotal, `winN, `flushUniq, `winSorted, `issuePos
      ensures Inv() && full == winSorted == (old(|bkt[b]|) >= cfg.bucketCap) && issuePos == 0
      ensures full ==> bkt[..] == old(bkt[..])[b := []] && winN == old(|bkt[b]|) <= win.Length
                       && bktTotal == old(bktTotal) - winN
                       && multiset(win[..winN]) == multiset(old(bkt[b]))
      ensures !full ==> bkt[..] == old(bkt[..]) && winN == 0 && bktTotal == old(bktTotal)
    {
      hide Inv;
      full := |bkt[b]| >= cfg.bucketCap;
      if full { Evict(b); }
    }

    /** One request popped into its bucket; a full bucket is evicted first. */
    method TakeIntoBucket(now: nat) returns (evicted: bool)
      requires Inv() && rq != [] && !winSorted && winN == 0 && cfg.sort == Bucketed
      requires ConfigOk(cfg) && bkt.Length == cfg.buckets && |BinOne(cfg, BktV(), now).burst| <= win.Length
      modifies win, scr, htab, rcnt, bkt, `rq, `bktTotal, `winN, `flushUniq, `winSorted, `issuePos, `oldestNs, `popped
      ensures Inv() && winSorted == evicted && Unfinished() && Load() == old(Load()) && |old(bkt[..])| == cfg.buckets
      ensures Holds(BinOne(cfg, old(BktV()), now)) && popped == old(popped) + [Entry(cfg.z, old(rq[0]))]
    {
      hide Inv, Entry, BucketOf, EntOk, NoneBinned, Holds, BinOne;
      ghost var s := BktV();
      RoomFor(now);
      PosZero();
      var e := PopEntry(now);
      var b := BucketOf(cfg, e.tag);
      evicted := MakeRoom(b);
      BinEntry(b, e);
      BinnedOne(s, b, evicted, now);
    }

    lemma RoomFor(now: nat)
      requires Inv() && rq != [] && bkt.Length == cfg.buckets && |BinOne(cfg, BktV(), now).burst| <= win.Length
      ensures ConfigOk(cfg) && cfg.bucketCap >= 2
      ensures forall b :: b == BucketOf(cfg, Entry(cfg.z, rq[0]).tag) && |bkt[b]| >= cfg.bucketCap ==>
                |bkt[b]| <= win.Length
    {
      hide Pools.Kept, Pools.Served, ShardOk, BucketOf, Entry;
    }

    /** Taken together, that is the step of the bucket store. */
    lemma BinnedOne(s: Buckets, b: nat, full: bool, now: nat)
      requires ConfigOk(cfg) && |s.bins| == cfg.buckets && s.rest != [] && rq == s.rest[1..]
      requires b == BucketOf(cfg, Entry(cfg.z, s.rest[0]).tag) && full == (|s.bins[b]| >= cfg.bucketCap)
      requires oldestNs == if NoneBinned(s.bins) then now else s.oldest
      requires bkt[..] == s.bins[b := (if full then [] else s.bins[b]) + [Entry(cfg.z, s.rest[0])]]
      requires winN == (if full then |s.bins[b]| else 0) <= win.Length && winSorted == full
      requires full ==> multiset(win[..winN]) == multiset(s.bins[b])
      ensures Holds(BinOne(cfg, s, now))
    {
      hide NoneBinned, BucketOf, Entry;
      assert win[..0] == [];
    }

    /** Pops requests into their buckets, up to the budget or the first bucket evicted. */
    method BinRequests(budget: nat, now: nat)
      requires Inv() && !winSorted && winN == 0 && cfg.sort == Bucketed && ConfigOk(cfg) && bkt.Length == cfg.buckets
      requires |BinAll(cfg, BktV(), budget, now).burst| <= win.Length
      modifies win, scr, htab, rcnt, bkt, `rq, `bktTotal, `winN, `flushUniq, `winSorted, `issuePos, `oldestNs, `popped
      ensures Inv() && PoppedFrom(cfg.z, old(rq), old(popped), rq, popped) && |old(bkt[..])| == cfg.buckets
      ensures Holds(BinAll(cfg, old(BktV()), budget, now))
      ensures Unfinished() && Load() == old(Load()) && |rq| <= |old(rq)|
      ensures if budget > 0 && old(rq) != [] then Moved()
              else !winSorted && bktTotal == old(bktTotal) && oldestNs == old(oldestNs)
    {
      hide Inv, PoppedFrom, BinOne;
      StoreHere();
      PoppedNone(cfg.z, rq, popped);
      NothingHeldYet();
      var binned := 0;
      ghost var s, goal := BktV(), BinAll(cfg, BktV(), budget, now);
      while binned < budget && rq != [] && !winSorted
        invariant Inv() && PoppedFrom(cfg.z, old(rq), old(popped), rq, popped) && Holds(s) && |s.bins| == cfg.buckets
        invariant binned <= budget && goal == BinAll(cfg, s, budget - binned, now)
        invariant |rq| + binned == |old(rq)| && Unfinished() && Load() == old(Load())
        invariant binned == 0 ==> !winSorted && bktTotal == old(bktTotal) && oldestNs == old(oldestNs)
        decreases |rq|
      {
        PoppedMore(cfg.z, old(rq), old(popped), rq, popped);
        s := BinOne(cfg, s, now);
        BurstStays(cfg, s, budget - binned - 1, now);
        var _ := TakeIntoBucket(now);
        binned := binned + 1;
      }
    }

    /** With the ring empty or the requests aged, the fullest bucket is evicted. */
    method EvictQuiet(now: nat)
      requires Inv() && !winSorted && winN == 0 && bktTotal > 0 && cfg.sort == Bucketed
      requires ConfigOk(cfg) && bkt.Length == cfg.buckets && |QuietEvict(cfg, BktV(), now).burst| <= win.Length
      modifies win, scr, htab, rcnt, bkt, `bktTotal, `winN, `flushUniq, `winSorted, `issuePos
      ensures Inv() && |old(bkt[..])| == cfg.buckets && Holds(QuietEvict(cfg, old(BktV()), now))
      ensures Unfinished() && Load() == old(Load()) && (now - oldestNs >= cfg.flushNs ==> winSorted)
    {
      hide Pools.Kept, Pools.Served, ShardOk, WinV;
      var age, empty := now - oldestNs >= cfg.flushNs, rq == [];
      var best := Fullest();
      PosZero();
      BinnedTotal();
      if (age || empty) && best.Some? && (age || |bkt[best.value]| >= cfg.flushMin) { Evict(best.value); }
    }

    /** With no window in hand: requests are binned, and a bucket perhaps evicted. */
    method BucketFill(now: nat)
      requires Inv() && !winSorted && winN == 0 && cfg.sort == Bucketed && LapFits(now)
      modifies win, scr, htab, rcnt, bkt, `rq, `bktTotal, `winN, `flushUniq, `winSorted, `issuePos, `oldestNs, `popped
      ensures Inv() && PoppedFrom(cfg.z, old(rq), old(popped), rq, popped) && Unfinished()
      ensures ConfigOk(cfg) && |old(bkt[..])| == cfg.buckets && Holds(BinLap(cfg, old(BktV()), now))
      ensures Load() == old(Load()) && |rq| <= |old(rq)| && (!winSorted ==> winN == 0)
      ensures now - old(oldestNs) >= cfg.flushNs && cfg.window > 0 && old(Load()) > 0 ==> winSorted || Moved()
    {
      hide Inv, PoppedFrom, BinAll, QuietEvict;
      PosZero();
      NothingHeldYet();
      BurstKept(cfg, BinAll(cfg, BktV(), cfg.window, now), now);
      WindowSize();
      BinRequests(cfg.window, now);
      BinnedTotal();
      if !winSorted && bktTotal > 0 { EvictQuiet(now); }
      PosZero();
    }

    /** The buckets and the ring are as s says. */
    ghost predicate Follows(s: Buckets)
      reads `oldestNs, `rq, bkt
    {
      bkt[..] == s.bins && oldestNs == s.oldest && rq == s.rest
    }

    /** What the issue half leaves in the buckets and the ring: in bucket mode, with a window in hand,
        what was there, and otherwise what the lap makes of it. */
    twostate predicate Lapped(now: nat)
      reads this, bkt
    {
      cfg.sort == Bucketed && ConfigOk(cfg) && bkt.Length == cfg.buckets ==>
        Follows(if old(winSorted || winN > 0) then old(BktV()) else BinLap(cfg, old(BktV()), now))
    }

    /** What the issue half leaves of the window and the ring outside bucket mode. A sealed window takes
        nothing in. Another is filled, and if that seals it, it is issued, as far as it can be. */
    ghost predicate Windowed(n0: nat, sealed: bool, rq0: seq<Req>, oldest0: nat, now: nat)
      reads `rq, `winN, `winSorted, `oldestNs
    {
      if sealed then rq == rq0
      else exists n: nat, seals: bool :: Filled(cfg, n0, rq0, oldest0, now, n, rq, oldestNs, seals)
                         && winN == (if seals && !winSorted then 0 else n) && (winSorted ==> seals)
    }

    /** A window left unsealed by another mode is sealed and issued. */
    method SealAndIssue(now: nat, roomy: bool)
      requires Inv() && !winSorted && winN > 0
      modifies pools.Footprint(), win, scr, htab, rcnt, `flushUniq, `issuePos, `winSorted, `winN, `runs, `reqsIn,
               `uniquePages, `pageMerges
      ensures Inv() && Issuing(cfg.entries) && Unfinished() && pools.pendReturn == old(pools.pendReturn)
      ensures bkt[..] == old(bkt[..]) && Draining() && (roomy && old(pools.pendFreeN == pools.pend.Length) ==> Moved())
      ensures roomy && winSorted ==> Stalled()
    {
      hide Inv, Travel, Stalled, MaximalRun, WinV, ConfigOk;
      InvParts();
      WindowSize();
      PosZero();
      Seal();
      var _ := FlushIssue(now, roomy);
    }

    /** co_bucket_lap. */
    method BucketLap(now: nat, roomy: bool)
      requires Inv() && cfg.sort == Bucketed && LapFits(now)
      modifies this, pools.Footprint(), win, scr, htab, rcnt, bkt
      ensures Inv() && PoppedFrom(cfg.z, old(rq), old(popped), rq, popped) && Issuing(cfg.entries) && Unfinished()
      ensures pools.pendReturn == old(pools.pendReturn) && Lapped(now) && Draining()
      ensures roomy && old(Ready(now) && pools.pendFreeN == pools.pend.Length && Load() > 0) ==> Moved()
      ensures roomy && winSorted ==> Stalled()
    {
      hide Inv, PoppedFrom, BinLap, Travel, Stalled;
      StoreHere();
      PoppedNone(cfg.z, rq, popped);
      WindowSize();
      PosZero();
      if winSorted {
        var _ := FlushIssue(now, roomy);
        return;
      }
      if winN > 0 {
        SealAndIssue(now, roomy);
        return;
      }
      FillAndIssue(now, roomy);
    }

    /** With no window in hand: requests are binned, and the bucket evicted, if any, is issued. */
    method FillAndIssue(now: nat, roomy: bool)
      requires Inv() && !winSorted && winN == 0 && cfg.sort == Bucketed && LapFits(now)
      modifies this, pools.Footprint(), win, scr, htab, rcnt, bkt
      ensures Inv() && PoppedFrom(cfg.z, old(rq), old(popped), rq, popped) && Issuing(cfg.entries) && Unfinished()
      ensures pools.pendReturn == old(pools.pendReturn) && Lapped(now) && Draining()
      ensures roomy && old(Ready(now) && pools.pendFreeN == pools.pend.Length && Load() > 0) ==> Moved()
      ensures roomy && winSorted ==> Stalled()
    {
      hide Inv, PoppedFrom, BinLap, Travel, Stalled;
      WindowSize();
      BucketFill(now);
      IssuingNone();
      PosZero();
      if winSorted { var _ := FlushIssue(now, roomy); }
    }

    /** The window is open, and the requests waiting are old enough to be issued. */
    predicate Ready(now: nat)
      reads `winSorted, `issuePos, `winN, `oldestNs
    {
      Unfinished() && cfg.window > 0 && now - oldestNs >= cfg.flushNs
    }

    twostate lemma IssuingNone()
      requires pools.Onward() && pools.out == old(pools.out) && pools.doneList == old(pools.doneList)
      requires pools.gpuHeld == old(pools.gpuHeld) && pools.mark == old(pools.mark)
               && pools.lastScanNs == old(pools.lastScanNs)
      ensures Issuing(0) && Issuing(cfg.entries)
    {
    }

    lemma PosZero()
      requires Inv()
      ensures issuePos <= winN <= win.Length && (!winSorted ==> issuePos == 0)
    {
      hide Pools.Kept, Pools.Served, ShardOk;
      PosWithin();
      if !winSorted { Unsealed(cfg, WinV(), pools.Served()); }
    }

    lemma BinnedTotal()
      requires Inv()
      ensures bktTotal == 0 <==> NoneBinned(bkt[..])
    {
      hide Pools.Kept, Pools.Served, WinOk, CountOk, Waits;
      if NoneBinned(bkt[..]) { SumEmpty(Contents(bkt[..])); }
      if bktTotal == 0 {
        forall b | 0 <= b < bkt.Length ensures bkt[..][b] == [] { BucketFits(cfg, WinV(), pools.Served(), b); }
      }
    }

    lemma WindowSize()
      requires Inv()
      ensures cfg.window <= win.Length == cfg.entries && (cfg.sort != Bucketed ==> bktTotal == 0)
    {
      hide Pools.Kept, Pools.Served;
    }

    // ---- laps ----

    /** co_issue_lap: returned credits are taken back, the window filled and perhaps sealed, and
        what is sealed is issued. With nothing outstanding and a backend with room, something that
        waits is popped or issued. */
    method IssueLap(now: nat, roomy: bool)
      requires Inv() && LapFits(now)
      modifies this, pools.Footprint(), win, scr, htab, rcnt, bkt
      ensures Inv() && PoppedFrom(cfg.z, old(rq), old(popped), rq, popped) && Issuing(cfg.entries) && Unfinished()
      ensures pools.pendReturn == [] && Lapped(now) && Draining()
      ensures roomy && old(Ready(now) && Settled() && Load() > 0) ==> Moved()
      ensures old(Settled()) ==> Travel(pools.place) <= 4 * (old(Load()) - Load())
      ensures cfg.sort != Bucketed ==> Windowed(old(winN), old(winSorted), old(rq), old(oldestNs), now)
      ensures roomy && winSorted ==> Stalled()
    {
      hide Pools.Kept, Pools.Served, ShardOk, WinV, ConfigOk, PoppedFrom, Inv, Travel, BinLap, Stalled, Windowed;
      StoreHere();
      PosZero();
      PoppedNone(cfg.z, rq, popped);
      TakeBack();
      WindowSize();
      if cfg.sort == Bucketed {
        BucketLap(now, roomy);
        return;
      }
      WindowLap(now, roomy);
    }

    /** The window is filled, unless it is sealed, and issued if it is. */
    method WindowLap(now: nat, roomy: bool)
      requires Inv() && cfg.sort != Bucketed
      modifies this, pools.Footprint(), win, scr, htab, rcnt
      ensures Inv() && PoppedFrom(cfg.z, old(rq), old(popped), rq, popped) && Issuing(cfg.entries) && Unfinished()
      ensures pools.pendReturn == old(pools.pendReturn) && Draining()
      ensures roomy && old(Ready(now) && pools.pendFreeN == pools.pend.Length && Load() > 0) ==> Moved()
      ensures Windowed(old(winN), old(winSorted), old(rq), old(oldestNs), now) && (roomy && winSorted ==> Stalled())
    {
      hide Inv, PoppedFrom, Travel, Stalled, Filled;
      StoreHere();
      PosZero();
      PoppedNone(cfg.z, rq, popped);
      WindowSize();
      IssuingNone();
      if !winSorted {
        FillWindow(now);
        FilledIs(cfg, old(winN), old(rq), old(oldestNs), now, winN, rq, oldestNs, winSorted);
      }
      PosZero();
      ghost var n, seals := winN, winSorted;
      if winSorted { var _ := FlushIssue(now, roomy); }
      assert !old(winSorted) ==> Filled(cfg, old(winN), old(rq), old(oldestNs), now, n, rq, oldestNs, seals);
    }

    /** Nothing is with the backend, finished, or held for the GPU. */
    ghost predicate Settled()
      reads pools`place, pools`doneList, pools`gpuHeld
    {
      !pools.Reading() && pools.gpuHeld == []
    }

    lemma StoreHere()
      requires Inv()
      ensures StoreOk(cfg.z)
    {
      ConfigStore(cfg);
    }

    method TakeBack()
      requires Inv()
      modifies pools.Footprint()
      ensures Inv() && pools.pendReturn == [] && Issuing(0) && Undelivered() && pools.Homeward()
      ensures old(Settled()) ==> pools.pendFreeN == pools.pend.Length && Travel(pools.place) == 0
    {
      hide Pools.Kept, Pools.Served, ShardOk, Travel;
      pools.DrainReturns();
      if old(Settled()) { SettledFree(); }
    }

    lemma SettledFree()
      requires pools.Kept() && !pools.Reading() && pools.gpuHeld == pools.pendReturn == []
      ensures pools.pendFreeN == pools.pend.Length && Travel(pools.place) == 0
    {
      hide Pools.Kept, Travel;
      pools.SlotsFree();
      pools.HomeFree();
    }

    /** Requests are popped until the window is full or the ring empty. */
    method PopRequests(now: nat)
      requires Inv() && !winSorted && cfg.window <= win.Length
      modifies `rq, `winN, `oldestNs, `popped, win
      ensures Inv() && PoppedFrom(cfg.z, old(rq), old(popped), rq, popped)
      ensures winN == FilledTo(cfg, old(winN), |old(rq)|)
      ensures Taken(old(winN), old(rq), old(oldestNs), now, winN, rq, oldestNs)
    {
      hide Inv, PoppedFrom, Taken;
      StoreHere();
      PoppedNone(cfg.z, rq, popped);
      TakenNone(winN, rq, oldestNs, now);
      while winN < cfg.window && rq != []
        invariant Inv() && PoppedFrom(cfg.z, old(rq), old(popped), rq, popped)
        invariant Taken(old(winN), old(rq), old(oldestNs), now, winN, rq, oldestNs)
        invariant winN > old(winN) ==> winN <= cfg.window
        decreases |rq|
      {
        PoppedMore(cfg.z, old(rq), old(popped), rq, popped);
        TakenMore(old(winN), old(rq), old(oldestNs), now, winN, rq, oldestNs);
        TakeRequest(now);
      }
      TakenLength(old(winN), old(rq), old(oldestNs), now, winN, rq, oldestNs);
    }

    /** Pops until the window is full or the ring empty, and seals it exactly when it is full, has aged,
        or the ring has drained and it holds enough. */
    method FillWindow(now: nat)
      requires Inv() && !winSorted && cfg.window <= win.Length
      modifies `rq, `winN, `oldestNs, `popped, `flushUniq, `issuePos, `winSorted, win, scr, htab, rcnt
      ensures Inv() && PoppedFrom(cfg.z, old(rq), old(popped), rq, popped) && issuePos == 0
      ensures Filled(cfg, old(winN), old(rq), old(oldestNs), now, winN, rq, oldestNs, winSorted)
    {
      hide Inv, PoppedFrom, Taken, FilledTo;
      PosZero();
      PopRequests(now);
      if winN > 0 {
        var full, age, empty := winN >= cfg.window, now - oldestNs >= cfg.flushNs, rq == [] && winN >= cfg.flushMin;
        if full || age || empty { Seal(); }
      }
    }

    /** The sweep and the deliveries: what was finished is told so, what had failed or is overdue is
        told that it failed, and a read neither answered nor overdue stays where it is. */
    method SweepAndReap(now: nat)
      requires Inv() && now >= pools.lastScanNs
      modifies pools.pend, pools`doneList, pools`gpuHeld, pools`pendReturn, pools`place, pools`due, pools`out,
               pools`tail,
               pools`outJobs, pools`lastScanNs
      ensures Inv() && pools.Onward() && pools.doneList == [] && |pools.out| <= |old(pools.out)| + 2 * cfg.entries
      ensures pools.Homeward() && (Travel(pools.place) == old(Travel(pools.place)) ==>
                                   pools.out == old(pools.out) && pools.tail == old(pools.tail))
      ensures old(Overdue(now) || NoneReading()) ==> !pools.Reading()
      ensures pools.lastScanNs <= now && |pools.place| == |old(pools.place)| == pools.pend.Length
      ensures forall s :: 0 <= s < pools.pend.Length && old(pools.place)[s] == AtBackend
                          && (cfg.timeoutNs == 0 || now - old(pools.lastScanNs) < 1_000_000
                              || now - old(pools.pend[..])[s].issueNs < cfg.timeoutNs) ==>
                pools.place[s] == AtBackend && pools.pend[s] == old(pools.pend[..])[s]
      ensures AnswersSince(|old(pools.out)|, old(pools.place), old(pools.pend[..]))
    {
      hide Pools.Kept, Pools.Served, ShardOk, Travel, Answers, GsState;
      pools.DonePlaces();
      pools.TimeoutScan(now);
      pools.DonePlaces();
      pools.Reap();
    }

    /** Every delivery from the n-th on answers its request: with success if the page was finished, and
        not failed, when the slots were as given, and otherwise with the error. */
    ghost predicate AnswersSince(n: nat, place: seq<Place>, pend: seq<PendPage>)
      reads pools`out, pools`outJobs
    {
      |pools.out| == |pools.outJobs| && forall k :: n <= k < |pools.out| ==>
        var d := pools.out[k];
        && d.slot < |place| && d.slot < |pend|
        && Answers(cfg.z, cfg.gpuPull, cfg.mapped, d, pools.outJobs[k],
                   if place[d.slot] == OnDone && GsState(pend[d.slot].gs) != StateCode(ERROR) then 0 else 1)
    }

    /** co_reaper_lap after the backend's completions: timeouts, deliveries, and staging the GPU
        has finished with. */
    method ReaperLap(now: nat)
      requires Inv() && now >= pools.lastScanNs
      modifies pools.Footprint()
      ensures Inv() && pools.Onward() && pools.doneList == [] && |pools.out| <= |old(pools.out)| + 2 * cfg.entries
      ensures cfg.gpuPull && |pools.out| < old(pools.mark) + 0x8000_0000 ==>
                pools.mark == Ahead(pools.tail, |pools.out|) && (pools.tail == |pools.out| ==> pools.gpuHeld == [])
      ensures !cfg.gpuPull ==> pools.gpuHeld == []
      ensures pools.Homeward() && (Travel(pools.place) == old(Travel(pools.place)) ==>
                                   pools.out == old(pools.out) && pools.tail == old(pools.tail))
      ensures old(Overdue(now) || NoneReading()) ==> !pools.Reading()
      ensures pools.lastScanNs <= now && |pools.place| == |old(pools.place)| == pools.pend.Length
      ensures forall s :: 0 <= s < pools.pend.Length && old(pools.place)[s] == AtBackend
                          && (cfg.timeoutNs == 0 || now - old(pools.lastScanNs) < 1_000_000
                              || now - old(pools.pend[..])[s].issueNs < cfg.timeoutNs) ==>
                pools.place[s] == AtBackend && pools.pend[s] == old(pools.pend[..])[s]
      ensures AnswersSince(|old(pools.out)|, old(pools.place), old(pools.pend[..]))
    {
      hide Pools.Kept, Pools.Served, ShardOk, Travel, AnswersSince;
      SweepAndReap(now);
      if cfg.gpuPull { pools.GpuReclaim(); } else { pools.NothingHeld(); }
    }

    /** No read is with the backend. */
    ghost predicate NoneReading()
      reads pools`place
    {
      AtBackend !in pools.place
    }

    /** The timeout of every read outstanding has passed, and the next sweep is due. */
    predicate Overdue(now: nat)
      reads pools`lastScanNs, pools.pend
    {
      && cfg.timeoutNs > 0 && now - pools.lastScanNs >= 1_000_000
      && forall s :: 0 <= s < pools.pend.Length ==> now - pools.pend[s].issueNs >= cfg.timeoutNs
    }

    /** What has been published since the oldest watermark a held page may have, between laps. */
    ghost predicate Paced()
      reads pools`out, pools`mark
    {
      cfg.gpuPull ==> |pools.out| < pools.mark + 2 * cfg.entries
    }

    /** Every read outstanding has completed or is overdue, the GPU has consumed everything, and the
        requests waiting have aged. */
    ghost predicate Quiet(now: nat)
      reads this, pools`lastScanNs, pools`tail, pools`out, pools`place, pools.pend
    {
      Ready(now) && (Overdue(now) || NoneReading()) && pools.tail == |pools.out|
    }

    /** How far the shard is from idle: requests waiting, requests still in the ring, and how far the
        slots are from the free stack. */
    ghost function Work(): int
      reads `rq, `winN, `issuePos, `bktTotal, pools`place
    {
      5 * Load() + |rq| + Travel(pools.place)
    }

    /** One lap of co_consumer, reaping and then issuing. However the GPU consumes, no page stays held
        whose descriptors it had consumed when the lap began; and once it has consumed everything,
        and the issue half has published nothing new, no page is held at all. No lap takes the shard
        farther from idle, and a quiet one, with a backend that has room, takes it nearer. */
    method Lap(now: nat, roomy: bool) returns (ghost sent: nat)
      requires Inv() && Paced() && LapFits(now) && now >= pools.lastScanNs && cfg.entries <= 0x2000_0000
      modifies this, pools.Footprint(), win, scr, htab, rcnt, bkt
      ensures Inv() && Paced() && PoppedFrom(cfg.z, old(rq), old(popped), rq, popped) && pools.Onward() && Unfinished()
      ensures |old(pools.out)| <= sent <= |pools.out| && Lapped(now) && pools.lastScanNs <= now
      ensures cfg.sort != Bucketed ==> Windowed(old(winN), old(winSorted), old(rq), old(oldestNs), now)
      ensures (roomy && winSorted ==> Stalled()) && pools.doneList == []
      ensures cfg.gpuPull ==> forall s :: s in pools.gpuHeld ==>
                                s < pools.pend.Length && old(pools.tail) < pools.pend[s].wm
      ensures cfg.gpuPull && pools.tail == |pools.out| == sent ==> pools.gpuHeld == []
      ensures Work() <= old(Work()) && (roomy && old(Quiet(now) && Work() > 0) ==> Work() < old(Work()))
    {
      hide Pools.Kept, Pools.Served, ShardOk, WinV, PoppedFrom, Travel, BinLap, Stalled, Windowed;
      PosZero();
      ReaperLap(now);
      sent := |pools.out|;
      RingRoom();
      IssueLap(now, roomy);
      PosZero();
      if cfg.gpuPull { pools.HeldSince(); }
    }

    lemma RingRoom()
      requires Inv()
      ensures pools.tail <= |pools.out| <= pools.tail + cfg.entries && cfg.entries > 0
    {
      hide PoolOk, GpuPool, OutOk, ShardOk;
    }

    /** What a completion does: it finishes, or fails, just the slot it names, if that is with the backend
        in the use it names; otherwise nothing. */
    twostate predicate Answered(cookie: nat, status: int)
      reads pools.pend, pools`place, pools`doneList
    {
      var s := CkSlot(cookie);
      var named := CkShard(cookie) == pools.id && s < |old(pools.place)| && old(pools.place)[s] == AtBackend
                   && s < |old(pools.uses)| && old(pools.uses)[s] % GEN_MOD == CkGen(cookie);
      if named then
        && pools.OnlySlot(s) && s < pools.pend.Length && pools.place[s] == OnDone
        && GsState(pools.pend[s].gs) == StateCode(if status != 0 then ERROR else DONE)
      else
        && pools.place == old(pools.place) && pools.pend[..] == old(pools.pend[..])
        && pools.doneList == old(pools.doneList)
    }

    /** A completion from the backend, whatever it claims. */
    method Completion(cookie: nat, status: int)
      requires Inv()
      modifies pools.pend, pools`doneList, pools`place
      ensures Inv() && Undelivered() && (old(Paced()) ==> Paced()) && Work() <= old(Work())
      ensures Answered(cookie, status)
    {
      hide Pools.Kept, Pools.Served, ShardOk, Travel, CkShard, CkSlot, CkGen, GsState;
      pools.SlotsEach();
      ghost var _ := pools.BackendDone(cookie, status);
    }

    /** The GPU consumes completions or descriptors up to t. */
    method Consumption(t: nat)
      requires Inv() && pools.tail <= t <= |pools.out|
      modifies pools`tail
      ensures Inv() && pools.tail == t && (old(Paced()) ==> Paced()) && Work() == old(Work())
    {
      hide Pools.Kept, Pools.Served, ShardOk;
      pools.Consume(t);
    }

    /** Reads time out and the window is open. */
    predicate Timed() {
      cfg.timeoutNs > 0 && cfg.window > 0
    }

    /** A lap of the consumer that is quiet and finds room at the backend. */
    ghost predicate QuietTurn(v: Event, now: nat)
      reads this, pools`lastScanNs, pools`tail, pools`out, pools`place, pools.pend
    {
      (v.Turn? && v.roomy && Quiet(now)) || (v.Pause? && Timed())
    }

    /** The clock after a pause: every timeout has passed, and what waits has aged. */
    method WaitLong(start: nat) returns (now: nat)
      requires Inv() && Unfinished()
      ensures now >= start && (Timed() ==> Ready(now) && Overdue(now))
    {
      hide Pools.Kept, Pools.Served, ShardOk;
      now := start + pools.lastScanNs + 1_000_000 + oldestNs + cfg.flushNs;
      for s := 0 to pools.pend.Length
        invariant now >= start + pools.lastScanNs + 1_000_000 + oldestNs + cfg.flushNs
        invariant forall k :: 0 <= k < s ==> now - pools.pend[k].issueNs >= cfg.timeoutNs
      {
        now := now + pools.pend[s].issueNs + cfg.timeoutNs;
      }
    }

    /** What has been delivered stays delivered, by the same completion or descriptor. */
    twostate predicate Growing()
      reads pools`out, pools`outJobs
    {
      old(pools.out) <= pools.out && old(pools.outJobs) <= pools.outJobs
    }

    /** The GPU consumes everything, all limits pass, and the consumer makes a lap. */
    method AfterPause(start: nat) returns (now: nat)
      requires Inv() && Paced() && Unfinished() && BucketsFit(cfg) && cfg.entries <= 0x2000_0000
               && start >= pools.lastScanNs
      modifies this, pools.Footprint(), win, scr, htab, rcnt, bkt
      ensures Inv() && Paced() && Unfinished() && Growing() && start <= now && pools.lastScanNs <= now
      ensures pools.doneList == [] && Lapped(now)
              && (cfg.sort != Bucketed ==> Windowed(old(winN), old(winSorted), old(rq), old(oldestNs), now))
      ensures PoppedFrom(cfg.z, old(rq), old(popped), rq, popped)
      ensures Work() <= old(Work()) && (Timed() && old(Work()) > 0 ==> Work() < old(Work()))
    {
      hide Inv, PoppedFrom, BinLap, Travel, Windowed;
      RingRoom();
      Consumption(|pools.out|);
      now := WaitLong(start);
      FitsAlways(now);
      var _ := Lap(now, true);
    }

    /** One event of a schedule, at the time `now`; a pause ends later. */
    method Happen(v: Event, now: nat) returns (later: nat)
      requires Inv() && Paced() && Unfinished() && BucketsFit(cfg) && cfg.entries <= 0x2000_0000
               && now >= pools.lastScanNs
      modifies this, pools.Footprint(), win, scr, htab, rcnt, bkt
      ensures Inv() && Paced() && Unfinished() && Growing() && now <= later && pools.lastScanNs <= later
      ensures PoppedFrom(cfg.z, old(rq) + Arrived([v]), old(popped), rq, popped)
      ensures Work() <= old(Work()) + 6 * |Arrived([v])|
      ensures old(QuietTurn(v, now) && Work() > 0) ==> Work() < old(Work())
      ensures v.Reply? ==> Answered(v.cookie, v.status)
      ensures v.Consumed? ==> pools.tail == if old(pools.tail) <= v.upTo <= |old(pools.out)| then v.upTo
                                            else old(pools.tail)
      ensures v.Turn? || v.Pause? ==>
                pools.doneList == [] && Lapped(later)
                && (cfg.sort != Bucketed ==> Windowed(old(winN), old(winSorted), old(rq), old(oldestNs), later))
    {
      hide Inv, PoppedFrom, Work, BinLap, Quiet, Lapped;
      ArrivedOne(v);
      assert rq + [] == rq;
      StoreHere();
      PoppedNone(cfg.z, rq + Arrived([v]), popped);
      later := now;
      match v {
        case Arrival(r) => Arrive(r);
        case Reply(cookie, status) => Completion(cookie, status);
        case Consumed(t) => if pools.tail <= t <= |pools.out| { Consumption(t); }
        case Turn(_, roomy) =>
          FitsAlways(now);
          var _ := Lap(now, roomy);
        case Pause => later := AfterPause(now);
      }
    }

    /** Any schedule whatever: requests arrive, reads complete, are repeated or get lost, the GPU
        consumes, and laps go by, quiet or not. The quiet laps that find work are bounded by the work
        there was and the requests that came; after as many with none coming, the shard is idle, the
        ring is empty, and everything that was popped or was in the ring has been delivered, once.
        Where reads time out, the lap after a pause is always one of them. */
    method RunDry(h: seq<Event>, start: nat) returns (ghost quiet: nat, ghost busy: nat)
      requires Inv() && Paced() && Unfinished() && BucketsFit(cfg) && cfg.entries <= 0x2000_0000
               && start >= pools.lastScanNs
      modifies this, pools.Footprint(), win, scr, htab, rcnt, bkt
      ensures Inv() && Paced() && Unfinished() && Growing() && StoreOk(cfg.z)
      ensures PoppedFrom(cfg.z, old(rq) + Arrived(h), old(popped), rq, popped)
      ensures 0 <= Work() && Work() + busy <= old(Work()) + 6 * |Arrived(h)|
      ensures Arrived(h) == [] && quiet >= old(Work()) ==> Work() == 0
      ensures Timed() ==> quiet >= Pauses(h)
      ensures Work() == 0 ==> Idle() && rq == [] && popped == old(popped) + Entries(cfg.z, old(rq) + Arrived(h))
                              && multiset(pools.outJobs) == multiset(popped)
    {
      hide Inv, PoppedFrom, Work, Entries, Quiet, Paced, Unfinished, Idle, Arrived, Pauses, BucketsFit, QuietTurn;
      StoreHere();
      PoppedNone(cfg.z, rq, popped);
      quiet, busy := 0, 0;
      var now, i := start, 0;
      ArrivedNone(h);
      assert rq + Arrived(h[..0]) == rq;
      WorkIs();
      while i < |h|
        invariant i <= |h| && Inv() && Paced() && Unfinished() && Growing() && pools.lastScanNs <= now
        invariant PoppedFrom(cfg.z, old(rq) + Arrived(h[..i]), old(popped), rq, popped)
        invariant 0 <= Work() && Work() + busy <= old(Work()) + 6 * |Arrived(h[..i])|
        invariant busy <= quiet && (Arrived(h[..i]) == [] && Work() > 0 ==> busy == quiet)
        invariant Timed() ==> quiet >= Pauses(h[..i])
      {
        if h[i].Turn? { now := now + h[i].wait; }
        PauseIsQuiet(h[i], now);
        if QuietTurn(h[i], now) {
          quiet := quiet + 1;
          if Work() > 0 { busy := busy + 1; }
        }
        ghost var rq1, popped1 := rq, popped;
        now := Happen(h[i], now);
        ArrivedNext(h, i);
        assert old(rq) + Arrived(h[..i]) + Arrived([h[i]]) == old(rq) + Arrived(h[..i + 1]);
        PoppedLater(cfg.z, old(rq) + Arrived(h[..i]), old(popped), rq1, popped1, Arrived([h[i]]), rq, popped);
        WorkIs();
        i := i + 1;
      }
      assert h[..i] == h;
      if Work() == 0 {
        AtRest();
        PoppedAll(cfg.z, old(rq) + Arrived(h), old(popped), popped);
        IdleDelivered();
      }
    }

    lemma PauseIsQuiet(v: Event, now: nat)
      ensures v.Pause? && Timed() ==> QuietTurn(v, now)
    {
    }

    lemma WorkIs()
      requires Inv()
      ensures Work() == 5 * Load() + |rq| + Travel(pools.place) && Load() >= |rq|
    {
      hide Inv, Travel;
      PosWithin();
    }

    /** Nothing to do means idle. */
    lemma AtRest()
      requires Inv() && Unfinished() && Work() == 0
      ensures Idle() && rq == []
    {
      hide Pools.Kept, Pools.Served, ShardOk, Travel;
      PosZero();
      pools.HomeFree();
      pools.ListsEmpty();
    }

    // ---- what a run guarantees ----

    /** co_shard_idle. */
    predicate Idle()
      reads this, pools
    {
      winN == 0 && pools.pendFreeN == pools.pend.Length && pools.doneList == [] && pools.pendReturn == []
          && bktTotal == 0
    }

    /** Once the shard is idle, the requests delivered are exactly the requests popped, each once: the
        i-th delivery answers outJobs[i], under its own identity and with its own row (`CoState.Told`). */
    lemma IdleDelivered()
      requires Inv() && Idle()
      ensures multiset(pools.outJobs) == multiset(popped)
      ensures OutOk(cfg.z, cfg.gpuPull, cfg.mapped, pools.out, pools.outJobs)
      ensures |pools.out| == |popped| == reqsIn == uniquePages + pageMerges
    {
      hide Pools.Kept, Pools.Served, ShardOk, OutOk;
      pools.NothingOwed();
      IdleShard(cfg, WinV(), pools.Served());
      KeptOut();
      assert |multiset(pools.outJobs)| == |multiset(popped)|;
    }

    /** Between windows, the reads made (accepted or refused) are the distinct pages of the windows
        issued, in every mode that sorts; at least as many in the hash mode; one per request when
        merging is off. */
    lemma ReadsArePages()
      requires Inv() && issuePos == 0
      ensures reqsIn == uniquePages + pageMerges
      ensures cfg.noMerge ==> runs == reqsIn
      ensures !cfg.noMerge ==> (if cfg.sort != Hashed then runs == uniquePages else runs >= uniquePages)
    {
      assert win[..0] == [];
    }

    /** At any time, no request has been delivered more often than it was popped. */
    lemma NeverTwice(e: Ent)
      requires Inv()
      ensures multiset(pools.outJobs)[e] <= multiset(popped)[e]
    {
      hide Pools.Kept, Sum, Contents, Waits, WinOk, BinsOk, CountOk;
    }

    lemma KeptOut()
      requires Inv()
      ensures OutOk(cfg.z, cfg.gpuPull, cfg.mapped, pools.out, pools.outJobs) && |pools.out| == |pools.outJobs|
    {
      hide PoolOk, GpuPool, ShardOk;
    }

    lemma CreditsShort(run: nat)
      requires Apart() && pools.Kept() && run <= win.Length && (pools.pendFreeN == 0 || pools.wfreeN < run)
      ensures pools.pendFreeN < pools.pend.Length
    {
      hide PoolOk, GpuPool, OutOk, Pools.PoolV;
      if pools.pendFreeN == pools.pend.Length { pools.CreditsFree(); }
    }
  }

  // ---- schedules ----

  /** What can happen: a request arrives, the backend answers a read (any cookie, any number of
      times), the GPU consumes, the consumer makes a lap, some time after the one before, with or
      without room at the backend, or for long enough nothing but the GPU and then one lap. */
  datatype Event =
    | Arrival(r: Req)
    | Reply(cookie: nat, status: int)
    | Consumed(upTo: nat)
    | Turn(wait: nat, roomy: bool)
    | Pause

  function Pauses(h: seq<Event>): nat {
    if h == [] then 0 else Pauses(h[..|h| - 1]) + (if h[|h| - 1].Pause? then 1 else 0)
  }

  /** The requests that arrive, in order. */
  function Arrived(h: seq<Event>): seq<Req> {
    if h == [] then []
    else Arrived(h[..|h| - 1]) + (if h[|h| - 1].Arrival? then [h[|h| - 1].r] else [])
  }

  lemma ArrivedNone(h: seq<Event>)
    ensures Arrived(h[..0]) == [] && Pauses(h[..0]) == 0
  {
  }

  lemma ArrivedOne(v: Event)
    ensures Arrived([v]) == if v.Arrival? then [v.r] else []
  {
    assert [v][..0] == [];
  }

  lemma ArrivedNext(h: seq<Event>, i: nat)
    requires i < |h|
    ensures Arrived(h[..i + 1]) == Arrived(h[..i]) + Arrived([h[i]])
    ensures Pauses(h[..i + 1]) == Pauses(h[..i]) + (if h[i].Pause? then 1 else 0)
  {
    assert h[..i + 1][..i] == h[..i] && [h[i]][..0] == [];
    assert Arrived([]) + Arrived([h[i]]) == Arrived([h[i]]);
  }

  // ---- small facts about the window ----

  /** The entries requests become, in order. */
  function Entries(z: Store, rs: seq<Req>): (r: seq<Ent>)
    requires StoreOk(z)
    ensures |r| == |rs|
  {
    if rs == [] then [] else Entries(z, rs[..|rs| - 1]) + [Entry(z, rs[|rs| - 1])]
  }

  /** A prefix of the ring has been popped, in order, and nothing else. */
  ghost predicate PoppedFrom(z: Store, rq: seq<Req>, popped: seq<Ent>, rq': seq<Req>, popped': seq<Ent>) {
    && StoreOk(z) && |rq'| <= |rq| && rq' == rq[|rq| - |rq'|..]
    && popped' == popped + Entries(z, rq[..|rq| - |rq'|])
  }

  lemma PoppedNone(z: Store, rq: seq<Req>, popped: seq<Ent>)
    requires StoreOk(z)
    ensures PoppedFrom(z, rq, popped, rq, popped)
  {
    assert rq[..0] == [];
  }

  lemma {:induction false} EntriesConcat(z: Store, a: seq<Req>, b: seq<Req>)
    requires StoreOk(z)
    ensures Entries(z, a + b) == Entries(z, a) + Entries(z, b)
  {
    if b == [] {
      assert a + b == a;
    } else {
      var n := |b| - 1;
      assert (a + b)[..|a| + n] == a + b[..n];
      EntriesConcat(z, a, b[..n]);
    }
  }

  /** Popping goes on where it left off. */
  lemma PoppedThen(z: Store, rq: seq<Req>, popped: seq<Ent>, rq': seq<Req>, popped': seq<Ent>, rq'': seq<Req>,
                   popped'': seq<Ent>)
    requires PoppedFrom(z, rq, popped, rq', popped') && PoppedFrom(z, rq', popped', rq'', popped'')
    ensures PoppedFrom(z, rq, popped, rq'', popped'')
  {
    hide Entries, StoreOk;
    var i, j := |rq| - |rq'|, |rq'| - |rq''|;
    assert rq[..i + j] == rq[..i] + rq'[..j];
    EntriesConcat(z, rq[..i], rq'[..j]);
  }

  /** More has arrived, and popping goes on. */
  lemma PoppedLater(z: Store, rq: seq<Req>, popped: seq<Ent>, rq': seq<Req>, popped': seq<Ent>, more: seq<Req>,
                    rq'': seq<Req>, popped'': seq<Ent>)
    requires PoppedFrom(z, rq, popped, rq', popped') && PoppedFrom(z, rq' + more, popped', rq'', popped'')
    ensures PoppedFrom(z, rq + more, popped, rq'', popped'')
  {
    var k := |rq| - |rq'|;
    assert (rq + more)[..k] == rq[..k] && (rq + more)[k..] == rq' + more;
    PoppedThen(z, rq + more, popped, rq' + more, popped', rq'', popped'');
  }

  lemma PoppedAll(z: Store, rq: seq<Req>, popped: seq<Ent>, popped': seq<Ent>)
    requires PoppedFrom(z, rq, popped, [], popped')
    ensures StoreOk(z) && popped' == popped + Entries(z, rq)
  {
    assert rq[..|rq|] == rq;
  }

  lemma PoppedMore(z: Store, rq: seq<Req>, popped: seq<Ent>, rq': seq<Req>, popped': seq<Ent>)
    requires PoppedFrom(z, rq, popped, rq', popped') && rq' != []
    ensures StoreOk(z) && PoppedFrom(z, rq, popped, rq'[1..], popped' + [Entry(z, rq'[0])])
  {
    var k := |rq| - |rq'|;
    var front := rq[..k + 1];
    assert front[..|front| - 1] == rq[..k] && front[|front| - 1] == rq'[0];
    assert rq'[1..] == rq[k + 1..];
  }

  lemma EntryOk(z: Store, r: Req)
    requires StoreOk(z) && r.node < 0x1_0000_0000
    ensures EntOk(z, Entry(z, r))
  {
  }

  /** The window holds well-formed entries; sealed, it is sorted (but for the hash mode) with its
      distinct pages counted; it is issued up to a page boundary. */
  ghost predicate WinOk(c: Config, win: seq<Ent>, n: nat, pos: nat, sorted: bool, uniq: nat) {
    && pos <= n <= |win| && EntsOk(c.z, win[..n])
    && (sorted ==> uniq == |Tags(win[..n])| && (c.sort != Hashed ==> SortedByTag(win[..n])))
    && (!sorted ==> pos == 0)
    && (!c.noMerge && 0 < pos < n ==> win[pos].tag != win[pos - 1].tag)
  }

  ghost function Waits(win: seq<Ent>, pos: nat, n: nat): multiset<Ent> {
    if pos <= n <= |win| then multiset(win[pos..n]) else multiset{}
  }

  /** Requests charged are pages plus merges. Runs passed are, without merging, the requests; in
      a sorted mode, the pages charged and the runs of the window so far; in the hash mode at
      least as many. */
  ghost predicate CountOk(c: Config, win: seq<Ent>, pos: nat, reqs: nat, pages: nat, merges: nat, runs: nat) {
    && pos <= |win| && reqs == pages + merges
    && (if c.noMerge then runs == reqs + pos
        else if c.sort != Hashed then runs == pages + Runs(win[..pos])
        else runs >= pages + Runs(win[..pos]))
  }

  /** Buckets hold entries of their own pages, within capacity, and the total is kept. */
  ghost predicate BinsOk(c: Config, bkt: seq<seq<Ent>>, total: nat) {
    && |bkt| == c.buckets && total == |Sum(Contents(bkt))| && (c.sort != Bucketed ==> total == 0)
    && forall b :: 0 <= b < |bkt| ==> |bkt[b]| <= c.bucketCap && EntsOk(c.z, bkt[b]) && InBucket(c, bkt[b], b)
  }

  lemma ConfigStore(c: Config)
    requires ConfigOk(c)
    ensures StoreOk(c.z) && c.window <= c.entries && c.z.page > 0
  {
  }

  // ---- the window as a value ----

  datatype Win = Win(win: seq<Ent>, n: nat, pos: nat, sorted: bool, uniq: nat, bins: seq<seq<Ent>>, total: nat,
                     reqs: nat, pages: nat, merges: nat, runs: nat, popped: seq<Ent>)

  /** Shape, counts, buckets, and the balance: every request popped is delivered, owed by a slot,
      waiting in the window or binned. */
  ghost predicate ShardOk(c: Config, w: Win, served: multiset<Ent>) {
    && WinOk(c, w.win, w.n, w.pos, w.sorted, w.uniq) && BinsOk(c, w.bins, w.total)
    && CountOk(c, w.win, w.pos, w.reqs, w.pages, w.merges, w.runs)
    && multiset(w.popped) == served + Waits(w.win, w.pos, w.n) + Sum(Contents(w.bins))
    && |w.popped| == w.reqs + w.n + w.total
  }

  lemma StartOk(c: Config, w: Win)
    requires ConfigOk(c) && w == Win(w.win, 0, 0, false, 0, w.bins, 0, 0, 0, 0, 0, [])
    requires |w.bins| == c.buckets && forall b :: 0 <= b < |w.bins| ==> w.bins[b] == []
    ensures ShardOk(c, w, multiset{})
  {
    SumEmpty(Contents(w.bins));
    assert w.win[..0] == [] && w.win[0..0] == [];
  }

  function Take(w: Win, e: Ent): Win
    requires w.n < |w.win|
  {
    w.(win := w.win[w.n := e], n := w.n + 1, popped := w.popped + [e])
  }

  lemma TakeKeeps(c: Config, w: Win, served: multiset<Ent>, e: Ent)
    requires ShardOk(c, w, served) && !w.sorted && w.n < |w.win| && EntOk(c.z, e)
    ensures ShardOk(c, Take(w, e), served)
  {
    hide EntOk, BinsOk, Sum, Contents;
    var w' := Take(w, e);
    assert w'.win[..w.n + 1] == w.win[..w.n] + [e] && w'.win[0..w.n + 1] == w.win[0..w.n] + [e];
    assert w'.win[..w.pos] == w.win[..w.pos];
  }

  lemma Unsealed(c: Config, w: Win, served: multiset<Ent>)
    requires ShardOk(c, w, served) && !w.sorted
    ensures w.pos == 0 && w.n <= |w.win| && EntsOk(c.z, w.win[..w.n])
  {
  }

  lemma TagsSmall(z: Store, s: seq<Ent>)
    requires EntsOk(z, s)
    ensures forall i :: 0 <= i < |s| ==> s[i].tag < EMPTY
  {
    forall i | 0 <= i < |s| ensures s[i].tag < EMPTY {
      assert s[i] in s;
      Arith.MulMono(s[i].node, 0x1_0000_0000, z.row);
    }
  }

  /** Rearranging and counting seals the window; what waits is unchanged. */
  lemma SealKeeps(c: Config, w: Win, served: multiset<Ent>, win': seq<Ent>, uniq: nat)
    requires ShardOk(c, w, served) && !w.sorted && w.n <= |w.win| == |win'|
             && multiset(win'[..w.n]) == multiset(w.win[..w.n])
    requires uniq == |Tags(win'[..w.n])| && (c.sort != Hashed ==> SortedByTag(win'[..w.n]))
    ensures ShardOk(c, w.(win := win', uniq := uniq, pos := 0, sorted := true), served)
  {
    hide BinsOk, Sum, Contents, EntOk;
    assert w.win[0..w.n] == w.win[..w.n] && win'[0..w.n] == win'[..w.n] && win'[..0] == w.win[..0];
    forall e | e in win'[..w.n] ensures EntOk(c.z, e) {
      assert e in multiset(win'[..w.n]);
      assert e in w.win[..w.n];
    }
  }

  /** The window has grown from n0 requests to n, by the first ones of the ring rq0; the age of an empty
      one is that of its first request. */
  predicate Taken(n0: nat, rq0: seq<Req>, oldest0: nat, now: nat, n: nat, rq: seq<Req>, oldest: nat) {
    n0 <= n <= n0 + |rq0| && rq == rq0[n - n0..] && oldest == if n0 == 0 && n > 0 then now else oldest0
  }

  /** How many requests the window holds once it has been filled from a ring of `more`. */
  function FilledTo(c: Config, n: nat, more: nat): nat {
    if n + more <= c.window then n + more else if n <= c.window then c.window else n
  }

  /** A window filled from the ring; it is to be sealed exactly when it is full, has aged, or the ring is
      empty and it holds enough. */
  predicate Filled(c: Config, n0: nat, rq0: seq<Req>, oldest0: nat, now: nat, n: nat, rq: seq<Req>, oldest: nat,
                   seals: bool)
  {
    && n == FilledTo(c, n0, |rq0|) && Taken(n0, rq0, oldest0, now, n, rq, oldest)
    && (seals <==> n > 0 && (n >= c.window || now - oldest >= c.flushNs || (rq == [] && n >= c.flushMin)))
  }

  lemma FilledIs(c: Config, n0: nat, rq0: seq<Req>, oldest0: nat, now: nat, n: nat, rq: seq<Req>, oldest: nat,
                 seals: bool)
    requires Filled(c, n0, rq0, oldest0, now, n, rq, oldest, seals)
    ensures n0 <= n && |rq| + n == |rq0| + n0 && (seals ==> n > 0) && (rq0 == [] ==> n == n0)
    ensures now - oldest0 >= c.flushNs && c.window > 0 ==> seals || |rq| < |rq0| || (n == 0 && rq == [])
  {
  }

  lemma TakenNone(n: nat, rq: seq<Req>, oldest: nat, now: nat)
    ensures Taken(n, rq, oldest, now, n, rq, oldest)
  {
  }

  lemma TakenMore(n0: nat, rq0: seq<Req>, oldest0: nat, now: nat, n: nat, rq: seq<Req>, oldest: nat)
    requires Taken(n0, rq0, oldest0, now, n, rq, oldest) && rq != []
    ensures Taken(n0, rq0, oldest0, now, n + 1, rq[1..], if n == 0 then now else oldest)
  {
  }

  lemma TakenLength(n0: nat, rq0: seq<Req>, oldest0: nat, now: nat, n: nat, rq: seq<Req>, oldest: nat)
    requires Taken(n0, rq0, oldest0, now, n, rq, oldest)
    ensures n0 <= n && |rq| + n == |rq0| + n0
  {
  }

  /** A run of one page that cannot be extended; without merging, a single request. */
  predicate MaximalRun(c: Config, win: seq<Ent>, n: nat, i: nat, run: nat) {
    && 0 < run && i + run <= n <= |win|
    && (forall j :: i <= j < i + run ==> win[j].tag == win[i].tag)
    && (if c.noMerge then run == 1 else i + run < n ==> win[i + run].tag != win[i].tag)
  }

  /** There is only one. */
  lemma OneRun(c: Config, win: seq<Ent>, n: nat, i: nat, run: nat)
    requires MaximalRun(c, win, n, i, run)
    ensures forall r: nat :: MaximalRun(c, win, n, i, r) ==> r == run
  {
  }

  lemma WinShape(c: Config, w: Win, served: multiset<Ent>)
    requires ShardOk(c, w, served)
    ensures w.pos <= w.n <= |w.win|
  {
  }

  lemma RunFits(z: Store, win: seq<Ent>, i: nat, run: nat)
    requires RunOf(z, win, i, run)
    ensures i + run <= |win|
  {
  }

  lemma RunFacts(c: Config, w: Win, served: multiset<Ent>, run: nat)
    requires ShardOk(c, w, served) && MaximalRun(c, w.win, w.n, w.pos, run)
    ensures w.pos + run <= |w.win| && forall j :: w.pos <= j < w.pos + run ==>
                                        EntOk(c.z, w.win[j]) && w.win[j].tag == w.win[w.pos].tag
  {
    forall j | w.pos <= j < w.pos + run ensures EntOk(c.z, w.win[j]) { assert w.win[j] == w.win[..w.n][j]; }
  }

  function Advanced(w: Win, run: nat): Win {
    w.(pos := w.pos + run, runs := w.runs + 1)
  }

  lemma WinAdvance(c: Config, win: seq<Ent>, n: nat, i: nat, run: nat, uniq: nat)
    requires WinOk(c, win, n, i, true, uniq) && MaximalRun(c, win, n, i, run)
    ensures WinOk(c, win, n, i + run, true, uniq)
  {
    hide EntsOk, Tags, SortedByTag;
  }

  lemma CountAdvance(c: Config, win: seq<Ent>, n: nat, i: nat, run: nat, uniq: nat, reqs: nat, pages: nat, merges: nat,
                     runs: nat)
    requires WinOk(c, win, n, i, true, uniq) && MaximalRun(c, win, n, i, run)
             && CountOk(c, win, i, reqs, pages, merges, runs)
    ensures CountOk(c, win, i + run, reqs, pages, merges, runs + 1)
  {
    hide EntsOk, Tags, SortedByTag, Runs;
    if !c.noMerge { RunsStep(win, i, run); }
  }

  lemma WaitsAdvance(win: seq<Ent>, n: nat, i: nat, run: nat)
    requires i + run <= n <= |win|
    ensures Waits(win, i, n) == multiset(win[i..i + run]) + Waits(win, i + run, n)
  {
    assert win[i..n] == win[i..i + run] + win[i + run..n];
  }

  /** Passing a run, its requests served: the window stays sound and one run is counted. */
  lemma AdvanceKeeps(c: Config, w: Win, served: multiset<Ent>, run: nat)
    requires ShardOk(c, w, served) && w.sorted && MaximalRun(c, w.win, w.n, w.pos, run)
    ensures w.pos + run <= |w.win| && ShardOk(c, Advanced(w, run), served + multiset(w.win[w.pos..w.pos + run]))
  {
    hide BinsOk, Sum, Contents, WinOk, CountOk, Waits;
    WinAdvance(c, w.win, w.n, w.pos, run, w.uniq);
    CountAdvance(c, w.win, w.n, w.pos, run, w.uniq, w.reqs, w.pages, w.merges, w.runs);
    WaitsAdvance(w.win, w.n, w.pos, run);
  }

  /** A window issued to its end is charged: its pages, and its requests less its pages as merges. */
  lemma ChargeKeeps(c: Config, w: Win, served: multiset<Ent>)
    requires ShardOk(c, w, served) && w.sorted && w.pos == w.n
    ensures w.uniq <= w.n
    ensures ShardOk(c, w.(reqs := w.reqs + w.n, pages := w.pages + w.uniq, merges := w.merges + (w.n - w.uniq),
                          n := 0, pos := 0, sorted := false), served)
  {
    hide BinsOk, Sum, Contents;
    RunsAndPages(w.win[..w.n]);
    if c.sort != Hashed { SortedGrouped(w.win[..w.n]); }
    assert w.win[w.n..w.n] == [] && w.win[0..0] == [] && w.win[..0] == [];
  }

  function BinnedIn(w: Win, b: nat, e: Ent): Win
    requires b < |w.bins|
  {
    w.(bins := w.bins[b := w.bins[b] + [e]], total := w.total + 1, popped := w.popped + [e])
  }

  lemma {:induction false} ContentsSet(bins: seq<seq<Ent>>, b: nat, x: seq<Ent>)
    requires b < |bins|
    ensures Contents(bins[b := x]) == Contents(bins)[b := multiset(x)]
  {
  }

  /** Changing one bucket changes what is binned by just that much. */
  lemma SumContents(bins: seq<seq<Ent>>, b: nat, x: seq<Ent>)
    requires b < |bins|
    ensures Sum(Contents(bins[b := x])) + multiset(bins[b]) == Sum(Contents(bins)) + multiset(x)
  {
    ContentsSet(bins, b, x);
    SumUpdate(Contents(bins), b, multiset(x));
  }

  lemma SumAdd(bins: seq<seq<Ent>>, b: nat, e: Ent)
    requires b < |bins|
    ensures Sum(Contents(bins[b := bins[b] + [e]])) == Sum(Contents(bins)) + multiset{e}
  {
    hide Sum, Contents;
    SumContents(bins, b, bins[b] + [e]);
    assert multiset(bins[b] + [e]) == multiset(bins[b]) + multiset{e};
    Cancel(Sum(Contents(bins[b := bins[b] + [e]])), Sum(Contents(bins)), multiset(bins[b]), multiset{e});
  }

  lemma Cancel(x: multiset<Ent>, y: multiset<Ent>, m: multiset<Ent>, d: multiset<Ent>)
    requires x + m == y + (m + d)
    ensures x == y + d
  {
    forall e: Ent ensures x[e] == (y + d)[e] { assert (x + m)[e] == (y + (m + d))[e]; }
  }

  lemma BinKeeps(c: Config, w: Win, served: multiset<Ent>, b: nat, e: Ent)
    requires ConfigOk(c) && c.sort == Bucketed && ShardOk(c, w, served) && EntOk(c.z, e) && b == BucketOf(c, e.tag)
    requires b < |w.bins| && |w.bins[b]| < c.bucketCap
    ensures ShardOk(c, BinnedIn(w, b, e), served)
  {
    hide WinOk, CountOk, EntOk, Sum, Contents, BucketOf, Waits;
    SumAdd(w.bins, b, e);
  }

  lemma BucketFits(c: Config, w: Win, served: multiset<Ent>, b: nat)
    requires ConfigOk(c) && ShardOk(c, w, served) && b < |w.bins|
    ensures |w.bins[b]| <= c.bucketCap && |w.bins[b]| <= w.total && EntsOk(c.z, w.bins[b])
  {
    SumContents(w.bins, b, []);
    assert |multiset(w.bins[b])| == |w.bins[b]|;
    assert |Sum(Contents(w.bins[b := []])) + multiset(w.bins[b])| == |Sum(Contents(w.bins))|;
  }

  /** A bucket sorted into the empty window: what was binned there now waits. */
  lemma EvictKeeps(c: Config, w: Win, served: multiset<Ent>, b: nat, win': seq<Ent>, uniq: nat)
    requires ShardOk(c, w, served) && !w.sorted && w.n == 0 && b < |w.bins| && |w.bins[b]| <= |win'|
             && |w.bins[b]| <= w.total
    requires multiset(win'[..|w.bins[b]|]) == multiset(w.bins[b]) && uniq == |Tags(win'[..|w.bins[b]|])|
             && SortedByTag(win'[..|w.bins[b]|])
    ensures ShardOk(c, w.(win := win', n := |w.bins[b]|, pos := 0, sorted := true, uniq := uniq,
                          bins := w.bins[b := []],
                          total := w.total - |w.bins[b]|), served)
  {
    hide Sum, Contents, EntOk, BucketOf, Tags;
    var n := |w.bins[b]|;
    SumContents(w.bins, b, []);
    assert win'[0..n] == win'[..n] && win'[..0] == w.win[..0] == [] && w.win[0..0] == [];
    forall e | e in win'[..n] ensures EntOk(c.z, e) {
      assert e in multiset(win'[..n]);
      assert e in w.bins[b];
    }
    var rest, all := Sum(Contents(w.bins[b := []])), Sum(Contents(w.bins));
    assert rest + multiset(w.bins[b]) == all;
    assert |rest| + |multiset(w.bins[b])| == |all|;
    assert multiset(w.popped) == (served + multiset(win'[0..n])) + rest;
  }

  lemma IdleShard(c: Config, w: Win, served: multiset<Ent>)
    requires ShardOk(c, w, served) && w.n == 0 && w.total == 0
    ensures multiset(w.popped) == served && |w.popped| == w.reqs == w.pages + w.merges
  {
    assert w.pos == 0 && w.win[0..0] == [];
    assert |Sum(Contents(w.bins))| == 0;
    assert Sum(Contents(w.bins)) == multiset{};
  }

  /** What a run put off, or passed, leaves. */
  lemma AfterRun(c: Config, w: Win, served: multiset<Ent>, run: nat)
    requires ShardOk(c, w, served) && w.sorted && MaximalRun(c, w.win, w.n, w.pos, run)
    ensures w.pos + run <= |w.win| && ShardOk(c, w, served + multiset{})
    ensures ShardOk(c, Advanced(w, run), served + multiset(w.win[w.pos..w.pos + run]))
  {
    hide ShardOk;
    AdvanceKeeps(c, w, served, run);
    assert served + multiset{} == served;
  }

}

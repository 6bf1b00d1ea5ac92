/** Whole runs of a host that writes page after page: each write, with whatever collection it brings
    about, as one step of the instance's state, and what that step does to the tally of the lines. */
module FtlHost {
  import opened Collections
  import opened Wrappers
  import opened Geometry
  import opened FtlState
  import opened FtlSteps
  import opened FtlGc
  import opened FtlGcLoop
  import opened FtlWrite
  import opened FtlInstance
  import opened FtlTally

  /** Which of the queued lines with fewest valid pages heads the queue: it may depend on everything
      written so far. */
  type Pick = (seq<nat>, Ftl) -> nat

  ghost predicate PicksLeast(pick: Pick) {
    forall h: seq<nat>, s: Ftl :: Heads(s, pick(h, s))
  }

  /** The loop body of a host write, the pages h having been written, this one included. */
  ghost function HostWrite(g: SsdParams, y: Layout, pick: Pick, h: seq<nat>, s: Ftl, lpn: nat): Outcome
    requires GeometryOk(g)
  {
    match PutPage(g, y, s, lpn, 0)
    case NoLine => NoLine
    case Went(t) => Refilled(g, y, pick(h, t), t)
  }

  /** A new instance after the writes of w, in turn. */
  ghost function HostRun(g: SsdParams, y: Layout, pick: Pick, w: seq<nat>): Outcome
    requires GeometryOk(g)
  {
    if w == [] then Went(Initial(g))
    else
      match HostRun(g, y, pick, w[..|w| - 1])
      case NoLine => NoLine
      case Went(s) => HostWrite(g, y, pick, w, s, w[|w| - 1])
  }

  // ---- the tally of a state ----

  ghost function TallyOf(y: Layout, s: Ftl, n: nat): Tally {
    Tally(s.vpc, s.free, s.wp.curline, Pos(y, s.wp), s.gc.curline, Pos(y, s.gc), s.credits, s.refill, n)
  }

  /** A line is closed when it is on the full list or queued; queued, it has an invalid page. */
  lemma ClosedLines(y: Layout, s: Ftl, u: nat, k: nat, n: nat, l: nat)
    requires Core(y, s, -1, -1, u, k)
    ensures |s.vpc| == |s.ipc| == y.lines && (l in s.victims ==> l < y.lines)
    ensures Closed(TallyOf(y, s, n), l) <==> l in s.full || l in s.victims
    ensures l in s.victims <==> Closed(TallyOf(y, s, n), l) && s.vpc[l] < y.perLine
    ensures Closed(TallyOf(y, s, n), l) ==> 0 <= s.vpc[l] <= y.perLine && s.ipc[l] == y.perLine - s.vpc[l]
  {
    if l < y.lines {
      assert Places(ListsOf(s), l) == 1;
      assert LineFillOk(y.perLine, ListsOf(s), l, s.vpc[l], s.ipc[l], u, k);
    }
  }

  // ---- the write itself ----

  /** The host writes a stored page that lies on line l, or (l is -1) one that is not stored. */
  ghost predicate LeavesLine(s: Ftl, lpn: nat, l: int) {
    lpn < |s.maptbl| && match s.maptbl[lpn] case None => l == -1 case Some(p) => p.blk == l
  }

  /** With the old page invalid, the page can be programmed. */
  lemma Overwritten(y: Layout, s: Ftl, u: nat, k: nat, lpn: nat, l: int)
    requires LayoutOk(y) && Core(y, s, -1, -1, u, k) && u < y.perLine && k < y.perLine && PointerAt(y, s, UserIo, u)
    requires LeavesLine(s, lpn, l)
    ensures var s1 := Overwrite(y, s, lpn);
            && CanProgram(y, s1, -1, lpn, u, k, UserIo, lpn) && s1.maptbl == s.maptbl && s1.wp == s.wp
            && s1.gc == s.gc && s1.free == s.free && s1.credits == s.credits && s1.refill == s.refill
            && |s.vpc| == y.lines && l < y.lines && s1.vpc == if l < 0 then s.vpc else s.vpc[l := s.vpc[l] - 1]
  {
    hide Core, LayoutOk, CanProgram, Contents, MarkInvalid;
    OpenBelow(y, s, u, k);
    match s.maptbl[lpn] {
      case None => Unmapped(y, s, u, k, lpn);
      case Some(p) =>
        OldPage(y, s, u, k, lpn, p);
        InvalidateKeeps(y, s, u, k, lpn, p);
        MarkedParts(y, s, u, k, p);
        Invalidated(y, s, Overwrite(y, s, lpn), u, k, lpn, p);
    }
  }

  lemma MarkedParts(y: Layout, s: Ftl, u: nat, k: nat, p: Ppa)
    requires Core(y, s, -1, -1, u, k) && p in s.nand && BlkOf(p) in s.bvpc && BlkOf(p) in s.bipc && p.blk < y.lines
    ensures Known(s, p) && |s.vpc| == y.lines
    ensures var s1 := MarkInvalid(y, s, p);
            && s1.maptbl == s.maptbl && s1.wp == s.wp && s1.gc == s.gc && s1.free == s.free
            && s1.credits == s.credits && s1.refill == s.refill && s1.rev == s.rev
            && s1.vpc == s.vpc[p.blk := s.vpc[p.blk] - 1]
  {
    hide MapOk, RevOk, CountsOk, BlkCountsOk, LinesOk, StatusOk, FillOk;
  }

  /** Programming and advancing, in terms of the tally. */
  lemma WriteTally(g: SsdParams, y: Layout, s1: Ftl, lpn: nat, u: nat, k: nat, n: nat)
    requires GeometryOk(g) && LayoutFor(g, y) && LayoutOk(y) && CanProgram(y, s1, -1, lpn, u, k, UserIo, lpn)
    requires PointerAt(y, s1, GcIo, k) && s1.wp.curline < |s1.vpc|
    ensures CanWrite(g, s1, lpn) <==> !(u + 1 == y.perLine && s1.free == [])
    ensures CanWrite(g, s1, lpn) ==>
              var s2 := Write(g, y, s1, lpn, 0);
              && (if u + 1 == y.perLine then s1.free != [] && s2.free == s1.free[1..] && s2.wp.curline == s1.free[0]
                  else s2.free == s1.free && s2.wp.curline == s1.wp.curline)
              && Core(y, s2, -1, -1, Pos(y, s2.wp), Pos(y, s2.gc)) && PageAt(s2.wp) in y.visit
                  && PageAt(s2.gc) in y.visit
              && Pos(y, s2.wp) == (if u + 1 == y.perLine then 0 else u + 1) && s2.gc == s1.gc
              && s2.vpc == s1.vpc[s1.wp.curline := s1.vpc[s1.wp.curline] + 1]
              && s2.credits == s1.credits && s2.refill == s1.refill
              && s2.maptbl == s1.maptbl[lpn := Some(PageAt(s1.wp))]
              && Reserve(y, s2) == Room(y, s1, u, k) - 1 && OpenUsed(y, s2)
  {
    hide GeometryOk, LayoutFor, LayoutOk, Core, NextCoord, OpenUsed;
    ProgramKeeps(y, s1, -1, lpn, u, k, UserIo, lpn, 0);
    var s2 := Program(s1, lpn, PageAt(s1.wp), 0);
    StepFor(g, y, s2, UserIo);
    var (c, closed) := NextCoord(g, s1.wp.at);
    if !closed || s1.free != [] {
      if closed { FirstFree(y, s2, -1, u + 1, k); }
      AdvanceKeeps(y, s2, -1, u + 1, k, UserIo, c, closed);
      LastWritten(y, s1, s2, lpn, 0, u + 1, c, closed);
      AdvanceParts(y, s2, UserIo, c, closed);
      PointerMoves(y, s2, UserIo, c, closed);
    }
  }

  lemma PointerMoves(y: Layout, s: Ftl, io: IoType, n: Coord, closed: bool)
    requires closed ==> s.free != [] && Pointer(s, io).curline < |s.vpc|
    ensures var t := Advance(y, s, io, n, closed);
            && Pointer(t, io) == WritePointer(if closed then s.free[0] else Pointer(s, io).curline, n)
            && (if io.UserIo? then t.gc == s.gc else t.wp == s.wp)
            && t.free == if closed then s.free[1..] else s.free
  {
  }

  /** What a write does to the tally, and that it keeps the invariant. */
  lemma PutTally(g: SsdParams, y: Layout, s: Ftl, lpn: nat, l: int, most: nat, n: nat)
    requires GeometryOk(g) && LayoutFor(g, y) && LayoutOk(y) && Settled(y, s, most) && LeavesLine(s, lpn, l)
    requires lpn in Mapped(s.maptbl) || |Mapped(s.maptbl)| < most
    ensures l < |s.vpc| && s.wp.curline < |s.vpc|
    ensures match PutPage(g, y, s, lpn, 0)
            case NoLine => Put(y.perLine, TallyOf(y, s, n), l).None?
            case Went(t) =>
              && Put(y.perLine, TallyOf(y, s, n), l) == Some(TallyOf(y, t, if l < 0 then n + 1 else n))
              && Settled(y, t, most) && Mapped(t.maptbl) == Mapped(s.maptbl) + {lpn} && |t.maptbl| == |s.maptbl|
              && Reserve(y, t) == Reserve(y, s) - 1 && OpenUsed(y, t) && t.credits == s.credits - 1
              && t.refill == s.refill
  {
    hide GeometryOk, LayoutFor, LayoutOk, Core, Contents, CanProgram, CanWrite, Write, Overwrite, InCapacity, OpenUsed;
    var u, k := Pos(y, s.wp), Pos(y, s.gc);
    PointersInLine(y, s);
    Overwritten(y, s, u, k, lpn, l);
    OpenBelow(y, s, u, k);
    var s1 := Overwrite(y, s, lpn);
    WriteTally(g, y, s1, lpn, u, k, n);
    if CanWrite(g, s1, lpn) {
      var s2 := Write(g, y, s1, lpn, 0);
      StoredMore(s.maptbl, lpn, PageAt(s1.wp), most);
      MappedSet(s.maptbl, lpn, PageAt(s1.wp));
      SettledRefilled(y, s2, s2.(credits := s2.credits - 1), most);
      OpenStays(y, s2, s2.(credits := s2.credits - 1));
    }
  }

  lemma OpenBelow(y: Layout, s: Ftl, u: nat, k: nat)
    requires Core(y, s, -1, -1, u, k)
    ensures s.wp.curline < |s.vpc| == |s.ipc| == y.lines && s.gc.curline < |s.vpc|
  {
  }

  // ---- the collection ----

  /** The loops have reached page i of flash page (f, ch, lun), and the tally is what the copies so far
      make of the one at the start. */
  ghost predicate Cleaning(g: SsdParams, y: Layout, s0: Ftl, s: Ftl, v: nat, done: set<Ppa>, freed: set<Blk>, most: nat,
                           f: nat, ch: nat, lun: nat, i: nat)
  {
    && Collecting(y, s0, s, v, done, most, Pos(y, s0.wp), Pos(y, s0.gc), Pos(y, s.gc))
    && LoopAt(g, y, s0, s, v, done, freed, f, ch, lun, i)
    && Copies(y.perLine, TallyOf(y, s0, 0), |done|) == Some(TallyOf(y, s, 0))
  }

  lemma CopyReady(s: Ftl, p: Ppa)
    requires Live(s, p) && p in s.pay && PageAt(s.gc) in s.nand && BlkOf(PageAt(s.gc)) in s.bvpc
             && s.gc.curline < |s.vpc|
    ensures CanCopy(s, p)
  {
  }

  lemma CopyPageTally(g: SsdParams, y: Layout, s0: Ftl, s: Ftl, v: nat, done: set<Ppa>, most: nat, p: Ppa)
    requires GeometryOk(g) && LayoutFor(g, y) && p in LineSet(s0.nand, v, VALID) && p !in done && p in s.nand
    requires Collecting(y, s0, s, v, done, most, Pos(y, s0.wp), Pos(y, s0.gc), Pos(y, s.gc))
    ensures s.gc.curline < |s.vpc|
    ensures match CopyPage(g, y, s, p)
            case NoLine => CopyOne(y.perLine, TallyOf(y, s, 0)).None?
            case Went(t) =>
              && Collecting(y, s0, t, v, done + {p}, most, Pos(y, s0.wp), Pos(y, s0.gc), Pos(y, t.gc))
              && CopyOne(y.perLine, TallyOf(y, s, 0)) == Some(TallyOf(y, t, 0))
              && t.nand.Keys == s.nand.Keys && forall q :: q in t.nand && q.blk == v ==> t.nand[q] == s.nand[q]
  {
    hide GeometryOk, LayoutFor, LayoutOk, Core, Copying, LineSet, NextCoord, Contents, Live, CanCopy;
    var u, k0, k := Pos(y, s0.wp), Pos(y, s0.gc), Pos(y, s.gc);
    CollectingIs(y, s0, s, v, done, most, u, k0, k);
    CopyingLive(y, s0, s, v, done, most, p);
    CopyStep(y, s0, s, v, done, most, u, k0, k, p);
    CopyTarget(y, s, v, u, k);
    assert CanCopy(s, p) by { CopyReady(s, p); }
    var s1 := Copy(s, p);
    CopyParts(s, p);
    StepFor(g, y, s1, GcIo);
    var (n, closed) := NextCoord(g, s.gc.at);
    if !closed || s1.free != [] {
      if closed { FirstFree(y, s1, v, u, k + 1); }
      MoveStep(y, s0, s1, v, done + {p}, most, u, k0, k + 1, n, closed);
      AdvanceParts(y, s1, GcIo, n, closed);
      PointerMoves(y, s1, GcIo, n, closed);
    }
  }

  lemma CollectingIs(y: Layout, s0: Ftl, s: Ftl, v: nat, done: set<Ppa>, most: nat, u: nat, k0: nat, k: nat)
    requires Collecting(y, s0, s, v, done, most, u, k0, k)
    ensures LayoutOk(y) && Core(y, s, v, -1, u, k) && Copying(y, s0, s, v, done, most) && PointerAt(y, s, GcIo, k)
            && PointerAt(y, s, UserIo, u)
  {
  }

  lemma CopyParts(s: Ftl, p: Ppa)
    requires Live(s, p) && p in s.pay && PageAt(s.gc) in s.nand && BlkOf(PageAt(s.gc)) in s.bvpc
             && s.gc.curline < |s.vpc|
    ensures var t := Copy(s, p);
            && t.free == s.free && t.wp == s.wp && t.gc == s.gc && t.credits == s.credits && t.refill == s.refill
            && t.vpc == s.vpc[s.gc.curline := s.vpc[s.gc.curline] + 1] && t.nand == s.nand[PageAt(s.gc) := VALID]
  {
  }

  /** The pages of one flash page from the i-th on. */
  lemma {:induction false} PagesTally(g: SsdParams, y: Layout, s0: Ftl, s: Ftl, v: nat, done: set<Ppa>, freed: set<Blk>,
                                      most: nat, f: nat, ch: nat, lun: nat, i: nat) returns (done': set<Ppa>)
    requires GeometryOk(g) && LayoutFor(g, y) && Cleaning(g, y, s0, s, v, done, freed, most, f, ch, lun, i)
    requires f < g.flashpgsPerBlk && ch < g.nchs && lun < g.lunsPerCh && i <= g.pgsPerFlash
    ensures match CopyPages(g, y, s, v, f, ch, lun, i)
            case NoLine => Stuck(y, s0, v)
            case Went(t) => Cleaning(g, y, s0, t, v, done', freed, most, f, ch, lun, g.pgsPerFlash)
    decreases g.pgsPerFlash - i
  {
    hide GeometryOk, LayoutFor, LayoutOk, Collecting, LoopAt, CopyPage, FlashPage, LineSet, Copies, TallyOf, CopyOne;
    done' := done;
    if i < g.pgsPerFlash {
      var p := FlashPage(g, v, f, ch, lun, i);
      PageReached(g, y, s0, s, v, done, freed, f, ch, lun, i);
      if s.nand[p] == VALID {
        CopyPageTally(g, y, s0, s, v, done, most, p);
        CopyCounts(y, s0, s, v, done, most, p);
        match CopyPage(g, y, s, p) {
          case NoLine =>
          case Went(t) =>
            PagePassed(g, y, s0, s, t, v, done, freed, f, ch, lun, i);
            done' := PagesTally(g, y, s0, t, v, done + {p}, freed, most, f, ch, lun, i + 1);
        }
      } else {
        PagePassed(g, y, s0, s, s, v, done, freed, f, ch, lun, i);
        done' := PagesTally(g, y, s0, s, v, done, freed, most, f, ch, lun, i + 1);
      }
    }
  }

  /** The copies of the victim's valid pages cannot all be made. */
  ghost predicate Stuck(y: Layout, s0: Ftl, v: nat) {
    exists n: nat :: n <= |LineSet(s0.nand, v, VALID)| && Copies(y.perLine, TallyOf(y, s0, 0), n).None?
  }

  lemma CopyCounts(y: Layout, s0: Ftl, s: Ftl, v: nat, done: set<Ppa>, most: nat, p: Ppa)
    requires Collecting(y, s0, s, v, done, most, Pos(y, s0.wp), Pos(y, s0.gc), Pos(y, s.gc)) && p !in done
             && p in LineSet(s0.nand, v, VALID) && s.gc.curline < |s.vpc|
    requires Copies(y.perLine, TallyOf(y, s0, 0), |done|) == Some(TallyOf(y, s, 0))
    ensures |done + {p}| == |done| + 1
    ensures Copies(y.perLine, TallyOf(y, s0, 0), |done + {p}|) == CopyOne(y.perLine, TallyOf(y, s, 0))
    ensures CopyOne(y.perLine, TallyOf(y, s, 0)).None? ==> Stuck(y, s0, v)
  {
    hide LayoutOk, Core, Contents, LineSet, CopyOne, TallyOf;
    assert TallyOf(y, s, 0).gc == s.gc.curline && TallyOf(y, s, 0).vpc == s.vpc by { TallyIs(y, s); }
    assert done + {p} <= LineSet(s0.nand, v, VALID);
    SubsetSize(done + {p}, LineSet(s0.nand, v, VALID));
  }

  lemma TallyIs(y: Layout, s: Ftl)
    ensures TallyOf(y, s, 0).gc == s.gc.curline && TallyOf(y, s, 0).vpc == s.vpc
  {
  }

  lemma {:induction false} LunsTally(g: SsdParams, y: Layout, s0: Ftl, s: Ftl, v: nat, done: set<Ppa>, freed: set<Blk>,
                                     most: nat, f: nat, ch: nat, lun: nat) returns (done': set<Ppa>, freed': set<Blk>)
    requires GeometryOk(g) && LayoutFor(g, y) && Cleaning(g, y, s0, s, v, done, freed, most, f, ch, lun, 0)
    requires f < g.flashpgsPerBlk && ch < g.nchs && lun <= g.lunsPerCh
    ensures match CleanLuns(g, y, s, v, f, ch, lun)
            case NoLine => Stuck(y, s0, v)
            case Went(t) => Cleaning(g, y, s0, t, v, done', freed', most, f, ch + 1, 0, 0)
    decreases g.lunsPerCh - lun
  {
    hide GeometryOk, LayoutFor, LayoutOk, Collecting, LoopAt, CopyPages, LineSet, Copies, TallyOf, Stuck;
    done', freed' := done, freed;
    if lun == g.lunsPerCh {
      ChannelPassed(g, y, s0, s, v, done, freed, f, ch);
    } else {
      var d := PagesTally(g, y, s0, s, v, done, freed, most, f, ch, lun, 0);
      match CopyPages(g, y, s, v, f, ch, lun, 0) {
        case NoLine =>
        case Went(t) =>
          if f == g.flashpgsPerBlk - 1 {
            EraseTally(g, y, s0, t, v, d, freed, most, ch, lun);
            done', freed' :=
              LunsTally(g, y, s0, FreeBlock(t, Blk(ch, lun, v)), v, d, freed + {Blk(ch, lun, v)}, most, f, ch, lun + 1);
          } else {
            FlashPagePassed(g, y, s0, t, v, d, freed, f, ch, lun);
            done', freed' := LunsTally(g, y, s0, t, v, d, freed, most, f, ch, lun + 1);
          }
      }
    }
  }

  lemma EraseTally(g: SsdParams, y: Layout, s0: Ftl, s: Ftl, v: nat, done: set<Ppa>, freed: set<Blk>, most: nat,
                   ch: nat,
                   lun: nat)
    requires g.flashpgsPerBlk > 0
             && Cleaning(g, y, s0, s, v, done, freed, most, g.flashpgsPerBlk - 1, ch, lun, g.pgsPerFlash)
    ensures var b := Blk(ch, lun, v);
            Cleaning(g, y, s0, FreeBlock(s, b), v, done, freed + {b}, most, g.flashpgsPerBlk - 1, ch, lun + 1, 0)
  {
    hide LoopAt, LineSet, Collecting, VictimPages, Copies;
    var b := Blk(ch, lun, v);
    BlockCopied(g, y, s0, s, v, done, freed, ch, lun);
    EraseStep(y, s0, s, v, done, most, Pos(y, s0.wp), Pos(y, s0.gc), Pos(y, s.gc), freed, b);
    assert FreeBlock(s, b).nand.Keys == s.nand.Keys;
    BlockFinished(g, y, s0, s, FreeBlock(s, b), v, done, freed, ch, lun);
  }

  lemma {:induction false} ChannelsTally(g: SsdParams, y: Layout, s0: Ftl, s: Ftl, v: nat, done: set<Ppa>,
                                         freed: set<Blk>, most: nat, f: nat, ch: nat)
    returns (done': set<Ppa>, freed': set<Blk>)
    requires GeometryOk(g) && LayoutFor(g, y) && Cleaning(g, y, s0, s, v, done, freed, most, f, ch, 0, 0)
    requires f < g.flashpgsPerBlk && ch <= g.nchs
    ensures match CleanChannels(g, y, s, v, f, ch)
            case NoLine => Stuck(y, s0, v)
            case Went(t) => Cleaning(g, y, s0, t, v, done', freed', most, f + 1, 0, 0, 0)
    decreases g.nchs - ch
  {
    hide GeometryOk, LayoutFor, LayoutOk, Collecting, LoopAt, CleanLuns, LineSet, Copies, TallyOf, Stuck;
    done', freed' := done, freed;
    if ch == g.nchs {
      ChannelsPassed(g, y, s0, s, v, done, freed, f);
    } else {
      var d, e := LunsTally(g, y, s0, s, v, done, freed, most, f, ch, 0);
      match CleanLuns(g, y, s, v, f, ch, 0) {
        case NoLine =>
        case Went(t) => done', freed' := ChannelsTally(g, y, s0, t, v, d, e, most, f, ch + 1);
      }
    }
  }

  lemma {:induction false} FlashTally(g: SsdParams, y: Layout, s0: Ftl, s: Ftl, v: nat, done: set<Ppa>,
                                      freed: set<Blk>, most: nat, f: nat) returns (done': set<Ppa>, freed': set<Blk>)
    requires GeometryOk(g) && LayoutFor(g, y) && Cleaning(g, y, s0, s, v, done, freed, most, f, 0, 0, 0)
             && f <= g.flashpgsPerBlk
    ensures match CleanFlash(g, y, s, v, f)
            case NoLine => Stuck(y, s0, v)
            case Went(t) => Cleaning(g, y, s0, t, v, done', freed', most, g.flashpgsPerBlk, 0, 0, 0)
    decreases g.flashpgsPerBlk - f
  {
    hide GeometryOk, LayoutFor, LayoutOk, Collecting, LoopAt, CleanChannels, LineSet, Copies, TallyOf, Stuck;
    done', freed' := done, freed;
    if f < g.flashpgsPerBlk {
      var d, e := ChannelsTally(g, y, s0, s, v, done, freed, most, f, 0);
      match CleanChannels(g, y, s, v, f, 0) {
        case NoLine =>
        case Went(t) => done', freed' := FlashTally(g, y, s0, t, v, d, e, most, f + 1);
      }
    }
  }

  /** The collection before its first page. */
  lemma CleaningStarts(g: SsdParams, y: Layout, s: Ftl, v: nat, most: nat)
    requires GeometryOk(g) && LayoutFor(g, y) && Settled(y, s, most) && v in s.victims
    ensures v < |s.ipc| == |s.vpc| && s.ipc[v] == y.perLine - s.vpc[v] && s.vpc[v] == |LineSet(s.nand, v, VALID)|
    ensures var s0 := Selected(s, v);
            Cleaning(g, y, s0, s0, v, {}, {}, most, 0, 0, 0, 0) && Contents(s0) == Contents(s) && s0.nand == s.nand
  {
    hide GeometryOk, LayoutFor, LayoutOk, Core, Contents, LineSet, ClosedLine, InCapacity, Collecting, LoopAt;
    LayoutForOk(g, y);
    VictimsClosed(y, s, most);
    LayoutLines(g, y);
    var u, k := Pos(y, s.wp), Pos(y, s.gc);
    OpenBelow(y, s, u, k);
    CollectingStarts(y, s, u, k, v, most);
    var s0 := Selected(s, v);
    RefillIrrelevant(y, s.(victims := s.victims - {v}), s0, v, most, u, k);
    LoopStarts(g, y, s0, v);
  }

  lemma LayoutLines(g: SsdParams, y: Layout)
    requires LayoutFor(g, y)
    ensures y.lines == g.ttLines && y.perLine == g.pgsPerLine
  {
  }

  /** And after its last. */
  lemma CleaningEnds(g: SsdParams, y: Layout, s0: Ftl, s: Ftl, v: nat, done: set<Ppa>, freed: set<Blk>, most: nat)
    requires Cleaning(g, y, s0, s, v, done, freed, most, g.flashpgsPerBlk, 0, 0, 0) && v < y.lines
    ensures v < |s.vpc| && v < |s.ipc| && Contents(FreeLine(s, v)) == Contents(s0) && Settled(y, FreeLine(s, v), most)
            && |s.maptbl| == |s0.maptbl| && FreeLine(s, v).credits == s0.credits && FreeLine(s, v).refill == s0.refill
            && Reserve(y, FreeLine(s, v)) == Reserve(y, s0) + y.perLine - |LineSet(s0.nand, v, VALID)|
    ensures Copies(y.perLine, TallyOf(y, s0, 0), |LineSet(s0.nand, v, VALID)|) == Some(TallyOf(y, s, 0))
  {
    hide LayoutOk, Core, Contents, LineSet, InCapacity, Copies, TallyOf, LoopAt;
    CollectedAll(y, s0, s, v, done, most);
    LoopEnds(g, y, s0, s, v, done, freed);
    FinishCollection(y, s0, s, v, done, most, Pos(y, s0.wp), Pos(y, s0.gc), Pos(y, s.gc));
  }

  lemma CollectedAll(y: Layout, s0: Ftl, s: Ftl, v: nat, done: set<Ppa>, most: nat)
    requires Collecting(y, s0, s, v, done, most, Pos(y, s0.wp), Pos(y, s0.gc), Pos(y, s.gc))
    ensures done <= LineSet(s0.nand, v, VALID) && s.wp == s0.wp
  {
  }

  /** What a collection does to the tally, and that it keeps the invariant and the contents. */
  lemma CollectTally(g: SsdParams, y: Layout, s: Ftl, v: nat, most: nat, n: nat)
    requires GeometryOk(g) && LayoutFor(g, y) && Settled(y, s, most) && v in s.victims
    ensures v < |s.ipc| == |s.vpc| && s.vpc[v] >= 0
    ensures match CollectLine(g, y, s, v)
            case NoLine => Gather(y.perLine, TallyOf(y, s, n), v).None?
            case Went(t) =>
              && Gather(y.perLine, TallyOf(y, s, n), v) == Some(TallyOf(y, t, n))
              && Settled(y, t, most) && Contents(t) == Contents(s) && |t.maptbl| == |s.maptbl|
              && t.credits == s.credits && 1 <= t.refill <= y.perLine && Reserve(y, t) == Reserve(y, s) + t.refill
    ensures Reserve(y, s) >= 2 * y.perLine ==> CollectLine(g, y, s, v).Went?
  {
    hide GeometryOk, LayoutFor, LayoutOk, Core, Contents, LineSet, InCapacity, Copies, Cleaning, CleanFlash, Settled,
         Room;
    CleaningStarts(g, y, s, v, most);
    LayoutLines(g, y);
    VictimInRange(y, s, v, most);
    var s0 := Selected(s, v);
    SelectedRoom(g, y, s, v, most);
    if Reserve(y, s) >= 2 * y.perLine { NotStuck(y, s0, v, most); }
    var done, freed := FlashTally(g, y, s0, s0, v, {}, {}, most, 0);
    CopiesStored(y.perLine, TallyOf(y, s0, 0), s.vpc[v], n);
    match CleanFlash(g, y, s0, v, 0) {
      case NoLine =>
        var m: nat :| m <= |LineSet(s0.nand, v, VALID)| && Copies(y.perLine, TallyOf(y, s0, 0), m).None?;
        NoneStays(y.perLine, TallyOf(y, s0, 0), m, s.vpc[v]);
      case Went(t) =>
        CleaningEnds(g, y, s0, t, v, done, freed, most);
    }
  }

  lemma SelectedRoom(g: SsdParams, y: Layout, s: Ftl, v: nat, most: nat)
    requires GeometryOk(g) && LayoutFor(g, y) && Settled(y, s, most) && v in s.victims && v < |s.ipc|
    ensures var s0 := Selected(s, v);
            && Reserve(y, s0) == Reserve(y, s) && s0.gc.curline < |s0.vpc| && Pos(y, s0.gc) < y.perLine
            && (s0.free != [] ==> s0.free[0] < |s0.vpc|) && v < |s.vpc| && 0 <= s.vpc[v] < y.perLine
  {
    hide GeometryOk, LayoutFor, LayoutOk, Core, InCapacity;
    LayoutForOk(g, y);
    PointersInLine(y, s);
    OpenBelow(y, s, Pos(y, s.wp), Pos(y, s.gc));
    ClosedLines(y, s, Pos(y, s.wp), Pos(y, s.gc), 0, v);
    if s.free != [] { FirstFree(y, s, -1, Pos(y, s.wp), Pos(y, s.gc)); }
  }

  /** A reserve of two lines is enough for the copies. */
  lemma NotStuck(y: Layout, s0: Ftl, v: nat, most: nat)
    requires Reserve(y, s0) >= 2 * y.perLine && |LineSet(s0.nand, v, VALID)| < y.perLine
    requires s0.gc.curline < |s0.vpc| && (s0.free != [] ==> s0.free[0] < |s0.vpc|) && Pos(y, s0.gc) < y.perLine
    ensures !Stuck(y, s0, v)
  {
    forall n: nat | n <= |LineSet(s0.nand, v, VALID)| ensures Copies(y.perLine, TallyOf(y, s0, 0), n).Some? {
      CopiesSome(y.perLine, TallyOf(y, s0, 0), n);
    }
  }

  lemma VictimInRange(y: Layout, s: Ftl, v: nat, most: nat)
    requires Settled(y, s, most) && v in s.victims
    ensures v < y.lines
  {
  }

  // ---- a whole write ----

  /** What a write makes of the tally t1 it leaves before the credits are looked at; v is the line
      collected, if one is. */
  ghost function Settle(per: nat, t1: Tally, v: nat): Option<Tally> {
    if t1.credits > 0 then Some(t1)
    else if |t1.free| > GC_THRES_LINES_HIGH || AllFull(per, t1) then Some(Allow(t1))
    else if v < |t1.vpc| && t1.vpc[v] >= 0 then
      match Gather(per, t1, v) case None => None case Some(t2) => Some(Allow(t2))
    else None
  }

  /** A line is collected when the credits are used up, lines are low and one is queued: then it is one
      with fewest valid pages. */
  ghost predicate Chosen(per: nat, t: Tally, v: nat) {
    t.credits <= 0 && |t.free| <= GC_THRES_LINES_HIGH && !AllFull(per, t) ==> Least(per, t, v)
  }

  lemma QueueEmpty(y: Layout, s: Ftl, most: nat, n: nat)
    requires Settled(y, s, most)
    ensures s.victims == {} <==> AllFull(y.perLine, TallyOf(y, s, n))
    ensures forall v :: v in s.victims ==> v < |s.vpc| == |s.ipc|
  {
    hide Core, TallyOf;
    var t := TallyOf(y, s, n);
    assert t.vpc == s.vpc by { TallyFields(y, s, n); }
    forall l: nat ensures l in s.victims <==> Closed(t, l) && s.vpc[l] < y.perLine
                  ensures Closed(t, l) ==> s.vpc[l] <= y.perLine
                  ensures l in s.victims ==> l < |s.vpc| == |s.ipc| {
      ClosedLines(y, s, Pos(y, s.wp), Pos(y, s.gc), n, l);
    }
  }

  lemma TallyFields(y: Layout, s: Ftl, n: nat)
    ensures var t := TallyOf(y, s, n);
            t.vpc == s.vpc && t.free == s.free && t.credits == s.credits && t.refill == s.refill
  {
  }

  lemma HeadIsLeast(y: Layout, s: Ftl, v: nat, most: nat, n: nat)
    requires Settled(y, s, most) && Heads(s, v) && s.victims != {}
    ensures v in s.victims && v < |s.vpc| && Least(y.perLine, TallyOf(y, s, n), v)
  {
    hide Core, TallyOf;
    QueueEmpty(y, s, most, n);
    var t := TallyOf(y, s, n);
    assert t.vpc == s.vpc by { TallyFields(y, s, n); }
    forall l: nat ensures l in s.victims <==> Closed(t, l) && s.vpc[l] < y.perLine
                  ensures Closed(t, l) && l !in s.victims ==> s.vpc[l] == y.perLine {
      ClosedLines(y, s, Pos(y, s.wp), Pos(y, s.gc), n, l);
    }
  }

  lemma RefilledTally(g: SsdParams, y: Layout, v: nat, s: Ftl, most: nat, n: nat)
    requires GeometryOk(g) && LayoutFor(g, y) && Settled(y, s, most) && Heads(s, v)
    ensures Chosen(y.perLine, TallyOf(y, s, n), v)
    ensures match Refilled(g, y, v, s)
            case NoLine => Settle(y.perLine, TallyOf(y, s, n), v).None?
            case Went(t) =>
              && Settle(y.perLine, TallyOf(y, s, n), v) == Some(TallyOf(y, t, n))
              && Settled(y, t, most) && Mapped(t.maptbl) == Mapped(s.maptbl) && |t.maptbl| == |s.maptbl|
  {
    hide GeometryOk, LayoutFor, LayoutOk, Settled, Contents, CollectLine, Gather, AllFull, Least;
    QueueEmpty(y, s, most, n);
    if s.credits <= 0 {
      if |s.free| <= GC_THRES_LINES_HIGH && s.victims != {} {
        HeadIsLeast(y, s, v, most, n);
        CollectTally(g, y, s, v, most, n);
        StoredKeys(y, s, most);
        match CollectLine(g, y, s, v) {
          case NoLine =>
          case Went(t) =>
            StoredKeys(y, t, most);
            SettledRefilled(y, t, t.(credits := t.credits + t.refill), most);
        }
      } else {
        SettledRefilled(y, s, s.(credits := s.credits + s.refill), most);
      }
    }
  }

  /** A host write, in terms of the tally: the page leaves its line, and what the credits bring
      about. */
  lemma HostTally(g: SsdParams, y: Layout, pick: Pick, h: seq<nat>, s: Ftl, lpn: nat, l: int, most: nat, n: nat)
    returns (v: nat)
    requires GeometryOk(g) && LayoutFor(g, y) && Settled(y, s, most) && PicksLeast(pick) && LeavesLine(s, lpn, l)
    requires lpn in Mapped(s.maptbl) || |Mapped(s.maptbl)| < most
    ensures l < |s.vpc| && s.wp.curline < |s.vpc|
    ensures var t0 := Put(y.perLine, TallyOf(y, s, n), l);
            var t1 := if t0.None? then None else Settle(y.perLine, t0.value, v);
            && (t0.Some? ==> Chosen(y.perLine, t0.value, v))
            && match HostWrite(g, y, pick, h, s, lpn)
               case NoLine => t1.None?
               case Went(t) =>
                 && t1 == Some(TallyOf(y, t, if l < 0 then n + 1 else n)) && Settled(y, t, most)
                 && Mapped(t.maptbl) == Mapped(s.maptbl) + {lpn} && |t.maptbl| == |s.maptbl|
  {
    hide GeometryOk, LayoutFor, LayoutOk, Settled, PutPage, Put, Settle, AllFull, Least, Refilled, TallyOf, LeavesLine;
    LayoutForOk(g, y);
    PutTally(g, y, s, lpn, l, most, n);
    v := 0;
    match PutPage(g, y, s, lpn, 0) {
      case NoLine =>
      case Went(t) =>
        assert t.credits == TallyOf(y, t, if l < 0 then n + 1 else n).credits
               && t.free == TallyOf(y, t, if l < 0 then n + 1 else n).free by {
          TallyFields(y, t, if l < 0 then n + 1 else n);
        }
        v := pick(h, t);
        RefilledTally(g, y, v, t, most, if l < 0 then n + 1 else n);
    }
  }
}

/** Which pages the collector's nested loops have visited, and the concrete geometry seen as
    a layout. */
module FtlGcLoop {
  import opened Collections
  import opened Wrappers
  import opened Radix
  import opened Geometry
  import opened FtlState
  import opened FtlSteps
  import opened FtlGc

  // ---- the layout of a geometry ----

  ghost predicate LayoutFor(g: SsdParams, y: Layout) {
    && y.lines == g.ttLines && y.perLine == g.pgsPerLine
    && (forall p :: p in y.visit <==> ValidPpa(g, p))
    && (forall p :: p in y.visit ==> y.visit[p] == VisitPos(g, p.ch, p.lun, p.pg))
  }

  lemma LayoutForOk(g: SsdParams, y: Layout)
    requires GeometryOk(g) && LayoutFor(g, y)
    ensures LayoutOk(y)
  {
    hide VisitPos;
    LineSize(g);
    forall p | p in y.visit ensures p.blk < y.lines && y.visit[p] < y.perLine {
      VisitPosBound(g, p.ch, p.lun, p.pg);
    }
    forall p, q | p in y.visit && q in y.visit && p.blk == q.blk && y.visit[p] == y.visit[q] ensures p == q {
      VisitPosInjective(g, p.ch, p.lun, p.pg, q.ch, q.lun, q.pg);
    }
  }

  function Pos(y: Layout, w: WritePointer): nat {
    if PageAt(w) in y.visit then y.visit[PageAt(w)] else 0
  }

  /** The coordinate step of a write pointer in terms of visit positions. */
  lemma StepFor(g: SsdParams, y: Layout, s: Ftl, io: IoType)
    requires GeometryOk(g) && LayoutFor(g, y) && PageAt(Pointer(s, io)) in y.visit
    ensures var w := Pointer(s, io);
            && ValidCoord(g, w.at.ch, w.at.lun, w.at.pg)
            && var (n, closed) := NextCoord(g, w.at);
               && (closed <==> Pos(y, w) + 1 == y.perLine)
               && (!closed ==> StepOk(y, s, io, n, closed, Pos(y, w) + 1))
               && (closed && s.free != [] && s.free[0] < y.lines ==> StepOk(y, s, io, n, closed, Pos(y, w) + 1))
  {
    hide VisitPos, NextCoord;
    var w := Pointer(s, io);
    NextCoordVisits(g, w.at);
  }

  // ---- progress of the loops over (flash page, channel, LUN, page) ----

  ghost predicate Before(g: SsdParams, p: Ppa, f: nat, ch: nat, lun: nat) {
    if g.pgsPerFlash == 0 then false
    else p.pg / g.pgsPerFlash < f || (p.pg / g.pgsPerFlash == f && (p.ch < ch || (p.ch == ch && p.lun < lun)))
  }

  /** The page lies among the first i pages of flash page (f, ch, lun). */
  ghost predicate InFlashPage(g: SsdParams, p: Ppa, f: nat, ch: nat, lun: nat, i: nat) {
    p.ch == ch && p.lun == lun && f * g.pgsPerFlash <= p.pg < f * g.pgsPerFlash + i
  }

  ghost predicate Erased(g: SsdParams, p: Ppa, f: nat, ch: nat, lun: nat) {
    f >= g.flashpgsPerBlk || (f == g.flashpgsPerBlk - 1 && (p.ch < ch || (p.ch == ch && p.lun < lun)))
  }

  /** The valid pages copied so far are those the loops have passed. */
  ghost predicate DoneUpTo(g: SsdParams, s0: Ftl, v: nat, done: set<Ppa>, f: nat, ch: nat, lun: nat, i: nat) {
    forall p :: p in LineSet(s0.nand, v, VALID) ==>
      (p in done <==> Before(g, p, f, ch, lun) || InFlashPage(g, p, f, ch, lun, i))
  }

  ghost predicate ErasedUpTo(g: SsdParams, s0: Ftl, v: nat, freed: set<Blk>, f: nat, ch: nat, lun: nat) {
    forall p :: p in s0.nand && p.blk == v ==> (BlkOf(p) in freed <==> Erased(g, p, f, ch, lun))
  }

  /** Where a page index falls among the flash pages of its block. */
  lemma FlashPageOf(pg: nat, n: nat, f: nat)
    requires n > 0
    ensures pg / n == f <==> f * n <= pg < f * n + n
    ensures pg / n < f <==> pg < f * n
  {
    var q, r := DivMod(pg, n);
    MulMono(q, f, n);
    MulMono(f, q, n);
  }

  lemma FlashPageFits(g: SsdParams, f: nat, i: nat)
    requires GeometryOk(g) && f < g.flashpgsPerBlk && i < g.pgsPerFlash
    ensures f * g.pgsPerFlash + i < g.pgsPerBlk
  {
    MulMono(f, g.flashpgsPerBlk, g.pgsPerFlash);
  }

  lemma FlashPageCount(g: SsdParams, pg: nat)
    requires GeometryOk(g) && pg < g.pgsPerBlk
    ensures pg / g.pgsPerFlash < g.flashpgsPerBlk
  {
    FlashPageOf(pg, g.pgsPerFlash, g.flashpgsPerBlk);
  }

  /** After the last page of a flash page the loops are past it. */
  lemma FlashPageDone(g: SsdParams, s0: Ftl, v: nat, done: set<Ppa>, f: nat, ch: nat, lun: nat)
    requires g.pgsPerFlash > 0
    requires DoneUpTo(g, s0, v, done, f, ch, lun, g.pgsPerFlash)
    ensures DoneUpTo(g, s0, v, done, f, ch, lun + 1, 0)
  {
    forall p | p in LineSet(s0.nand, v, VALID)
      ensures p in done <==> Before(g, p, f, ch, lun + 1) || InFlashPage(g, p, f, ch, lun + 1, 0)
    {
      FlashPageOf(p.pg, g.pgsPerFlash, f);
    }
  }

  lemma NextChannel(g: SsdParams, y: Layout, s0: Ftl, v: nat, done: set<Ppa>, freed: set<Blk>, f: nat, ch: nat)
    requires LayoutFor(g, y) && s0.nand.Keys == y.visit.Keys
    requires DoneUpTo(g, s0, v, done, f, ch, g.lunsPerCh, 0) && ErasedUpTo(g, s0, v, freed, f, ch, g.lunsPerCh)
    ensures DoneUpTo(g, s0, v, done, f, ch + 1, 0, 0) && ErasedUpTo(g, s0, v, freed, f, ch + 1, 0)
  {
    forall p | p in LineSet(s0.nand, v, VALID)
      ensures p in done <==> Before(g, p, f, ch + 1, 0) || InFlashPage(g, p, f, ch + 1, 0, 0)
    {
      assert ValidPpa(g, p);
    }
    forall p | p in s0.nand && p.blk == v ensures BlkOf(p) in freed <==> Erased(g, p, f, ch + 1, 0) {
      assert ValidPpa(g, p);
    }
  }

  lemma NextFlashPage(g: SsdParams, y: Layout, s0: Ftl, v: nat, done: set<Ppa>, freed: set<Blk>, f: nat)
    requires LayoutFor(g, y) && s0.nand.Keys == y.visit.Keys && 0 < g.nchs && 0 < g.lunsPerCh && 0 < g.flashpgsPerBlk
    requires DoneUpTo(g, s0, v, done, f, g.nchs, 0, 0) && ErasedUpTo(g, s0, v, freed, f, g.nchs, 0)
    requires f < g.flashpgsPerBlk
    ensures DoneUpTo(g, s0, v, done, f + 1, 0, 0, 0) && ErasedUpTo(g, s0, v, freed, f + 1, 0, 0)
  {
    forall p | p in LineSet(s0.nand, v, VALID)
      ensures p in done <==> Before(g, p, f + 1, 0, 0) || InFlashPage(g, p, f + 1, 0, 0, 0)
    {
      assert ValidPpa(g, p);
    }
    forall p | p in s0.nand && p.blk == v ensures BlkOf(p) in freed <==> Erased(g, p, f + 1, 0, 0) {
      assert ValidPpa(g, p);
    }
  }

  /** When the loops end every valid page of the victim has been copied exactly once and
      every page of it has been erased. */
  lemma LoopsCover(g: SsdParams, y: Layout, s0: Ftl, s: Ftl, v: nat, done: set<Ppa>, freed: set<Blk>)
    requires GeometryOk(g) && LayoutFor(g, y) && s0.nand.Keys == y.visit.Keys && s.nand.Keys == y.visit.Keys
    requires done <= LineSet(s0.nand, v, VALID) && VictimPages(s0, s, v, freed)
    requires DoneUpTo(g, s0, v, done, g.flashpgsPerBlk, 0, 0, 0) && ErasedUpTo(g, s0, v, freed, g.flashpgsPerBlk, 0, 0)
    ensures done == LineSet(s0.nand, v, VALID)
    ensures forall p :: p in s.nand && p.blk == v ==> s.nand[p] == FREE
  {
    hide LayoutFor, GeometryOk;
    forall p | p in LineSet(s0.nand, v, VALID) ensures p in done {
      assert p in y.visit;
      PageFlash(g, y, p);
    }
    forall p | p in s.nand && p.blk == v ensures s.nand[p] == FREE {
      assert p in y.visit && p in s0.nand;
      assert Erased(g, p, g.flashpgsPerBlk, 0, 0);
    }
  }

  lemma PageFlash(g: SsdParams, y: Layout, p: Ppa)
    requires GeometryOk(g) && LayoutFor(g, y) && p in y.visit
    ensures p.pg / g.pgsPerFlash < g.flashpgsPerBlk && g.pgsPerFlash > 0
  {
    FlashPageCount(g, p.pg);
  }

  /** Once the last flash page of a block is passed, its valid pages are all copied. */
  lemma BlockPassed(g: SsdParams, y: Layout, s0: Ftl, v: nat, done: set<Ppa>, f: nat, ch: nat, lun: nat)
    requires GeometryOk(g) && LayoutFor(g, y) && s0.nand.Keys == y.visit.Keys
    requires f == g.flashpgsPerBlk - 1 && DoneUpTo(g, s0, v, done, f, ch, lun + 1, 0)
    ensures BlockDone(s0, v, done, Blk(ch, lun, v))
  {
    hide LayoutFor, GeometryOk;
    forall p | p in LineSet(s0.nand, v, VALID) && BlkOf(p) == Blk(ch, lun, v) ensures p in done {
      PageFlash(g, y, p);
    }
  }

  lemma EraseProgress(g: SsdParams, s0: Ftl, v: nat, freed: set<Blk>, f: nat, ch: nat, lun: nat)
    requires ErasedUpTo(g, s0, v, freed, f, ch, lun) && f < g.flashpgsPerBlk
    ensures ErasedUpTo(g, s0, v, if f == g.flashpgsPerBlk - 1 then freed + {Blk(ch, lun, v)} else freed, f, ch, lun + 1)
  {
  }

  // ---- the loops' progress as one condition ----

  /** Line v had no free page when it was selected. */
  ghost predicate ClosedLine(nand: Nand, v: nat) {
    forall p :: p in nand && p.blk == v ==> nand[p] != FREE
  }

  /** The loops have reached page i of flash page (f, ch, lun) of line v, with s0 the state at
      the start, done the pages copied and freed the blocks erased so far. */
  ghost predicate LoopAt(g: SsdParams, y: Layout, s0: Ftl, s: Ftl, v: nat, done: set<Ppa>, freed: set<Blk>,
                         f: nat, ch: nat, lun: nat, i: nat)
  {
    && GeometryOk(g) && LayoutFor(g, y) && v < g.ttLines
    && s0.nand.Keys == y.visit.Keys && s.nand.Keys == y.visit.Keys && ClosedLine(s0.nand, v)
    && VictimPages(s0, s, v, freed)
    && DoneUpTo(g, s0, v, done, f, ch, lun, i) && ErasedUpTo(g, s0, v, freed, f, ch, lun)
  }

  /** Page i of flash page (f, ch, lun) of line v. */
  function FlashPage(g: SsdParams, v: nat, f: nat, ch: nat, lun: nat, i: nat): Ppa {
    Ppa(ch, lun, 0, v, f * g.pgsPerFlash + i)
  }

  lemma FlashPageExists(g: SsdParams, y: Layout, v: nat, f: nat, ch: nat, lun: nat, i: nat)
    requires GeometryOk(g) && LayoutFor(g, y)
    requires f < g.flashpgsPerBlk && ch < g.nchs && lun < g.lunsPerCh && v < g.ttLines && i < g.pgsPerFlash
    ensures FlashPage(g, v, f, ch, lun, i) in y.visit
    ensures g.pgsPerFlash > 0 && FlashPage(g, v, f, ch, lun, i).pg / g.pgsPerFlash == f
  {
    FlashPageFits(g, f, i);
    FlashPageOf(f * g.pgsPerFlash + i, g.pgsPerFlash, f);
    assert ValidPpa(g, FlashPage(g, v, f, ch, lun, i));
  }

  /** The page reached exists, is as it was when the victim was selected, is not free, and has
      not been copied yet. */
  lemma PageReached(g: SsdParams, y: Layout, s0: Ftl, s: Ftl, v: nat, done: set<Ppa>, freed: set<Blk>,
                    f: nat, ch: nat, lun: nat, i: nat)
    requires LoopAt(g, y, s0, s, v, done, freed, f, ch, lun, i)
    requires f < g.flashpgsPerBlk && ch < g.nchs && lun < g.lunsPerCh && i < g.pgsPerFlash
    ensures var p := FlashPage(g, v, f, ch, lun, i);
            && p in s.nand && p in s0.nand && s.nand[p] == s0.nand[p] && s.nand[p] != FREE
            && (s.nand[p] == VALID <==> p in LineSet(s0.nand, v, VALID)) && (s.nand[p] == VALID ==> p !in done)
  {
    FlashPageExists(g, y, v, f, ch, lun, i);
    hide GeometryOk, LayoutFor;
    assert !Erased(g, FlashPage(g, v, f, ch, lun, i), f, ch, lun);
  }

  /** Passing page i, having copied it if it was valid. */
  lemma PagePassed(g: SsdParams, y: Layout, s0: Ftl, s: Ftl, s': Ftl, v: nat, done: set<Ppa>, freed: set<Blk>,
                   f: nat, ch: nat, lun: nat, i: nat)
    requires LoopAt(g, y, s0, s, v, done, freed, f, ch, lun, i)
    requires f < g.flashpgsPerBlk && ch < g.nchs && lun < g.lunsPerCh && i < g.pgsPerFlash
    requires s'.nand.Keys == s.nand.Keys && forall q :: q in s'.nand && q.blk == v ==> s'.nand[q] == s.nand[q]
    ensures var p := FlashPage(g, v, f, ch, lun, i);
            p in s.nand && LoopAt(g, y, s0, s', v, if s.nand[p] == VALID then done + {p} else done, freed, f, ch, lun,
                                  i + 1)
  {
    var p := FlashPage(g, v, f, ch, lun, i);
    PageReached(g, y, s0, s, v, done, freed, f, ch, lun, i);
    FlashPageExists(g, y, v, f, ch, lun, i);
    forall q | q in LineSet(s0.nand, v, VALID) && InFlashPage(g, q, f, ch, lun, i + 1)
      ensures InFlashPage(g, q, f, ch, lun, i) || q == p
    {
      assert q in y.visit && ValidPpa(g, q);
    }
  }

  lemma FlashPagePassed(g: SsdParams, y: Layout, s0: Ftl, s: Ftl, v: nat, done: set<Ppa>, freed: set<Blk>, f: nat,
                        ch: nat, lun: nat)
    requires LoopAt(g, y, s0, s, v, done, freed, f, ch, lun, g.pgsPerFlash) && f < g.flashpgsPerBlk - 1
    ensures LoopAt(g, y, s0, s, v, done, freed, f, ch, lun + 1, 0)
  {
    FlashPageDone(g, s0, v, done, f, ch, lun);
    EraseProgress(g, s0, v, freed, f, ch, lun);
  }

  /** Past the last flash page of a block, which is then erased. */
  lemma BlockFinished(g: SsdParams, y: Layout, s0: Ftl, s: Ftl, s': Ftl, v: nat, done: set<Ppa>, freed: set<Blk>,
                      ch: nat, lun: nat)
    requires g.flashpgsPerBlk > 0 && LoopAt(g, y, s0, s, v, done, freed, g.flashpgsPerBlk - 1, ch, lun, g.pgsPerFlash)
    requires s'.nand.Keys == s.nand.Keys && VictimPages(s0, s', v, freed + {Blk(ch, lun, v)})
    ensures BlockDone(s0, v, done, Blk(ch, lun, v))
    ensures LoopAt(g, y, s0, s', v, done, freed + {Blk(ch, lun, v)}, g.flashpgsPerBlk - 1, ch, lun + 1, 0)
  {
    FlashPageDone(g, s0, v, done, g.flashpgsPerBlk - 1, ch, lun);
    BlockPassed(g, y, s0, v, done, g.flashpgsPerBlk - 1, ch, lun);
    EraseProgress(g, s0, v, freed, g.flashpgsPerBlk - 1, ch, lun);
  }

  lemma BlockCopied(g: SsdParams, y: Layout, s0: Ftl, s: Ftl, v: nat, done: set<Ppa>, freed: set<Blk>, ch: nat,
                    lun: nat)
    requires g.flashpgsPerBlk > 0 && LoopAt(g, y, s0, s, v, done, freed, g.flashpgsPerBlk - 1, ch, lun, g.pgsPerFlash)
    ensures BlockDone(s0, v, done, Blk(ch, lun, v)) && VictimPages(s0, s, v, freed)
  {
    FlashPageDone(g, s0, v, done, g.flashpgsPerBlk - 1, ch, lun);
    BlockPassed(g, y, s0, v, done, g.flashpgsPerBlk - 1, ch, lun);
  }

  lemma ChannelPassed(g: SsdParams, y: Layout, s0: Ftl, s: Ftl, v: nat, done: set<Ppa>, freed: set<Blk>, f: nat,
                      ch: nat)
    requires LoopAt(g, y, s0, s, v, done, freed, f, ch, g.lunsPerCh, 0)
    ensures LoopAt(g, y, s0, s, v, done, freed, f, ch + 1, 0, 0)
  {
    NextChannel(g, y, s0, v, done, freed, f, ch);
  }

  lemma ChannelsPassed(g: SsdParams, y: Layout, s0: Ftl, s: Ftl, v: nat, done: set<Ppa>, freed: set<Blk>, f: nat)
    requires LoopAt(g, y, s0, s, v, done, freed, f, g.nchs, 0, 0) && f < g.flashpgsPerBlk
    ensures LoopAt(g, y, s0, s, v, done, freed, f + 1, 0, 0, 0)
  {
    NextFlashPage(g, y, s0, v, done, freed, f);
  }

  lemma LoopStarts(g: SsdParams, y: Layout, s0: Ftl, v: nat)
    requires GeometryOk(g) && LayoutFor(g, y) && v < g.ttLines && s0.nand.Keys == y.visit.Keys && ClosedLine(s0.nand, v)
    ensures LoopAt(g, y, s0, s0, v, {}, {}, 0, 0, 0, 0)
  {
    forall p | p in LineSet(s0.nand, v, VALID) ensures !Before(g, p, 0, 0, 0) && !InFlashPage(g, p, 0, 0, 0, 0) {
      FlashPageOf(p.pg, g.pgsPerFlash, 0);
    }
  }

  lemma LoopEnds(g: SsdParams, y: Layout, s0: Ftl, s: Ftl, v: nat, done: set<Ppa>, freed: set<Blk>)
    requires LoopAt(g, y, s0, s, v, done, freed, g.flashpgsPerBlk, 0, 0, 0) && done <= LineSet(s0.nand, v, VALID)
    ensures done == LineSet(s0.nand, v, VALID)
    ensures forall p :: p in s.nand && p.blk == v ==> s.nand[p] == FREE
  {
    LoopsCover(g, y, s0, s, v, done, freed);
  }
}

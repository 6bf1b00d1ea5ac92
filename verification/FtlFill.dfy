/** What happens when the host stores more pages than the translation layer can collect for: pages
    written for the first time, one after the other, on a new instance. */
module FtlFill {
  import opened Collections
  import Arith = Radix
  import opened Wrappers
  import opened Geometry
  import opened FtlState
  import opened FtlSteps
  import opened FtlGc
  import opened FtlGcLoop
  import opened FtlWrite
  import opened FtlInstance

  /** consume_write_credit and check_and_refill_write_credit while no line is queued as a victim: a
      collection that is due finds nothing to collect, and the allowance is taken all the same. */
  function Spend(s: Ftl): Ftl {
    if s.credits - 1 <= 0 then s.(credits := s.credits - 1 + s.refill) else s.(credits := s.credits - 1)
  }

  /** The loop body of a host write, for a page not stored yet. */
  function FirstWrite(g: SsdParams, y: Layout, s: Ftl, lpn: nat): Ftl
    requires GeometryOk(g) && CanWrite(g, s, lpn)
  {
    Spend(Write(g, y, s, lpn, 0))
  }

  /** Pages 0, 1, 2, and so on written in turn, n of them; the run stops short where one cannot be. */
  function Fill(g: SsdParams, y: Layout, n: nat): Ftl
    requires GeometryOk(g)
  {
    if n == 0 then Initial(g)
    else
      var s := Fill(g, y, n - 1);
      if CanWrite(g, s, n - 1) then FirstWrite(g, y, s, n - 1) else s
  }

  /** f lines have been filled and u pages of the next one; nothing has been invalidated. */
  ghost predicate Filled(g: SsdParams, y: Layout, s: Ftl, f: nat, u: nat) {
    && Core(y, s, -1, -1, u, 0) && PointerAt(y, s, UserIo, u) && PointerAt(y, s, GcIo, 0) && u < y.perLine
    && |s.full| == f && |s.free| + f + 2 == y.lines && s.victims == {}
    && (forall l :: 0 <= l < |s.ipc| ==> s.ipc[l] == 0)
    && |s.maptbl| == g.ttPgs && (forall lpn :: 0 <= lpn < |s.maptbl| ==>
                                   (s.maptbl[lpn].Some? <==> lpn < f * y.perLine + u))
    && s.refill == y.perLine && s.credits == y.perLine - u
  }

  lemma FilledStart(g: SsdParams, y: Layout)
    requires GeometryOk(g) && LayoutFor(g, y) && 4 < g.ttLines
    ensures Filled(g, y, Initial(g), 0, 0)
  {
    hide GeometryOk, LayoutFor, Core, Fresh;
    var s := Initial(g);
    InitialFresh(g, y);
    InitAtRest(g, y, s, 0);
    InitPointers(g, y, s);
    FreshUnmapped(g, y, s);
    LinesHere(g, y);
  }

  lemma FreshUnmapped(g: SsdParams, y: Layout, s: Ftl)
    requires Fresh(g, y, s)
    ensures forall l :: 0 <= l < |s.ipc| ==> s.ipc[l] == 0
    ensures forall lpn :: 0 <= lpn < |s.maptbl| ==> s.maptbl[lpn] == None
  {
  }

  /** The page programmed: one more page of the open line, nothing else. */
  lemma FilledProgram(g: SsdParams, y: Layout, s: Ftl, f: nat, u: nat, lpn: nat)
    requires GeometryOk(g) && LayoutFor(g, y) && LayoutOk(y) && Filled(g, y, s, f, u)
             && lpn == f * y.perLine + u < g.ttPgs
    ensures PageAt(s.wp) in s.nand && BlkOf(PageAt(s.wp)) in s.bvpc && s.wp.curline < |s.vpc|
    ensures Core(y, Program(s, lpn, PageAt(s.wp), 0), -1, -1, u + 1, 0)
  {
    hide GeometryOk, LayoutFor, LayoutOk, Core;
    Unmapped(y, s, u, 0, lpn);
    ProgramKeeps(y, s, -1, -1, u, 0, UserIo, lpn, 0);
  }

  /** With nothing invalidated a used-up line holds valid pages only, so it is a full line. */
  lemma LineFull(g: SsdParams, y: Layout, s: Ftl, u: nat)
    requires LayoutOk(y) && Core(y, s, -1, -1, u, 0) && u == y.perLine && forall l :: 0 <= l < |s.ipc| ==> s.ipc[l] == 0
    ensures s.wp.curline < |s.vpc| && s.vpc[s.wp.curline] == y.perLine
  {
    ClosedLineCounts(y, s, -1, u, 0, UserIo);
  }

  lemma FilledNext(g: SsdParams, y: Layout, s: Ftl, f: nat, u: nat, lpn: nat)
    requires GeometryOk(g) && LayoutFor(g, y) && Filled(g, y, s, f, u) && lpn == f * y.perLine + u < g.ttPgs
    requires u + 1 == y.perLine ==> s.free != []
    ensures CanWrite(g, s, lpn)
    ensures Filled(g, y, FirstWrite(g, y, s, lpn), if u + 1 == y.perLine then f + 1 else f,
                   if u + 1 == y.perLine then 0 else u + 1)
  {
    hide GeometryOk, LayoutFor, Core, NextCoord, LayoutOk;
    LayoutForOk(g, y);
    FilledProgram(g, y, s, f, u, lpn);
    var s1 := Program(s, lpn, PageAt(s.wp), 0);
    StepFor(g, y, s1, UserIo);
    var (n, closed) := NextCoord(g, s.wp.at);
    if closed {
      FirstFree(y, s1, -1, u + 1, 0);
      LineFull(g, y, s1, u + 1);
    }
    AdvanceKeeps(y, s1, -1, u + 1, 0, UserIo, n, closed);
    FilledAdvance(g, y, s, s1, f, u, lpn, n, closed);
  }

  lemma FilledAdvance(g: SsdParams, y: Layout, s: Ftl, s1: Ftl, f: nat, u: nat, lpn: nat, n: Coord, closed: bool)
    requires Filled(g, y, s, f, u) && lpn == f * y.perLine + u < g.ttPgs
    requires PageAt(s.wp) in s.nand && BlkOf(PageAt(s.wp)) in s.bvpc && s.wp.curline < |s.vpc|
    requires s1 == Program(s, lpn, PageAt(s.wp), 0) && (closed <==> u + 1 == y.perLine)
    requires closed ==> s1.free != [] && s1.vpc[s1.wp.curline] == y.perLine
    requires var s2 := Advance(y, s1, UserIo, n, closed); var u' := if closed then 0 else u + 1;
             Core(y, s2, -1, -1, u', 0) && PointerAt(y, s2, UserIo, u')
    ensures Filled(g, y, Spend(Advance(y, s1, UserIo, n, closed)), if closed then f + 1 else f, if closed then 0
                   else u + 1)
  {
    hide Core;
    var s2 := Advance(y, s1, UserIo, n, closed);
    AdvanceParts(y, s1, UserIo, n, closed);
    RefillCore(y, s2, Spend(s2), -1, if closed then 0 else u + 1, 0);
    Arith.OneMore(f, y.perLine);
  }

  lemma FillStep(g: SsdParams, y: Layout, f: nat, u: nat, n: nat)
    requires GeometryOk(g) && LayoutFor(g, y) && n == f * y.perLine + u < g.ttPgs && Filled(g, y, Fill(g, y, n), f, u)
    requires u + 1 == y.perLine ==> f + 3 <= g.ttLines
    ensures CanWrite(g, Fill(g, y, n), n)
    ensures Filled(g, y, Fill(g, y, n + 1), if u + 1 == y.perLine then f + 1 else f, if u + 1 == y.perLine then 0
                   else u + 1)
  {
    hide GeometryOk, LayoutFor, Filled, CanWrite, FirstWrite;
    LinesHere(g, y);
    FilledRoom(g, y, Fill(g, y, n), f, u);
    FilledNext(g, y, Fill(g, y, n), f, u, n);
  }

  lemma FilledRoom(g: SsdParams, y: Layout, s: Ftl, f: nat, u: nat)
    requires Filled(g, y, s, f, u)
    ensures |s.free| + f + 2 == y.lines && u < y.perLine
  {
  }

  /** Line after line: first writes go on as long as there are lines for them. */
  lemma {:induction false} FillTo(g: SsdParams, y: Layout, f: nat, u: nat, n: nat)
    requires GeometryOk(g) && LayoutFor(g, y) && 4 < g.ttLines && u < y.perLine && f + 2 <= g.ttLines
             && n == f * y.perLine + u
    ensures Filled(g, y, Fill(g, y, n), f, u)
    decreases n
  {
    hide GeometryOk, LayoutFor, Filled, CanWrite, Fill;
    if u > 0 {
      FillTo(g, y, f, u - 1, n - 1);
      InTable(g, y, f, u, n);
      FillStep(g, y, f, u - 1, n - 1);
    } else if f > 0 {
      Arith.OneMore(f - 1, y.perLine);
      FillTo(g, y, f - 1, y.perLine - 1, n - 1);
      InTable(g, y, f, u, n);
      FillStep(g, y, f - 1, y.perLine - 1, n - 1);
    } else {
      FillNone(g, y, n);
    }
  }

  lemma FillNone(g: SsdParams, y: Layout, n: nat)
    requires GeometryOk(g) && LayoutFor(g, y) && 4 < g.ttLines && n == 0 * y.perLine + 0
    ensures Filled(g, y, Fill(g, y, n), 0, 0)
  {
    hide GeometryOk, LayoutFor, Filled;
    FilledStart(g, y);
  }

  /** The pages of all lines but one have entries in the mapping table. */
  lemma InTable(g: SsdParams, y: Layout, f: nat, u: nat, n: nat)
    requires GeometryOk(g) && LayoutFor(g, y) && u < y.perLine && f + 2 <= g.ttLines && n == f * y.perLine + u
    ensures n < g.ttPgs
  {
    Arith.RadixBound(f, u, g.ttLines, y.perLine);
  }

  /** Every page but the last of all lines but one can be written. */
  lemma EachWritten(g: SsdParams, y: Layout, i: nat)
    requires GeometryOk(g) && LayoutFor(g, y) && 4 < g.ttLines && 0 < y.perLine && i + 1 < (g.ttLines - 1) * y.perLine
    ensures CanWrite(g, Fill(g, y, i), i)
  {
    hide GeometryOk, LayoutFor, Filled, CanWrite, Fill;
    var f, u := Arith.DivMod(i, y.perLine);
    Arith.MulMono(g.ttLines - 1, f, y.perLine);
    Arith.MulMono(g.ttLines - 1, f + 1, y.perLine);
    Arith.OneMore(f, y.perLine);
    FillTo(g, y, f, u, i);
    InTable(g, y, f, u, i);
    FillStep(g, y, f, u, i);
  }

  /** All but four lines' worth of pages written once: two free lines are left, a collection is due
      at the next refill, and no line holds an invalid page for it to collect. */
  lemma NoVictim(g: SsdParams, y: Layout)
    requires GeometryOk(g) && LayoutFor(g, y) && 4 < g.ttLines
    ensures var s := Fill(g, y, (g.ttLines - 4) * y.perLine);
            && Filled(g, y, s, g.ttLines - 4, 0) && |s.free| == 2 && s.victims == {}
            && |Mapped(s.maptbl)| == (g.ttLines - 4) * y.perLine
  {
    hide GeometryOk, LayoutFor, Filled, Fill;
    InitPointers(g, y, Initial(g));
    LinesHere(g, y);
    var n := (g.ttLines - 4) * y.perLine;
    FillTo(g, y, g.ttLines - 4, 0, n);
    InTable(g, y, g.ttLines - 4, 0, n);
    FilledStores(g, y, Fill(g, y, n), g.ttLines - 4, n);
  }

  lemma FilledStores(g: SsdParams, y: Layout, s: Ftl, f: nat, n: nat)
    requires Filled(g, y, s, f, 0) && n == f * y.perLine < g.ttPgs
    ensures |s.free| == y.lines - f - 2 && s.victims == {} && |Mapped(s.maptbl)| == n
  {
    hide Core;
    MappedBelow(s.maptbl, n);
  }

  lemma MappedBelow(maptbl: seq<Option<Ppa>>, n: nat)
    requires n <= |maptbl| && forall lpn :: 0 <= lpn < |maptbl| ==> (maptbl[lpn].Some? <==> lpn < n)
    ensures |Mapped(maptbl)| == n
  {
    assert Mapped(maptbl) == Below(n);
  }

  /** A collection always finds a victim exactly when the host keeps fewer pages stored than all but
      four lines hold. */
  lemma CollectsExactly(g: SsdParams, y: Layout, capacity: nat)
    requires GeometryOk(g) && LayoutFor(g, y) && 4 < g.ttLines
    ensures (forall s :: Settled(y, s, capacity) && |s.free| <= 2 ==> s.victims != {}) <==>
            capacity < (g.ttLines - 4) * y.perLine
  {
    if capacity < (g.ttLines - 4) * y.perLine {
      LayoutForOk(g, y);
      forall s | Settled(y, s, capacity) && |s.free| <= 2 ensures s.victims != {} {
        hide GeometryOk, LayoutFor, LayoutOk, Core, InCapacity;
        VictimExists(y, s, Pos(y, s.wp), Pos(y, s.gc), capacity);
      }
    } else {
      hide GeometryOk, LayoutFor, Core;
      NoVictim(g, y);
      assert Settled(y, Fill(g, y, (g.ttLines - 4) * y.perLine), capacity);
    }
  }

  /** What the last page of the last line finds: it can be programmed, but there is no line to go on
      to, none is queued for collection, and no page has been invalidated. */
  predicate UsedUp(g: SsdParams, s: Ftl)
    requires GeometryOk(g)
  {
    && PageAt(s.wp) in s.nand && ValidCoord(g, s.wp.at.ch, s.wp.at.lun, s.wp.at.pg) && NextCoord(g, s.wp.at).1
    && s.free == [] && s.victims == {} && forall l :: 0 <= l < |s.ipc| ==> s.ipc[l] == 0
  }

  lemma FilledUp(g: SsdParams, y: Layout, s: Ftl)
    requires GeometryOk(g) && LayoutFor(g, y) && 2 <= y.lines && 0 < y.perLine
             && Filled(g, y, s, y.lines - 2, y.perLine - 1)
    ensures UsedUp(g, s)
  {
    hide GeometryOk, LayoutFor, NextCoord, Core;
    StepFor(g, y, s, UserIo);
    CoreMaps(y, s, -1, -1, y.perLine - 1, 0);
  }

  lemma UsedUpStops(g: SsdParams, s: Ftl, lpn: nat)
    requires GeometryOk(g) && UsedUp(g, s)
    ensures !CanWrite(g, s, lpn)
  {
  }

  /** Written once each, the pages of all lines but the collector's fit, less the very last: at that
      one every line is used up. */
  lemma OutOfLines(g: SsdParams, y: Layout, n: nat)
    requires GeometryOk(g) && LayoutFor(g, y) && 4 < g.ttLines && n + 1 == (g.ttLines - 1) * y.perLine
    ensures UsedUp(g, Fill(g, y, n)) && n < g.ttPgs && forall i: nat :: i < n ==> CanWrite(g, Fill(g, y, i), i)
  {
    hide GeometryOk, LayoutFor, Filled, UsedUp, CanWrite, Fill;
    InitPointers(g, y, Initial(g));
    LinesHere(g, y);
    Arith.OneMore(g.ttLines - 2, y.perLine);
    FillTo(g, y, g.ttLines - 2, y.perLine - 1, n);
    InTable(g, y, g.ttLines - 2, y.perLine - 1, n);
    FilledUp(g, y, Fill(g, y, n));
    forall i: nat | i < n ensures CanWrite(g, Fill(g, y, i), i) { EachWritten(g, y, i); }
  }

  lemma LinesHere(g: SsdParams, y: Layout)
    requires LayoutFor(g, y)
    ensures y.lines == g.ttLines && y.perLine == g.pgsPerLine
  {
  }

  /** So first writes run to completion exactly while they do not use up all lines but one. */
  lemma FirstWritesFit(g: SsdParams, y: Layout, n: nat)
    requires GeometryOk(g) && LayoutFor(g, y) && 4 < g.ttLines
    ensures (forall i: nat :: i < n ==> CanWrite(g, Fill(g, y, i), i)) <==> n < (g.ttLines - 1) * y.perLine
  {
    hide GeometryOk, LayoutFor, CanWrite, Fill, Filled, UsedUp;
    InitPointers(g, y, Initial(g));
    if n < (g.ttLines - 1) * y.perLine {
      forall i: nat | i < n ensures CanWrite(g, Fill(g, y, i), i) { EachWritten(g, y, i); }
    } else {
      Arith.ProductPositive(g.ttLines - 1, y.perLine);
      var m: nat := (g.ttLines - 1) * y.perLine - 1;
      OutOfLines(g, y, m);
      UsedUpStops(g, Fill(g, y, m), m);
    }
  }
}

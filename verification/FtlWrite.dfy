/** A whole write as a function of the instance's state: the loops of a collection in the code's order,
    ending where a write pointer needs a free line and there is none. */
module FtlWrite {
  import opened Wrappers
  import opened Geometry
  import opened FtlState
  import opened FtlSteps
  import opened FtlGc
  import opened FtlGcLoop

  const GC_THRES_LINES_HIGH: nat := 2

  /** The page can be programmed, and there is a line to go on to if this one is used up. */
  predicate CanWrite(g: SsdParams, s: Ftl, lpn: nat)
    requires GeometryOk(g)
  {
    && PageAt(s.wp) in s.nand && BlkOf(PageAt(s.wp)) in s.bvpc && s.wp.curline < |s.vpc| && lpn < |s.maptbl|
    && ValidCoord(g, s.wp.at.ch, s.wp.at.lun, s.wp.at.pg) && (NextCoord(g, s.wp.at).1 ==> s.free != [])
  }

  /** A page programmed at the user's write pointer, and the pointer moved on. */
  function Write(g: SsdParams, y: Layout, s: Ftl, lpn: nat, data: int): Ftl
    requires GeometryOk(g) && CanWrite(g, s, lpn)
  {
    var (n, closed) := NextCoord(g, s.wp.at);
    Advance(y, Program(s, lpn, PageAt(s.wp), data), UserIo, n, closed)
  }

  predicate Written(g: SsdParams, y: Layout, s: Ftl, s': Ftl, lpn: nat, data: int) {
    GeometryOk(g) && CanWrite(g, s, lpn) && s' == Write(g, y, s, lpn, data)
  }

  /** A write goes through, or a write pointer needs a free line and there is none. */
  datatype Outcome = Went(s: Ftl) | NoLine

  // ---- one write ----

  /** The old page of lpn, if it is stored, becomes invalid. */
  ghost function Overwrite(y: Layout, s: Ftl, lpn: nat): Ftl {
    if lpn < |s.maptbl| && s.maptbl[lpn].Some? && Known(s, s.maptbl[lpn].value) then
      var p := s.maptbl[lpn].value;
      MarkInvalid(y, s, p).(rev := s.rev[p := None])
    else s
  }

  predicate Known(s: Ftl, p: Ppa) {
    p in s.nand && BlkOf(p) in s.bvpc && BlkOf(p) in s.bipc && p.blk < |s.vpc| && p.blk < |s.ipc|
  }

  ghost function PutPage(g: SsdParams, y: Layout, s: Ftl, lpn: nat, data: int): Outcome
    requires GeometryOk(g)
  {
    var s1 := Overwrite(y, s, lpn);
    if CanWrite(g, s1, lpn) then
      var s2 := Write(g, y, s1, lpn, data);
      Went(s2.(credits := s2.credits - 1))
    else NoLine
  }

  ghost predicate CanCopy(s: Ftl, p: Ppa) {
    Live(s, p) && p in s.pay && PageAt(s.gc) in s.nand && BlkOf(PageAt(s.gc)) in s.bvpc && s.gc.curline < |s.vpc|
  }

  /** gc_write_page. */
  ghost function CopyPage(g: SsdParams, y: Layout, s: Ftl, p: Ppa): Outcome
    requires GeometryOk(g)
  {
    if CanCopy(s, p) && ValidCoord(g, s.gc.at.ch, s.gc.at.lun, s.gc.at.pg) then
      var (n, closed) := NextCoord(g, s.gc.at);
      if closed && s.free == [] then NoLine else Went(Advance(y, Copy(s, p), GcIo, n, closed))
    else NoLine
  }

  /** clean_one_flashpg, from its i-th page. */
  ghost function CopyPages(g: SsdParams, y: Layout, s: Ftl, v: nat, f: nat, ch: nat, lun: nat, i: nat): Outcome
    requires GeometryOk(g)
    decreases g.pgsPerFlash - i
  {
    if i >= g.pgsPerFlash then Went(s)
    else
      var p := FlashPage(g, v, f, ch, lun, i);
      if p in s.nand && s.nand[p] == VALID then
        match CopyPage(g, y, s, p)
        case NoLine => NoLine
        case Went(t) => CopyPages(g, y, t, v, f, ch, lun, i + 1)
      else CopyPages(g, y, s, v, f, ch, lun, i + 1)
  }

  /** The loops of do_gc: LUNs within channels within flash pages, each block erased after its last
      flash page. */
  ghost function CleanLuns(g: SsdParams, y: Layout, s: Ftl, v: nat, f: nat, ch: nat, lun: nat): Outcome
    requires GeometryOk(g)
    decreases g.lunsPerCh - lun
  {
    if lun >= g.lunsPerCh then Went(s)
    else
      match CopyPages(g, y, s, v, f, ch, lun, 0)
      case NoLine => NoLine
      case Went(t) =>
        CleanLuns(g, y, if f == g.flashpgsPerBlk - 1 then FreeBlock(t, Blk(ch, lun, v)) else t, v, f, ch, lun + 1)
  }

  ghost function CleanChannels(g: SsdParams, y: Layout, s: Ftl, v: nat, f: nat, ch: nat): Outcome
    requires GeometryOk(g)
    decreases g.nchs - ch
  {
    if ch >= g.nchs then Went(s)
    else
      match CleanLuns(g, y, s, v, f, ch, 0)
      case NoLine => NoLine
      case Went(t) => CleanChannels(g, y, t, v, f, ch + 1)
  }

  ghost function CleanFlash(g: SsdParams, y: Layout, s: Ftl, v: nat, f: nat): Outcome
    requires GeometryOk(g)
    decreases g.flashpgsPerBlk - f
  {
    if f >= g.flashpgsPerBlk then Went(s)
    else
      match CleanChannels(g, y, s, v, f, 0)
      case NoLine => NoLine
      case Went(t) => CleanFlash(g, y, t, v, f + 1)
  }

  /** Line v taken out of the queue. */
  function Selected(s: Ftl, v: nat): Ftl
    requires v < |s.ipc|
  {
    s.(victims := s.victims - {v}, refill := s.ipc[v])
  }

  /** Line v emptied and put back on the free list. */
  ghost function Emptied(g: SsdParams, y: Layout, s: Ftl, v: nat): Outcome
    requires GeometryOk(g)
  {
    match CleanFlash(g, y, s, v, 0)
    case NoLine => NoLine
    case Went(t) => if v < |t.vpc| && v < |t.ipc| then Went(FreeLine(t, v)) else NoLine
  }

  /** do_gc, with line v at the head of the queue. */
  ghost function CollectLine(g: SsdParams, y: Layout, s: Ftl, v: nat): Outcome
    requires GeometryOk(g) && v < |s.ipc|
  {
    Emptied(g, y, Selected(s, v), v)
  }

  /** The head of the queue, if there is one: a queued line with fewest valid pages. */
  predicate Heads(s: Ftl, v: nat) {
    s.victims != {} && (forall l :: l in s.victims ==> l < |s.vpc|) ==>
      v in s.victims && forall l :: l in s.victims ==> s.vpc[v] <= s.vpc[l]
  }

  /** check_and_refill_write_credit, with line v at the head of the queue. */
  ghost function Refilled(g: SsdParams, y: Layout, v: nat, s: Ftl): Outcome
    requires GeometryOk(g)
  {
    if s.credits > 0 then Went(s)
    else if |s.free| <= GC_THRES_LINES_HIGH && s.victims != {} then
      if v < |s.ipc| then
        match CollectLine(g, y, s, v)
        case NoLine => NoLine
        case Went(t) => Went(t.(credits := t.credits + t.refill))
      else NoLine
    else Went(s.(credits := s.credits + s.refill))
  }

  /** From s to s' by a look at the credits; line v is collected, if one is. */
  ghost predicate Refilling(g: SsdParams, y: Layout, s: Ftl, s': Ftl, v: nat)
    requires GeometryOk(g)
  {
    (s.credits <= 0 && |s.free| <= GC_THRES_LINES_HIGH ==> Heads(s, v)) && Refilled(g, y, v, s) == Went(s')
  }

  /** From s to s' by a whole write of data to page lpn. */
  ghost predicate Wrote(g: SsdParams, y: Layout, s: Ftl, s': Ftl, lpn: nat, data: int, v: nat) {
    && GeometryOk(g) && PutPage(g, y, s, lpn, data).Went?
    && Refilling(g, y, PutPage(g, y, s, lpn, data).s, s', v)
  }
}

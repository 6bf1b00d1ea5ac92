/** NAND geometry: the parameter record of ssd.c, physical page addresses, their
    linear index, and the order in which a write pointer visits the pages of a line. */
module Geometry {
  import opened Radix

  /** A physical page address: channel, LUN, plane, block, page. */
  datatype Ppa = Ppa(ch: nat, lun: nat, pl: nat, blk: nat, pg: nat)

  /** One erase block of the device. */
  datatype Blk = Blk(ch: nat, lun: nat, blk: nat)

  /** The parts of the device configuration that determine its geometry. */
  datatype NandConfig = NandConfig(
    channels: nat, lunsPerCh: nat, pageBytes: nat, flashBytes: nat, oneshotBytes: nat, blksPerPl: nat, blkBytes: nat)

  datatype SsdParams = SsdParams(
    nchs: nat, lunsPerCh: nat, plsPerLun: nat, blksPerPl: nat,
    pgsPerOneshot: nat, oneshotsPerBlk: nat, pgsPerFlash: nat, flashpgsPerBlk: nat, pgsPerBlk: nat,
    pgsPerPl: nat, pgsPerLun: nat, pgsPerCh: nat, ttPgs: nat,
    blksPerLun: nat, ttLuns: nat, blksPerLine: nat, pgsPerLine: nat, ttLines: nat)

  function DivRoundUp(a: nat, b: nat): nat
    requires b > 0
  {
    (a + b - 1) / b
  }

  /** What the configuration headers promise statically: whole numbers of pages per flash
      page and of flash pages per program unit, and one partition's share of channels. */
  predicate ConfigOk(c: NandConfig, capacity: nat, nparts: nat) {
    && nparts > 0 && c.channels > 0 && c.channels % nparts == 0 && c.lunsPerCh > 0
    && c.pageBytes > 0 && c.flashBytes > 0 && c.oneshotBytes > 0
    && c.flashBytes % c.pageBytes == 0 && c.oneshotBytes % c.pageBytes == 0
    && c.oneshotBytes % c.flashBytes == 0
    && capacity / nparts > 0 && (c.blksPerPl > 0 || c.blkBytes > 0)
  }

  /** Fills the parameter record. One plane per LUN, as every shipped configuration has. */
  function SsdInitParams(c: NandConfig, capacity: nat, nparts: nat): SsdParams
    requires ConfigOk(c, capacity, nparts)
  {
    var pls := 1;
    var nchs := c.channels / nparts;
    QuotientPositive(c.channels, nparts);
    var cap := capacity / nparts;
    ProductPositive(c.lunsPerCh, nchs);
    var blkSize := if c.blksPerPl > 0
                   then (ProductPositive(c.blksPerPl * pls, c.lunsPerCh * nchs);
                         DivRoundUp(cap, c.blksPerPl * pls * (c.lunsPerCh * nchs)))
                   else c.blkBytes;
    var blksPerPl := if c.blksPerPl > 0 then c.blksPerPl
                     else (ProductPositive(blkSize * pls, c.lunsPerCh * nchs);
                           DivRoundUp(cap, blkSize * pls * (c.lunsPerCh * nchs)));
    var pgsPerOneshot := c.oneshotBytes / c.pageBytes;
    var oneshotsPerBlk := DivRoundUp(blkSize, c.oneshotBytes);
    var pgsPerBlk := pgsPerOneshot * oneshotsPerBlk;
    var pgsPerPl := pgsPerBlk * blksPerPl;
    var pgsPerLun := pgsPerPl * pls;
    var pgsPerCh := pgsPerLun * c.lunsPerCh;
    var ttLuns := c.lunsPerCh * nchs;
    SsdParams(nchs, c.lunsPerCh, pls, blksPerPl,
              pgsPerOneshot, oneshotsPerBlk, c.flashBytes / c.pageBytes,
              (c.oneshotBytes / c.flashBytes) * oneshotsPerBlk, pgsPerBlk,
              pgsPerPl, pgsPerLun, pgsPerCh, pgsPerCh * nchs,
              blksPerPl * pls, ttLuns, ttLuns, ttLuns * pgsPerBlk, blksPerPl * pls)
  }

  /** The identities between parameters that the write pointer, the linear page index and
      the collector's loops rely on. */
  predicate GeometryOk(g: SsdParams) {
    && 0 < g.nchs && 0 < g.lunsPerCh && g.plsPerLun == 1 && 0 < g.blksPerPl
    && 0 < g.pgsPerOneshot && 0 < g.oneshotsPerBlk && 0 < g.pgsPerFlash && 0 < g.flashpgsPerBlk
    && g.pgsPerBlk == g.pgsPerOneshot * g.oneshotsPerBlk
    && g.pgsPerBlk == g.pgsPerFlash * g.flashpgsPerBlk
    && g.pgsPerPl == g.pgsPerBlk * g.blksPerPl
    && g.pgsPerLun == g.pgsPerPl
    && g.pgsPerCh == g.pgsPerLun * g.lunsPerCh
    && g.ttPgs == g.pgsPerCh * g.nchs
    && g.ttLuns == g.lunsPerCh * g.nchs
    && g.pgsPerLine == g.ttLuns * g.pgsPerBlk
    && g.ttLines == g.blksPerPl
    && 0 < g.pgsPerBlk
    && g.pgsPerLine * g.ttLines == g.ttPgs
  }

  lemma QuotientPositive(a: nat, b: nat)
    requires a > 0 && b > 0 && a % b == 0
    ensures a / b > 0
  {
  }

  lemma QuotientChain(o: nat, f: nat, p: nat)
    requires p > 0 && f > 0 && f % p == 0 && o % f == 0
    ensures o / p == (o / f) * (f / p)
  {
    var x, y := o / f, f / p;
    assert o == f * x && f == p * y;
    calc { o; f * x; (p * y) * x; p * (x * y); }
    DivUnique(o, p, x * y, 0);
  }

  lemma DivRoundUpPositive(a: nat, b: nat)
    requires a > 0 && b > 0
    ensures DivRoundUp(a, b) > 0
  {
    var q := (a + b - 1) / b;
    assert a + b - 1 == b * q + (a + b - 1) % b;
    assert q == 0 ==> b * q == 0;
  }

  /** The geometry the source computes satisfies every identity. */
  lemma InitParamsGeometry(c: NandConfig, capacity: nat, nparts: nat)
    requires ConfigOk(c, capacity, nparts)
    ensures GeometryOk(SsdInitParams(c, capacity, nparts))
  {
    var g := SsdInitParams(c, capacity, nparts);
    QuotientPositive(c.oneshotBytes, c.pageBytes);
    QuotientPositive(c.flashBytes, c.pageBytes);
    QuotientPositive(c.oneshotBytes, c.flashBytes);
    QuotientPositive(c.channels, nparts);
    QuotientChain(c.oneshotBytes, c.flashBytes, c.pageBytes);
    ProductPositive(c.lunsPerCh, g.nchs);
    var cap := capacity / nparts;
    assert 0 < g.oneshotsPerBlk && 0 < g.blksPerPl by {
      if c.blksPerPl > 0 {
        ProductPositive(c.blksPerPl, c.lunsPerCh * g.nchs);
        DivRoundUpPositive(cap, c.blksPerPl * (c.lunsPerCh * g.nchs));
        DivRoundUpPositive(DivRoundUp(cap, c.blksPerPl * (c.lunsPerCh * g.nchs)), c.oneshotBytes);
      } else {
        ProductPositive(c.blkBytes, c.lunsPerCh * g.nchs);
        DivRoundUpPositive(cap, c.blkBytes * (c.lunsPerCh * g.nchs));
        DivRoundUpPositive(c.blkBytes, c.oneshotBytes);
      }
    }
    ProductPositive(g.pgsPerOneshot, g.oneshotsPerBlk);
    ProductPositive(c.oneshotBytes / c.flashBytes, g.oneshotsPerBlk);
    Regroup(c.oneshotBytes / c.flashBytes, g.pgsPerFlash, g.oneshotsPerBlk);
    LineTotal(g.lunsPerCh, g.nchs, g.pgsPerBlk, g.blksPerPl);
  }

  lemma WholeQuotient(a: nat, b: nat)
    requires b > 0 && a % b == 0
    ensures a / b * b == a
  {
  }

  /** The least number of parts of size b that cover a. */
  lemma Covering(a: nat, b: nat)
    requires a > 0 && b > 0
    ensures DivRoundUp(a, b) > 0 && (DivRoundUp(a, b) - 1) * b < a <= DivRoundUp(a, b) * b
  {
    var q, r := DivMod(a + b - 1, b);
    DivRoundUpPositive(a, b);
    assert b * q == q * b && (q - 1) * b == q * b - b;
  }

  /** Where the parameters come from: the channels are shared out, flash page and program unit are so
      many mapping units, and a block of blk bytes takes the fewest program units that cover it. If the
      blocks per plane are given, blk is the least for which the partition holds its share of the
      capacity; if the block size is, there are as few blocks as do. */
  lemma ParametersAre(c: NandConfig, capacity: nat, nparts: nat) returns (blk: nat)
    requires ConfigOk(c, capacity, nparts)
    ensures var g, share := SsdInitParams(c, capacity, nparts), capacity / nparts;
            && g.nchs * nparts == c.channels && g.lunsPerCh == c.lunsPerCh && g.plsPerLun == 1
            && g.pgsPerFlash * c.pageBytes == c.flashBytes && g.pgsPerOneshot * c.pageBytes == c.oneshotBytes
            && 0 < blk && (g.oneshotsPerBlk - 1) * c.oneshotBytes < blk <= g.oneshotsPerBlk * c.oneshotBytes
            && (if c.blksPerPl > 0
                then g.blksPerPl == c.blksPerPl
                     && (blk - 1) * (c.blksPerPl * (c.lunsPerCh * g.nchs)) < share
                     && share <= blk * (c.blksPerPl * (c.lunsPerCh * g.nchs))
                else blk == c.blkBytes && 0 < g.blksPerPl
                     && (g.blksPerPl - 1) * (blk * (c.lunsPerCh * g.nchs)) < share
                     && share <= g.blksPerPl * (blk * (c.lunsPerCh * g.nchs)))
  {
    var g, share := SsdInitParams(c, capacity, nparts), capacity / nparts;
    WholeQuotient(c.channels, nparts);
    WholeQuotient(c.flashBytes, c.pageBytes);
    WholeQuotient(c.oneshotBytes, c.pageBytes);
    QuotientPositive(c.channels, nparts);
    ProductPositive(c.lunsPerCh, g.nchs);
    if c.blksPerPl > 0 {
      ProductPositive(c.blksPerPl, c.lunsPerCh * g.nchs);
      blk := DivRoundUp(share, c.blksPerPl * (c.lunsPerCh * g.nchs));
      Covering(share, c.blksPerPl * (c.lunsPerCh * g.nchs));
    } else {
      ProductPositive(c.blkBytes, c.lunsPerCh * g.nchs);
      blk := c.blkBytes;
      Covering(share, c.blkBytes * (c.lunsPerCh * g.nchs));
    }
    Covering(blk, c.oneshotBytes);
  }

  lemma Regroup(x: nat, y: nat, k: nat)
    ensures (x * y) * k == y * (x * k)
  {
  }

  lemma LineTotal(l: nat, n: nat, b: nat, k: nat)
    ensures ((l * n) * b) * k == ((b * k) * l) * n
  {
    calc { ((l * n) * b) * k; (l * n) * (b * k); ((b * k) * l) * n; }
  }

  predicate ValidPpa(g: SsdParams, p: Ppa) {
    && p.ch < g.nchs && p.lun < g.lunsPerCh && p.pl < g.plsPerLun
    && p.blk < g.blksPerPl && p.pg < g.pgsPerBlk
  }

  function BlkOf(p: Ppa): Blk {
    Blk(p.ch, p.lun, p.blk)
  }

  /** The linear page index of an address. */
  function PgIdx(g: SsdParams, p: Ppa): nat {
    p.ch * g.pgsPerCh + p.lun * g.pgsPerLun + p.pl * g.pgsPerPl + p.blk * g.pgsPerBlk + p.pg
  }

  lemma PgIdxHorner(g: SsdParams, p: Ppa)
    requires GeometryOk(g) && ValidPpa(g, p)
    ensures PgIdx(g, p) == Horner(p.ch, p.lun, g.lunsPerCh, p.blk, g.blksPerPl, p.pg, g.pgsPerBlk)
  {
    var b, k, l := g.pgsPerBlk, g.blksPerPl, g.lunsPerCh;
    calc { p.ch * g.pgsPerCh; p.ch * ((b * k) * l); ((p.ch * l) * k) * b; }
    calc { p.lun * g.pgsPerLun; p.lun * (b * k); (p.lun * k) * b; }
    var x, y := p.ch * l, p.lun;
    calc { ((x + y) * k + p.blk) * b; (x * k + y * k + p.blk) * b; (x * k) * b + (y * k) * b + p.blk * b; }
  }

  lemma TotalPages(g: SsdParams)
    requires GeometryOk(g)
    ensures g.nchs * g.lunsPerCh * g.blksPerPl * g.pgsPerBlk == g.ttPgs
  {
    var n, l, k, b := g.nchs, g.lunsPerCh, g.blksPerPl, g.pgsPerBlk;
    calc { n * l * k * b; ((b * k) * l) * n; g.ttPgs; }
  }

  /** The linear index stays within the tables it indexes and tells addresses apart. */
  lemma PgIdxInjective(g: SsdParams, p: Ppa, q: Ppa)
    requires GeometryOk(g) && ValidPpa(g, p) && ValidPpa(g, q)
    ensures PgIdx(g, p) < g.ttPgs
    ensures PgIdx(g, p) == PgIdx(g, q) ==> p == q
  {
    hide GeometryOk, PgIdx, Horner;
    PgIdxHorner(g, p);
    PgIdxHorner(g, q);
    var n, l, k, b := g.nchs, g.lunsPerCh, g.blksPerPl, g.pgsPerBlk;
    HornerBound(p.ch, n, p.lun, l, p.blk, k, p.pg, b);
    TotalPages(g);
    if PgIdx(g, p) == PgIdx(g, q) {
      HornerInjective(p.ch, q.ch, p.lun, q.lun, l, p.blk, q.blk, k, p.pg, q.pg, b);
      OnePlane(g, p);
      OnePlane(g, q);
    }
  }

  lemma OnePlane(g: SsdParams, p: Ppa)
    requires GeometryOk(g) && ValidPpa(g, p)
    ensures p.pl == 0
  {
  }

  // ---- the order in which a write pointer visits a line ----

  predicate ValidCoord(g: SsdParams, ch: nat, lun: nat, pg: nat) {
    ch < g.nchs && lun < g.lunsPerCh && pg < g.pgsPerBlk
  }

  /** How many pages of a line are visited before (ch, lun, pg): wordline by wordline, then
      LUN by LUN, then channel by channel, then page by page within the program unit. */
  function VisitPos(g: SsdParams, ch: nat, lun: nat, pg: nat): nat {
    if g.pgsPerOneshot == 0 then 0
    else Horner(pg / g.pgsPerOneshot, lun, g.lunsPerCh, ch, g.nchs, pg % g.pgsPerOneshot, g.pgsPerOneshot)
  }

  /** Successive program units go to successive channels, then to the next LUN of each, and then to the
      next wordline. */
  lemma VisitStripes(g: SsdParams, ch: nat, lun: nat, pg: nat)
    requires GeometryOk(g)
    ensures var n := g.pgsPerOneshot;
            && VisitPos(g, ch + 1, lun, pg) == VisitPos(g, ch, lun, pg) + n
            && VisitPos(g, ch, lun + 1, pg) == VisitPos(g, ch, lun, pg) + g.nchs * n
            && VisitPos(g, ch, lun, pg + n) == VisitPos(g, ch, lun, pg) + g.lunsPerCh * g.nchs * n
            && ((pg + 1) % n != 0 ==> VisitPos(g, ch, lun, pg + 1) == VisitPos(g, ch, lun, pg) + 1)
  {
    var n := g.pgsPerOneshot;
    var q, r := DivMod(pg, n);
    DivUnique(pg + n, n, q + 1, r);
    if r + 1 < n { DivUnique(pg + 1, n, q, r + 1); } else { DivUnique(pg + 1, n, q + 1, 0); }
    HornerSteps(q, lun, g.lunsPerCh, ch, g.nchs, r, n);
  }

  lemma WordlineBound(g: SsdParams, pg: nat)
    requires GeometryOk(g) && pg < g.pgsPerBlk
    ensures pg / g.pgsPerOneshot < g.oneshotsPerBlk
  {
    var n, q := g.pgsPerOneshot, pg / g.pgsPerOneshot;
    assert pg == q * n + pg % n;
    MulMono(g.oneshotsPerBlk, q, n);
  }

  lemma LineSize(g: SsdParams)
    requires GeometryOk(g)
    ensures g.pgsPerLine == g.oneshotsPerBlk * g.lunsPerCh * g.nchs * g.pgsPerOneshot
    ensures 0 < g.pgsPerLine
  {
    var o, l, n, s := g.oneshotsPerBlk, g.lunsPerCh, g.nchs, g.pgsPerOneshot;
    calc { (l * n) * (s * o); ((o * l) * n) * s; }
    ProductPositive(l, n);
    ProductPositive(l * n, g.pgsPerBlk);
  }

  lemma VisitPosBound(g: SsdParams, ch: nat, lun: nat, pg: nat)
    requires GeometryOk(g) && ValidCoord(g, ch, lun, pg)
    ensures VisitPos(g, ch, lun, pg) < g.pgsPerLine
  {
    WordlineBound(g, pg);
    HornerBound(pg / g.pgsPerOneshot, g.oneshotsPerBlk, lun, g.lunsPerCh, ch, g.nchs,
                pg % g.pgsPerOneshot, g.pgsPerOneshot);
    LineSize(g);
  }

  /** Visit positions number the pages of a line below pgsPerLine without repetition. */
  lemma VisitPosInjective(g: SsdParams, ch: nat, lun: nat, pg: nat, ch': nat, lun': nat, pg': nat)
    requires GeometryOk(g) && ValidCoord(g, ch, lun, pg) && ValidCoord(g, ch', lun', pg')
    ensures VisitPos(g, ch, lun, pg) < g.pgsPerLine
    ensures VisitPos(g, ch, lun, pg) == VisitPos(g, ch', lun', pg') ==> ch == ch' && lun == lun' && pg == pg'
  {
    VisitPosBound(g, ch, lun, pg);
    if VisitPos(g, ch, lun, pg) == VisitPos(g, ch', lun', pg') {
      WordlineDigits(pg, pg', lun, lun', g.lunsPerCh, ch, ch', g.nchs, g.pgsPerOneshot);
    }
  }

  lemma WordlineDigits(pg: nat, pg': nat, lun: nat, lun': nat, l: nat, ch: nat, ch': nat, n: nat, s: nat)
    requires s > 0 && lun < l && lun' < l && ch < n && ch' < n
    requires Horner(pg / s, lun, l, ch, n, pg % s, s) == Horner(pg' / s, lun', l, ch', n, pg' % s, s)
    ensures ch == ch' && lun == lun' && pg == pg'
  {
    var w, r := DivMod(pg, s);
    var w', r' := DivMod(pg', s);
    VisitDigits(pg, w, r, pg', w', r', lun, lun', l, ch, ch', n, s);
  }

  lemma VisitDigits(pg: nat, w: nat, r: nat, pg': nat, w': nat, r': nat, lun: nat, lun': nat, l: nat,
                    ch: nat, ch': nat, n: nat, s: nat)
    requires lun < l && lun' < l && ch < n && ch' < n && r < s && r' < s
    requires pg == s * w + r && pg' == s * w' + r'
    requires Horner(w, lun, l, ch, n, r, s) == Horner(w', lun', l, ch', n, r', s)
    ensures ch == ch' && lun == lun' && pg == pg'
  {
    HornerInjective(w, w', lun, lun', l, ch, ch', n, r, r', s);
  }

  // ---- advancing a write pointer ----

  datatype Coord = Coord(ch: nat, lun: nat, pg: nat)

  /** The coordinate part of advance_write_pointer; closed tells that the line is used up. */
  function NextCoord(g: SsdParams, c: Coord): (r: (Coord, bool))
    requires GeometryOk(g) && ValidCoord(g, c.ch, c.lun, c.pg)
  {
    var pg := c.pg + 1;
    if pg % g.pgsPerOneshot != 0 then (Coord(c.ch, c.lun, pg), false)
    else
      OneshotPassed(c.pg, g.pgsPerOneshot);
      var pg := pg - g.pgsPerOneshot;
      var ch := c.ch + 1;
      if ch != g.nchs then (Coord(ch, c.lun, pg), false)
      else
        var lun := c.lun + 1;
        if lun != g.lunsPerCh then (Coord(0, lun, pg), false)
        else
          var pg := pg + g.pgsPerOneshot;
          if pg != g.pgsPerBlk then (Coord(0, 0, pg), false)
          else (Coord(0, 0, 0), true)
  }

  lemma OneshotPassed(pg: nat, s: nat)
    requires s > 0 && (pg + 1) % s == 0
    ensures pg + 1 >= s
  {
  }

  function Visit(g: SsdParams, c: Coord): nat {
    VisitPos(g, c.ch, c.lun, c.pg)
  }

  lemma WordlineStart(pg: nat, s: nat)
    requires s > 0
    ensures (pg + 1) % s != 0 ==> (pg + 1) / s == pg / s && (pg + 1) % s == pg % s + 1
    ensures (pg + 1) % s == 0 ==>
      (pg % s == s - 1 && pg + 1 >= s && (pg + 1 - s) / s == pg / s
       && (pg + 1 - s) % s == 0 && (pg + 1) / s == pg / s + 1 && pg + 1 == (pg / s + 1) * s)
  {
    var q, r := pg / s, pg % s;
    assert pg == s * q + r;
    if r + 1 < s {
      DivUnique(pg + 1, s, q, r + 1);
    } else {
      assert pg + 1 == s * (q + 1) + 0 by { assert s * (q + 1) == s * q + s; }
      DivUnique(pg + 1, s, q + 1, 0);
      DivUnique(pg + 1 - s, s, q, 0);
    }
  }

  /** One step moves to the next visit position; the last position of the line closes it
      and starts over at position zero. So a line is programmed page by page, each once. */
  lemma NextCoordVisits(g: SsdParams, c: Coord)
    requires GeometryOk(g) && ValidCoord(g, c.ch, c.lun, c.pg)
    ensures var (n, closed) := NextCoord(g, c);
            && ValidCoord(g, n.ch, n.lun, n.pg)
            && Visit(g, c) < g.pgsPerLine
            && (closed <==> Visit(g, c) == g.pgsPerLine - 1)
            && Visit(g, n) == if closed then 0 else Visit(g, c) + 1
  {
    var s := g.pgsPerOneshot;
    var (n, closed) := NextCoord(g, c);
    WordlineStart(c.pg, s);
    VisitPosBound(g, c.ch, c.lun, c.pg);
    if (c.pg + 1) % s != 0 {
      SameWordline(g, c);
    } else if c.ch + 1 != g.nchs || c.lun + 1 != g.lunsPerCh {
      LunStep(c.pg / s, c.lun, g.lunsPerCh, c.ch, g.nchs, s);
    } else {
      WordlineEnd(g, c);
    }
    VisitPosBound(g, n.ch, n.lun, n.pg);
  }

  lemma SameWordline(g: SsdParams, c: Coord)
    requires GeometryOk(g) && ValidCoord(g, c.ch, c.lun, c.pg)
    requires (c.pg + 1) % g.pgsPerOneshot != 0
    ensures c.pg + 1 < g.pgsPerBlk
    ensures VisitPos(g, c.ch, c.lun, c.pg + 1) == Visit(g, c) + 1
  {
    WordlineStart(c.pg, g.pgsPerOneshot);
    DivUnique(g.pgsPerBlk, g.pgsPerOneshot, g.oneshotsPerBlk, 0);
  }

  lemma WordlineEnd(g: SsdParams, c: Coord)
    requires GeometryOk(g) && ValidCoord(g, c.ch, c.lun, c.pg)
    requires (c.pg + 1) % g.pgsPerOneshot == 0 && c.ch == g.nchs - 1 && c.lun == g.lunsPerCh - 1
    ensures c.pg + 1 <= g.pgsPerBlk
    ensures c.pg + 1 == g.pgsPerBlk ==> Visit(g, c) == g.pgsPerLine - 1 && VisitPos(g, 0, 0, 0) == 0
    ensures c.pg + 1 < g.pgsPerBlk ==> VisitPos(g, 0, 0, c.pg + 1) == Visit(g, c) + 1 && Visit(g, c) + 1 < g.pgsPerLine
  {
    var s := g.pgsPerOneshot;
    var w := c.pg / s;
    WordlineStart(c.pg, s);
    WordlineBound(g, c.pg);
    LineSize(g);
    LastWordline(w, g.oneshotsPerBlk, g.lunsPerCh, g.nchs, s);
    MulMono(w + 1, g.oneshotsPerBlk, s);
    DivUnique(0, s, 0, 0);
  }

  lemma LunStep(w: nat, lun: nat, l: nat, ch: nat, nc: nat, s: nat)
    requires s > 0 && lun < l && ch < nc
    ensures Horner(w, lun, l, ch + 1, nc, 0, s) == Horner(w, lun, l, ch, nc, s - 1, s) + 1
    ensures ch + 1 == nc ==> Horner(w, lun + 1, l, 0, nc, 0, s) == Horner(w, lun, l, ch, nc, s - 1, s) + 1
  {
    var a := w * l + lun;
    assert (a * nc + ch + 1) * s == (a * nc + ch) * s + s;
    if ch + 1 == nc {
      assert (a + 1) * nc == a * nc + nc;
    }
  }

  lemma LastWordline(w: nat, o: nat, l: nat, nc: nat, s: nat)
    requires s > 0 && l > 0 && nc > 0 && w < o
    ensures Horner(w, l - 1, l, nc - 1, nc, s - 1, s) + 1 == (w + 1) * l * nc * s
    ensures Horner(w + 1, 0, l, 0, nc, 0, s) == (w + 1) * l * nc * s
    ensures w + 1 < o ==> (w + 1) * l * nc * s + 1 <= o * l * nc * s
    ensures w + 1 == o ==> (w + 1) * l * nc * s == o * l * nc * s
  {
    LunStep(w, l - 1, l, nc - 1, nc, s);
    assert w * l + l == (w + 1) * l;
    if w + 1 < o {
      MulMono(w + 1, o, l);
      MulMono((w + 1) * l, o * l, nc);
      MulMono((w + 1) * l * nc, o * l * nc, s);
    }
  }
}

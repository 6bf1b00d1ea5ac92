/** One instance of the page-mapped FTL, updated in place as conv_ftl.c does. Every method is
    proved against the steps of FtlState; commands keep the invariant and change the stored
    contents exactly as a map from logical page to data would change. */
module FtlInstance {
  import opened Collections
  import Radix
  import opened Wrappers
  import opened Geometry
  import opened PriorityQueue
  import opened FtlState
  import opened FtlSteps
  import opened FtlGc
  import opened FtlGcLoop
  import opened FtlWrite

  const U32_MOD: int := 0x1_0000_0000

  /** Subtraction and addition on the 32-bit credit counter. */
  function U32(x: int): int {
    x % U32_MOD
  }

  /** The index of an entry in a table of the reverse map. */
  ghost predicate RevFor(g: SsdParams, rmap: seq<Option<nat>>, rev: map<Ppa, Option<nat>>) {
    forall p :: p in rev ==> ValidPpa(g, p) && PgIdx(g, p) < |rmap| && rmap[PgIdx(g, p)] == rev[p]
  }

  ghost predicate PosFor(pos: seq<nat>, victims: set<nat>) {
    forall l :: 0 <= l < |pos| ==> (pos[l] != 0 <==> l in victims)
  }

  lemma RevUpdate(g: SsdParams, rmap: seq<Option<nat>>, rev: map<Ppa, Option<nat>>, p: Ppa, lpn: Option<nat>)
    requires GeometryOk(g) && RevFor(g, rmap, rev) && p in rev
    ensures PgIdx(g, p) < |rmap| && RevFor(g, rmap[PgIdx(g, p) := lpn], rev[p := lpn])
  {
    hide GeometryOk, PgIdx;
    forall q | q in rev && q != p ensures PgIdx(g, q) != PgIdx(g, p) {
      PgIdxInjective(g, p, q);
    }
  }

  /** Every page of the device. */
  function AllPages(g: SsdParams): (r: set<Ppa>)
    requires GeometryOk(g)
    ensures forall p :: p in r <==> ValidPpa(g, p)
  {
    set ch, lun, pl, blk, pg | 0 <= ch < g.nchs && 0 <= lun < g.lunsPerCh && 0 <= pl < g.plsPerLun
                            && 0 <= blk < g.blksPerPl && 0 <= pg < g.pgsPerBlk :: Ppa(ch, lun, pl, blk, pg)
  }

  function PageMap<T>(pages: set<Ppa>, x: T): (r: map<Ppa, T>)
    ensures r.Keys == pages && forall p :: p in r ==> r[p] == x
  {
    map p | p in pages :: x
  }

  function BlkMap(pages: set<Ppa>): (r: map<Blk, int>)
    ensures (forall p :: p in pages ==> BlkOf(p) in r) && forall b :: b in r ==> r[b] == 0
  {
    map p | p in pages :: BlkOf(p) := 0
  }

  function LayoutOf(g: SsdParams, pages: set<Ppa>): (r: Layout)
    requires forall p :: p in pages <==> ValidPpa(g, p)
    ensures LayoutFor(g, r) && r.visit.Keys == pages && r.lines == g.ttLines && r.perLine == g.pgsPerLine
  {
    Layout(g.ttLines, g.pgsPerLine, map p | p in pages :: VisitPos(g, p.ch, p.lun, p.pg))
  }

  /** Back pointers are nonzero exactly for queued lines, given that they are zero elsewhere. */
  lemma PosAfter(h: Heap, victims: set<nat>)
    requires IsHeap(h) && MembersOf(h) == victims
    requires forall l :: 0 <= l < |h.pos| && l !in victims ==> h.pos[l] == 0
    ensures PosFor(h.pos, victims)
  {
    assert forall l :: 0 <= l < |h.pos| ==> (l in victims <==> At(h, l));
  }

  lemma RevGet(g: SsdParams, rmap: seq<Option<nat>>, rev: map<Ppa, Option<nat>>, p: Ppa)
    requires RevFor(g, rmap, rev) && p in rev
    ensures PgIdx(g, p) < |rmap| && rmap[PgIdx(g, p)] == rev[p]
  {
  }

  lemma CopyingLive(y: Layout, s0: Ftl, s: Ftl, v: nat, done: set<Ppa>, capacity: nat, p: Ppa)
    requires Copying(y, s0, s, v, done, capacity) && p in LineSet(s0.nand, v, VALID) && p !in done
    ensures Live(s, p)
  {
  }

  lemma CopyTarget(y: Layout, s: Ftl, v: nat, u: nat, k: nat)
    requires LayoutOk(y) && Core(y, s, v, -1, u, k) && PointerAt(y, s, GcIo, k)
    ensures var p := PageAt(s.gc);
            p in s.rev && p in s.nand && s.nand[p] == FREE && BlkOf(p) in s.bvpc && p.blk < y.lines && p.blk != v
            && p.blk !in s.victims && 0 <= s.vpc[p.blk] < y.perLine
  {
    NewPageIsFree(y, s, v, -1, u, k, GcIo);
    assert Places(ListsOf(s), s.gc.curline) == 1;
  }

  lemma FirstFree(y: Layout, s: Ftl, x: int, u: nat, k: nat)
    requires Core(y, s, x, -1, u, k) && s.free != []
    ensures s.free[0] < y.lines
  {
    assert s.free[0] in s.free;
  }

  lemma PageNotFree(g: SsdParams, y: Layout, s0: Ftl, s: Ftl, v: nat, done: set<Ppa>, freed: set<Blk>,
                    f: nat, ch: nat, lun: nat, i: nat)
    requires LoopAt(g, y, s0, s, v, done, freed, f, ch, lun, 0)
    requires f < g.flashpgsPerBlk && ch < g.nchs && lun < g.lunsPerCh && i < g.pgsPerFlash
    ensures FlashPage(g, v, f, ch, lun, i) in s.nand && s.nand[FlashPage(g, v, f, ch, lun, i)] != FREE
  {
    FlashPageExists(g, y, v, f, ch, lun, i);
    assert !Erased(g, FlashPage(g, v, f, ch, lun, i), f, ch, lun);
  }

  lemma QueuedLines(h: Heap)
    requires IsHeap(h)
    ensures forall l :: l in MembersOf(h) ==> l < |h.pos|
  {
  }

  lemma PosShrinks(pos0: seq<nat>, pos1: seq<nat>, pos2: seq<nat>, v: nat, was: set<nat>)
    requires PosFor(pos0, was) && OnlyMembersMove(pos1, pos0, was) && v < |pos1| && pos2 == pos1[v := 0]
    ensures forall l :: 0 <= l < |pos2| && l !in was - {v} ==> pos2[l] == 0
  {
  }

  lemma QueueHasSpace(h: Heap, l: nat)
    requires IsHeap(h) && l < |h.pos| && l !in MembersOf(h)
    ensures |MembersOf(h)| < |h.pos|
  {
    SubsetSize(MembersOf(h) + {l}, Collections.Below(|h.pos|));
  }

  lemma InitRev(g: SsdParams, pages: set<Ppa>, rmap: seq<Option<nat>>, rev: map<Ppa, Option<nat>>)
    requires GeometryOk(g) && (forall p :: p in pages ==> ValidPpa(g, p)) && rev.Keys == pages
    requires |rmap| == g.ttPgs && (forall i :: 0 <= i < |rmap| ==> rmap[i] == None)
             && (forall p :: p in rev ==> rev[p] == None)
    ensures RevFor(g, rmap, rev)
  {
    hide GeometryOk, PgIdx;
    forall p | p in rev ensures PgIdx(g, p) < |rmap| { PgIdxInjective(g, p, p); }
  }

  ghost predicate Fresh(g: SsdParams, y: Layout, s: Ftl) {
    && s.nand.Keys == y.visit.Keys && s.rev.Keys == y.visit.Keys && s.pay.Keys == y.visit.Keys
    && (forall p :: p in s.nand ==> s.nand[p] == FREE)
    && (forall l :: 0 <= l < |s.maptbl| ==> s.maptbl[l] == None)
    && |s.vpc| == g.ttLines && |s.ipc| == g.ttLines
    && (forall l :: 0 <= l < g.ttLines ==> s.vpc[l] == 0 && s.ipc[l] == 0)
    && (forall b :: b in s.bvpc ==> s.bvpc[b] == 0) && (forall b :: b in s.bipc ==> s.bipc[b] == 0)
    && (forall p :: p in y.visit ==> BlkOf(p) in s.bvpc && BlkOf(p) in s.bipc)
  }

  function LinesFrom(a: nat, n: nat): (r: seq<nat>)
    requires a <= n
    ensures |r| == n - a && forall i :: 0 <= i < |r| ==> r[i] == a + i
  {
    seq(n - a, i requires 0 <= i < n - a => a + i)
  }

  lemma InitFresh(g: SsdParams, y: Layout, pages: set<Ppa>, s: Ftl)
    requires y.visit.Keys == pages && s.nand == PageMap(pages, FREE) && s.rev == PageMap(pages, None)
             && s.pay == PageMap(pages, 0)
    requires s.bvpc == BlkMap(pages) && s.bipc == BlkMap(pages)
    requires |s.vpc| == g.ttLines && |s.ipc| == g.ttLines && (forall l :: 0 <= l < |s.maptbl| ==> s.maptbl[l] == None)
    requires forall l :: 0 <= l < g.ttLines ==> s.vpc[l] == 0 && s.ipc[l] == 0
    ensures Fresh(g, y, s)
  {
  }

  /** A new instance as a value. */
  function Initial(g: SsdParams): Ftl
    requires GeometryOk(g)
  {
    var pages := AllPages(g);
    Ftl(seq(g.ttPgs, _ => None), PageMap(pages, None), PageMap(pages, FREE), PageMap(pages, 0), BlkMap(pages),
        BlkMap(pages),
        seq(g.ttLines, _ => 0), seq(g.ttLines, _ => 0), if 2 <= g.ttLines then LinesFrom(2, g.ttLines) else [], [], {},
        WritePointer(0, Coord(0, 0, 0)), WritePointer(1, Coord(0, 0, 0)), g.pgsPerLine, g.pgsPerLine)
  }

  lemma InitialFresh(g: SsdParams, y: Layout)
    requires GeometryOk(g) && LayoutFor(g, y) && 4 < g.ttLines
    ensures Fresh(g, y, Initial(g)) && |Initial(g).maptbl| == g.ttPgs
    ensures var s := Initial(g);
            && |s.free| == g.ttLines - 2 && (forall i :: 0 <= i < |s.free| ==> s.free[i] == i + 2)
            && s.full == [] && s.victims == {} && s.wp == WritePointer(0, Coord(0, 0, 0))
                && s.gc == WritePointer(1, Coord(0, 0, 0))
            && s.credits == s.refill == g.pgsPerLine
  {
    hide GeometryOk, AllPages, PageMap, BlkMap, Fresh;
    assert y.visit.Keys == AllPages(g);
    InitFresh(g, y, AllPages(g), Initial(g));
  }

  lemma InitCounts(s: Ftl)
    requires forall p :: p in s.nand ==> s.nand[p] == FREE
    requires |s.vpc| == |s.ipc| && forall l :: 0 <= l < |s.vpc| ==> s.vpc[l] == 0 && s.ipc[l] == 0
    requires (forall b :: b in s.bvpc ==> s.bvpc[b] == 0) && (forall b :: b in s.bipc ==> s.bipc[b] == 0)
    ensures CountsOk(s.nand, s.vpc, s.ipc, -1) && BlkCountsOk(s.nand, s.bvpc, s.bipc)
  {
    forall l, st: PageStatus | st != FREE ensures LineSet(s.nand, l, st) == {} {
      assert forall p :: p !in LineSet(s.nand, l, st);
    }
    forall b, st: PageStatus | st != FREE ensures BlkSet(s.nand, b, st) == {} {
      assert forall p :: p !in BlkSet(s.nand, b, st);
    }
  }

  lemma InitLines(n: nat, q: Lists)
    requires n > 4 && |q.free| == n - 2 && (forall i :: 0 <= i < |q.free| ==> q.free[i] == i + 2)
    requires q.full == [] && q.victims == {} && q.user == 0 && q.gc == 1
    ensures LinesOk(n, q, -1)
  {
    forall l | 0 <= l < n ensures Places(q, l) == One(l != -1) {
      if l >= 2 { assert q.free[l - 2] == l; }
    }
  }

  lemma InitCore(g: SsdParams, y: Layout, s: Ftl)
    requires Fresh(g, y, s) && y.lines == g.ttLines && 4 < g.ttLines
    requires |s.free| == g.ttLines - 2 && (forall i :: 0 <= i < |s.free| ==> s.free[i] == i + 2)
    requires s.full == [] && s.victims == {} && s.wp.curline == 0 && s.gc.curline == 1
    ensures Core(y, s, -1, -1, 0, 0) && Contents(s) == map[]
  {
    hide CountsOk, BlkCountsOk, LinesOk, StatusOk, FillOk;
    InitCounts(s);
    InitLines(y.lines, ListsOf(s));
    InitStatus(y, s.nand, ListsOf(s));
    InitFill(y.perLine, s.vpc, s.ipc, ListsOf(s));
    assert Contents(s).Keys == {};
  }

  lemma InitStatus(y: Layout, nand: Nand, q: Lists)
    requires q.full == [] && q.victims == {} && forall p :: p in nand ==> nand[p] == FREE
    ensures StatusOk(y.visit, nand, q, -1, 0, 0)
  {
  }

  lemma InitFill(perLine: nat, vpc: seq<int>, ipc: seq<int>, q: Lists)
    requires |vpc| == |ipc| && q.full == [] && q.victims == {}
    requires forall l :: 0 <= l < |vpc| ==> vpc[l] == 0 && ipc[l] == 0
    ensures FillOk(perLine, vpc, ipc, q, 0, 0)
  {
  }

  /** A freshly initialised instance satisfies the invariant; the reserve is all but two lines
      of the device. */
  lemma InitAtRest(g: SsdParams, y: Layout, s: Ftl, capacity: nat)
    requires GeometryOk(g) && LayoutFor(g, y) && Fresh(g, y, s) && 4 < g.ttLines
    requires |s.free| == g.ttLines - 2 && (forall i :: 0 <= i < |s.free| ==> s.free[i] == i + 2)
    requires s.full == [] && s.victims == {}
    requires s.wp == WritePointer(0, Coord(0, 0, 0)) && s.gc == WritePointer(1, Coord(0, 0, 0))
    requires s.credits == g.pgsPerLine && s.refill == g.pgsPerLine
    ensures AtRest(y, s, capacity) && Contents(s) == map[]
  {
    InitCore(g, y, s);
    InitPointers(g, y, s);
    assert Mapped(s.maptbl) == {};
    hide Core, LayoutFor, Fresh, GeometryOk, Contents;
    Radix.MulMono(3, |s.free|, y.perLine);
  }

  lemma InitPointers(g: SsdParams, y: Layout, s: Ftl)
    requires GeometryOk(g) && LayoutFor(g, y) && 4 < g.ttLines
    requires s.wp == WritePointer(0, Coord(0, 0, 0)) && s.gc == WritePointer(1, Coord(0, 0, 0))
    ensures PageAt(s.wp) in y.visit && PageAt(s.gc) in y.visit && Pos(y, s.wp) == 0 && Pos(y, s.gc) == 0
    ensures 0 < y.perLine
  {
    LineSize(g);
    assert ValidPpa(g, PageAt(s.wp)) && ValidPpa(g, PageAt(s.gc));
    Radix.DivUnique(0, g.pgsPerOneshot, 0, 0);
  }

  class ConvFtl {
    const g: SsdParams
    ghost const capacity: nat        // how many logical pages the host may keep stored
    const maptbl: array<Option<Ppa>>
    const rmap: array<Option<nat>>   // indexed by linear page number
    var nand: map<Ppa, PageStatus>   // the page states of the nested NAND arrays
    var bvpc: map<Blk, int>
    var bipc: map<Blk, int>
    const lineVpc: array<int>
    const lineIpc: array<int>
    const linePos: array<nat>
    const victimPq: PQueue
    var freeList: seq<nat>
    var fullList: seq<nat>
    var freeCnt: int
    var victimCnt: int
    var fullCnt: int
    var wp: WritePointer
    var gcWp: WritePointer
    var credits: int                 // 32-bit
    var refill: int                  // 32-bit

    ghost const y: Layout
    ghost var rev: map<Ppa, Option<nat>>
    ghost var victims: set<nat>
    ghost var pay: map<Ppa, int>     // data last programmed into each page

    ghost function View(): Ftl
      reads this, maptbl, lineVpc, lineIpc
    {
      Ftl(maptbl[..], rev, nand, pay, bvpc, bipc, lineVpc[..], lineIpc[..], freeList, fullList, victims, wp, gcWp,
          credits, refill)
    }

    ghost predicate Static()
    {
      && GeometryOk(g) && LayoutFor(g, y) && LayoutOk(y) && y.perLine == g.pgsPerLine && y.lines == g.ttLines
      && lineIpc != lineVpc && linePos != victimPq.d && victimPq.pri == lineVpc && victimPq.pos == linePos
      && lineVpc.Length == g.ttLines && lineIpc.Length == g.ttLines && linePos.Length == g.ttLines
      && victimPq.d.Length == g.ttLines + 1 && maptbl.Length == g.ttPgs
    }

    ghost predicate QueueOk()
      requires Static()
      reads this`victims, lineVpc, linePos, victimPq, victimPq.d
    {
      && victimPq.Valid() && victims == victimPq.Members() && victimPq.size == |victims| + 1
      && PosFor(linePos[..], victims)
    }

    ghost predicate Shape()
      reads this, rmap, lineVpc, linePos, victimPq, victimPq.d
    {
      && Static() && QueueOk()
      && RevFor(g, rmap[..], rev)
      && freeCnt == |freeList| && fullCnt == |fullList| && victimCnt == |victims|
    }

    /** The state between commands. */
    ghost predicate Valid()
      reads this, maptbl, rmap, lineVpc, lineIpc, linePos, victimPq, victimPq.d
    {
      && Shape() && AtRest(y, View(), capacity)
      && capacity <= (g.ttLines - 4) * g.pgsPerLine && g.pgsPerLine < 0x8000_0000
    }

    ghost function Stored(): map<nat, int>
      reads this, maptbl, lineVpc, lineIpc
    {
      Contents(View())
    }

    constructor (g: SsdParams, ghost capacity: nat)
      requires GeometryOk(g) && capacity <= (g.ttLines - 4) * g.pgsPerLine
      requires g.pgsPerLine < 0x8000_0000 && 4 < g.ttLines
      ensures Valid() && Stored() == map[] && this.g == g && this.capacity == capacity && View() == Initial(g)
      ensures fresh({maptbl, rmap, lineVpc, lineIpc, linePos, victimPq, victimPq.d})
    {
      hide *;
      this.g := g;
      this.capacity := capacity;
      maptbl := new Option<Ppa>[g.ttPgs](_ => None);
      rmap := new Option<nat>[g.ttPgs](_ => None);
      var pages := AllPages(g);
      nand := PageMap(pages, FREE);
      rev := PageMap(pages, None);
      pay := PageMap(pages, 0);
      bvpc := BlkMap(pages);
      bipc := BlkMap(pages);
      y := LayoutOf(g, pages);
      var vpc := new int[g.ttLines](_ => 0);
      var pos := new nat[g.ttLines](_ => 0);
      lineVpc := vpc;
      lineIpc := new int[g.ttLines](_ => 0);
      linePos := pos;
      victimPq := new PQueue(g.ttLines, vpc, pos);
      // All lines are put on the free list in order; the two write pointers take the first two.
      wp := WritePointer(0, Coord(0, 0, 0));
      gcWp := WritePointer(1, Coord(0, 0, 0));
      freeList, fullList, victims := LinesFrom(2, g.ttLines), [], {};
      freeCnt, victimCnt, fullCnt := g.ttLines - 2, 0, 0;
      credits, refill := g.pgsPerLine, g.pgsPerLine;
      new;
      InitRev(g, pages, rmap[..], rev);
      StartsInitial(pages);
      StartsAtRest();
      StartsStatic();
      StartsValid();
    }

    /** The arrays have the sizes of the geometry and the queue works on the line tables. */
    lemma StartsStatic()
      requires GeometryOk(g) && LayoutFor(g, y) && y.perLine == g.pgsPerLine && y.lines == g.ttLines
      requires lineIpc != lineVpc && linePos != victimPq.d && victimPq.pri == lineVpc && victimPq.pos == linePos
      requires lineVpc.Length == g.ttLines && lineIpc.Length == g.ttLines && linePos.Length == g.ttLines
      requires victimPq.d.Length == g.ttLines + 1 && maptbl.Length == g.ttPgs
      ensures Static()
    {
      hide GeometryOk, LayoutFor, LayoutOk;
      LayoutForOk(g, y);
    }

    /** With the queue empty and no position recorded, the instance is sound. */
    lemma StartsValid()
      requires Static() && AtRest(y, View(), capacity) && RevFor(g, rmap[..], rev)
      requires capacity <= (g.ttLines - 4) * g.pgsPerLine && g.pgsPerLine < 0x8000_0000
      requires victimPq.Valid() && victimPq.Members() == {} && victimPq.size == 1 && victims == {}
      requires forall l :: 0 <= l < linePos.Length ==> linePos[l] == 0
      requires freeCnt == |freeList| && fullCnt == |fullList| == victimCnt == 0
      ensures Valid() && Stored() == Contents(View())
    {
      hide GeometryOk, LayoutFor, LayoutOk, RevFor, AtRest, IsHeap, MembersOf, Contents;
    }

    /** All tables empty, all counts zero, the lines free but for the two open ones. */
    lemma StartsInitial(pages: set<Ppa>)
      requires GeometryOk(g) && pages == AllPages(g) && 4 < g.ttLines && maptbl.Length == g.ttPgs
      requires nand == PageMap(pages, FREE) && rev == PageMap(pages, None) && pay == PageMap(pages, 0)
      requires bvpc == BlkMap(pages) && bipc == BlkMap(pages) && lineVpc.Length == lineIpc.Length == g.ttLines
      requires forall l :: 0 <= l < maptbl.Length ==> maptbl[l] == None
      requires forall l :: 0 <= l < g.ttLines ==> lineVpc[l] == 0 && lineIpc[l] == 0
      requires freeList == LinesFrom(2, g.ttLines) && fullList == [] && victims == {}
      requires wp == WritePointer(0, Coord(0, 0, 0)) && gcWp == WritePointer(1, Coord(0, 0, 0))
      requires credits == g.pgsPerLine && refill == g.pgsPerLine
      ensures View() == Initial(g)
    {
      hide GeometryOk, AllPages, PageMap, BlkMap;
      assert maptbl[..] == Initial(g).maptbl && lineVpc[..] == Initial(g).vpc && lineIpc[..] == Initial(g).ipc;
    }

    lemma StartsAtRest()
      requires GeometryOk(g) && LayoutFor(g, y) && 4 < g.ttLines && View() == Initial(g)
      ensures AtRest(y, View(), capacity) && Contents(View()) == map[]
    {
      hide GeometryOk, LayoutFor, AtRest, Contents, Fresh, Initial;
      InitialFresh(g, y);
      InitAtRest(g, y, View(), capacity);
    }

    // ---- elementary updates ----

    method SetRmapEnt(lpn: Option<nat>, p: Ppa)
      requires Shape() && p in rev
      modifies rmap, this`rev
      ensures Shape() && View() == old(View()).(rev := old(rev)[p := lpn])
    {
      hide GeometryOk, LayoutFor, LayoutOk, PgIdx, RevFor, PosFor, IsHeap, MembersOf;
      RevUpdate(g, rmap[..], rev, p, lpn);
      ghost var r := rmap[..];
      rmap[PgIdx(g, p)] := lpn;
      rev := rev[p := lpn];
      assert rmap[..] == r[PgIdx(g, p) := lpn];
    }

    method MarkPageValid(p: Ppa)
      requires Shape() && p in nand && BlkOf(p) in bvpc && p.blk < g.ttLines && p.blk !in victims
      requires nand[p] == FREE && 0 <= lineVpc[p.blk] < g.pgsPerLine
      modifies this`nand, this`bvpc, lineVpc
      ensures Shape() && View() == MarkValid(old(View()), p)
    {
      hide GeometryOk, LayoutFor, LayoutOk, RevFor, PosFor, IsHeap, MembersOf;
      ghost var h := victimPq.View();
      PriorityOfOutsider(h, p.blk, lineVpc[p.blk] + 1);
      nand := nand[p := VALID];
      bvpc := bvpc[BlkOf(p) := bvpc[BlkOf(p)] + 1];
      lineVpc[p.blk] := lineVpc[p.blk] + 1;
      assert victimPq.View() == h.(pri := h.pri[p.blk := h.pri[p.blk] + 1]);
    }

    /** One valid page fewer in line l; a queued line moves within the queue. */
    method DecreaseVpc(l: nat)
      requires Shape() && l < g.ttLines
      modifies lineVpc, linePos, victimPq.d
      ensures Shape() && View() == old(View()).(vpc := old(lineVpc[..])[l := old(lineVpc[l]) - 1])
    {
      hide GeometryOk, LayoutFor, LayoutOk, RevFor, PosFor, IsHeap, MembersOf;
      ghost var h, pos0, vpc0 := victimPq.View(), linePos[..], lineVpc[..];
      PosOf(l);
      if linePos[l] != 0 {
        victimPq.ChangePriority(lineVpc[l] - 1, l);
      } else {
        PriorityOfOutsider(h, l, lineVpc[l] - 1);
        lineVpc[l] := lineVpc[l] - 1;
        assert victimPq.View() == h.(pri := h.pri[l := h.pri[l] - 1]);
      }
      PosStays(pos0, victims);
    }

    /** A line leaves the full list for the victim queue. */
    method FullToVictim(l: nat)
      requires Shape() && l < g.ttLines && l in fullList && l !in victims && NoDup(fullList)
      modifies this`fullList, this`fullCnt, this`victims, this`victimCnt, linePos, victimPq`size, victimPq.d
      ensures Shape() && View() == old(View()).(full := Remove(old(fullList), l), victims := old(victims) + {l})
    {
      hide GeometryOk, LayoutFor, LayoutOk, RevFor, PosFor, IsHeap, MembersOf, NoDup;
      RemoveMembers(fullList, l);
      fullList := Remove(fullList, l);
      fullCnt := fullCnt - 1;
      QueueLine(l);
    }

    method QueueLine(l: nat)
      requires Shape() && l < g.ttLines && l !in victims
      modifies this`victims, this`victimCnt, linePos, victimPq`size, victimPq.d
      ensures Shape() && View() == old(View()).(victims := old(victims) + {l})
    {
      hide GeometryOk, LayoutFor, LayoutOk, RevFor, PosFor, IsHeap;
      ghost var pos0 := linePos[..];
      QueueHasSpace(victimPq.View(), l);
      victimPq.Insert(l);
      victimCnt := victimCnt + 1;
      victims := victims + {l};
      PosStays(pos0, old(victims));
    }

    /** The page's own state and its block's counters. */
    method InvalidatePage(p: Ppa)
      requires Shape() && p in nand && BlkOf(p) in bvpc && BlkOf(p) in bipc
      modifies this`nand, this`bvpc, this`bipc
      ensures Shape()
      ensures View() == old(View()).(nand := old(nand)[p := INVALID],
                                     bipc := old(bipc)[BlkOf(p) := old(bipc)[BlkOf(p)] + 1],
                                     bvpc := old(bvpc)[BlkOf(p) := old(bvpc)[BlkOf(p)] - 1])
    {
      hide GeometryOk, LayoutFor, LayoutOk, RevFor, QueueOk;
      nand := nand[p := INVALID];
      bipc := bipc[BlkOf(p) := bipc[BlkOf(p)] + 1];
      bvpc := bvpc[BlkOf(p) := bvpc[BlkOf(p)] - 1];
    }

    method IncreaseIpc(l: nat)
      requires Shape() && l < g.ttLines
      modifies lineIpc
      ensures Shape() && View() == old(View()).(ipc := old(lineIpc[..])[l := old(lineIpc[l]) + 1])
    {
      lineIpc[l] := lineIpc[l] + 1;
    }

    method MarkPageInvalid(p: Ppa)
      requires Shape() && p in nand && nand[p] == VALID && BlkOf(p) in bvpc && BlkOf(p) in bipc && p.blk < g.ttLines
      requires 1 <= lineVpc[p.blk] && 0 <= lineIpc[p.blk] && lineVpc[p.blk] + lineIpc[p.blk] <= g.pgsPerLine
      requires NoDup(fullList) && (lineVpc[p.blk] == g.pgsPerLine <==> p.blk in fullList)
      requires p.blk in fullList ==> p.blk !in victims
      modifies this`nand, this`bvpc, this`bipc, this`fullList, this`fullCnt, this`victims, this`victimCnt
      modifies lineVpc, lineIpc, linePos, victimPq`size, victimPq.d
      ensures Shape() && View() == MarkInvalid(y, old(View()), p)
    {
      hide GeometryOk, LayoutFor, LayoutOk, RevFor, NoDup, QueueOk, Remove;
      var l, wasFull := p.blk, false;
      ghost var s := View();
      InvalidatePage(p);
      assert 0 <= lineIpc[l] < g.pgsPerLine;
      if lineVpc[l] == g.pgsPerLine {
        assert lineIpc[l] == 0;
        wasFull := true;
      }
      IncreaseIpc(l);
      assert 0 < lineVpc[l] <= g.pgsPerLine;
      DecreaseVpc(l);
      if wasFull {
        FullToVictim(l);
      }
    }

    lemma PosOf(l: nat)
      requires Static() && QueueOk() && l < linePos.Length
      ensures linePos[l] != 0 <==> l in victims
    {
    }

    /** The positions recorded outside the queue stayed zero. */
    lemma PosStays(pos0: seq<nat>, was: set<nat>)
      requires Static() && victimPq.Valid() && victims == victimPq.Members()
      requires PosFor(pos0, was) && was <= victims && OnlyMembersMove(linePos[..], pos0, victims)
      ensures PosFor(linePos[..], victims)
    {
      PosAfter(victimPq.View(), victims);
    }

    // ---- write pointers ----

    /** The first free line, taken off the list. */
    method GetNextFreeLine() returns (l: nat)
      requires Shape() && freeList != []
      modifies this`freeList, this`freeCnt
      ensures Shape() && l == old(freeList)[0] && View() == old(View()).(free := old(freeList)[1..])
    {
      l := freeList[0];
      freeList := freeList[1..];
      freeCnt := freeCnt - 1;
    }

    /** A used-up line goes to the full list or to the victim queue. */
    method CloseLine(l: nat)
      requires Shape() && l < g.ttLines && l !in victims && 0 <= lineVpc[l] <= g.pgsPerLine && 0 <= lineIpc[l]
      requires lineVpc[l] == g.pgsPerLine <==> lineIpc[l] == 0
      modifies this`fullList, this`fullCnt, this`victims, this`victimCnt, linePos, victimPq`size, victimPq.d
      ensures Shape()
      ensures View() == if old(lineVpc[l]) == g.pgsPerLine then old(View()).(full := old(fullList) + [l])
                        else old(View()).(victims := old(victims) + {l})
    {
      hide GeometryOk, LayoutFor, LayoutOk, RevFor, QueueOk;
      if lineVpc[l] == g.pgsPerLine {
        assert lineIpc[l] == 0;
        fullList := fullList + [l];
        fullCnt := fullCnt + 1;
      } else {
        assert 0 <= lineVpc[l] < g.pgsPerLine && lineIpc[l] > 0;
        QueueLine(l);
      }
    }

    function PointerOf(io: IoType): WritePointer
      reads this`wp, this`gcWp
    {
      if io.UserIo? then wp else gcWp
    }

    method SetPointer(io: IoType, w: WritePointer)
      requires Shape()
      modifies this`wp, this`gcWp
      ensures Shape() && View() == WithPointer(old(View()), io, w)
    {
      if io.UserIo? { wp := w; } else { gcWp := w; }
    }

    /** The coordinates after one step, and whether the line is used up. */
    method StepCoord(at: Coord) returns (n: Coord, closed: bool)
      requires GeometryOk(g) && ValidCoord(g, at.ch, at.lun, at.pg)
      ensures (n, closed) == NextCoord(g, at)
    {
      assert 0 < g.pgsPerOneshot;
      hide GeometryOk;
      var ch, lun, pg := at.ch, at.lun, at.pg + 1;
      closed := false;
      if pg % g.pgsPerOneshot == 0 {
        OneshotPassed(at.pg, g.pgsPerOneshot);
        pg := pg - g.pgsPerOneshot;
        ch := ch + 1;
        if ch == g.nchs {
          ch := 0;
          lun := lun + 1;
          if lun == g.lunsPerCh {
            lun := 0;
            pg := pg + g.pgsPerOneshot;
            if pg == g.pgsPerBlk {
              pg := 0;
              closed := true;
            }
          }
        }
      }
      n := Coord(ch, lun, pg);
    }

    method AdvanceWritePointer(io: IoType)
      requires Shape() && ValidCoord(g, PointerOf(io).at.ch, PointerOf(io).at.lun, PointerOf(io).at.pg)
      requires PointerOf(io).curline < g.ttLines
      requires NextCoord(g, PointerOf(io).at).1 ==> freeList != [] && CanClose(PointerOf(io).curline)
      modifies this`wp, this`gcWp, this`freeList, this`freeCnt, this`fullList, this`fullCnt
      modifies this`victims, this`victimCnt, linePos, victimPq`size, victimPq.d
      ensures Shape()
      ensures View() == Advance(y, old(View()), io, NextCoord(g, old(PointerOf(io).at)).0,
                                NextCoord(g, old(PointerOf(io).at)).1)
    {
      hide GeometryOk, LayoutFor, LayoutOk, RevFor, QueueOk, NextCoord;
      var w := PointerOf(io);
      var n, closed := StepCoord(w.at);
      if closed {
        CloseLine(w.curline);
        var l := GetNextFreeLine();
        SetPointer(io, WritePointer(l, n));
      } else {
        SetPointer(io, WritePointer(w.curline, n));
      }
    }

    ghost predicate CanClose(l: nat)
      requires Static() && l < g.ttLines
      reads this`victims, lineVpc, lineIpc
    {
      && l !in victims && 0 <= lineVpc[l] <= g.pgsPerLine && 0 <= lineIpc[l]
      && (lineVpc[l] == g.pgsPerLine <==> lineIpc[l] == 0)
    }

    // ---- collection ----

    /** Takes the line with the fewest valid pages out of the queue. Unless forced, only when
        that is at most an eighth of the line. */
    method SelectVictimLine(force: bool) returns (found: bool, v: nat)
      requires Shape()
      modifies this`victims, this`victimCnt, linePos, victimPq`size, victimPq.d
      ensures Shape()
      ensures found ==> v in old(victims) && v < g.ttLines && View() == old(View()).(victims := old(victims) - {v})
      ensures found ==> forall l :: l in old(victims) ==> l < g.ttLines && lineVpc[v] <= lineVpc[l]
      ensures found ==> force || lineVpc[v] <= g.pgsPerLine / 8
      ensures !found ==> View() == old(View())
      ensures !found ==> victims == {} || (!force && forall l :: l in victims ==>
                                                       l < g.ttLines && lineVpc[l] > g.pgsPerLine / 8)
    {
      hide GeometryOk, LayoutFor, LayoutOk, RevFor, IsHeap, MembersOf;
      QueuedLines(victimPq.View());
      found, v := victimPq.Peek();
      if !found { return; }
      if !force && lineVpc[v] > g.pgsPerLine / 8 {
        return false, v;
      }
      v := TakeVictim();
    }

    /** Removes the head of the queue and clears its position: it is on no list now. */
    method TakeVictim() returns (v: nat)
      requires Shape() && victims != {}
      modifies this`victims, this`victimCnt, linePos, victimPq`size, victimPq.d
      ensures Shape() && old(victimPq.size) > 1 && v == old(victimPq.d[1])
      ensures v in old(victims) && v < g.ttLines && View() == old(View()).(victims := old(victims) - {v})
    {
      hide GeometryOk, LayoutFor, LayoutOk, RevFor, IsHeap, MembersOf;
      ghost var pos0 := linePos[..];
      var found: bool;
      QueuedLines(victimPq.View());
      found, v := victimPq.Pop();
      ghost var h := victimPq.View();
      PositionOfOutsider(h, v);
      linePos[v] := 0;
      assert victimPq.View() == h.(pos := h.pos[v := 0]);
      victimCnt := victimCnt - 1;
      victims := victims - {v};
      PosShrinks(pos0, h.pos, linePos[..], v, old(victims));
      PosAfter(victimPq.View(), victims);
    }

    /** Erases one block. */
    method MarkBlockFree(b: Blk)
      requires Shape()
      modifies this`nand, this`bvpc, this`bipc
      ensures Shape() && View() == FreeBlock(old(View()), b)
    {
      hide GeometryOk, LayoutFor, LayoutOk, RevFor, QueueOk;
      nand := map p | p in nand :: if BlkOf(p) == b then FREE else nand[p];
      bipc := bipc[b := 0];
      bvpc := bvpc[b := 0];
    }

    method MarkLineFree(l: nat)
      requires Shape() && l < g.ttLines && l !in victims
      modifies lineVpc, lineIpc, this`freeList, this`freeCnt
      ensures Shape() && View() == FreeLine(old(View()), l)
    {
      hide GeometryOk, LayoutFor, LayoutOk, RevFor, IsHeap, MembersOf, PosFor;
      ghost var h := victimPq.View();
      PriorityOfOutsider(h, l, 0);
      lineIpc[l] := 0;
      lineVpc[l] := 0;
      assert victimPq.View() == h.(pri := h.pri[l := 0]);
      freeList := freeList + [l];
      freeCnt := freeCnt + 1;
    }

    /** Both tables and the page's state for logical page lpn at physical page p. */
    method ProgramPage(lpn: nat, p: Ppa, ghost data: int)
      requires Shape() && lpn < maptbl.Length && p in rev && p in nand && BlkOf(p) in bvpc && p.blk < g.ttLines
      requires p.blk !in victims && nand[p] == FREE && 0 <= lineVpc[p.blk] < g.pgsPerLine
      modifies maptbl, rmap, this`rev, this`nand, this`bvpc, this`pay, lineVpc
      ensures Shape() && View() == Program(old(View()), lpn, p, data)
    {
      hide GeometryOk, LayoutFor, LayoutOk, RevFor, QueueOk;
      ghost var s := View();
      maptbl[lpn] := Some(p);
      assert maptbl[..] == s.maptbl[lpn := Some(p)];
      SetRmapEnt(Some(lpn), p);
      pay := pay[p := data];
      MarkPageValid(p);
    }

    /** Collection of line v is under way: s0 is the state at its start, done the valid pages
        copied so far. */
    ghost predicate Gc(s0: Ftl, v: nat, done: set<Ppa>)
      reads this, maptbl, rmap, lineVpc, lineIpc, linePos, victimPq, victimPq.d
    {
      Shape() && Collecting(y, s0, View(), v, done, capacity, Pos(y, s0.wp), Pos(y, s0.gc), Pos(y, gcWp))
      && Reserve(y, s0) >= 2 * y.perLine
    }

    /** Programs one valid page of the victim at the collector's write pointer. */
    method GcCopyPage(p: Ppa, ghost s0: Ftl, ghost v: nat, ghost done: set<Ppa>)
      requires Gc(s0, v, done) && p in LineSet(s0.nand, v, VALID) && p !in done && p in nand
      modifies maptbl, rmap, this`rev, this`nand, this`bvpc, this`pay, lineVpc
      ensures Shape() && PageAt(gcWp) in y.visit && Pos(y, gcWp) < y.perLine
      ensures Moving(y, s0, View(), v, done + {p}, capacity, Pos(y, s0.wp), Pos(y, s0.gc), Pos(y, gcWp) + 1)
      ensures CanCopy(old(View()), p) && View() == Copy(old(View()), p)
      ensures nand.Keys == old(nand).Keys && forall q :: q in nand && q.blk == v ==> nand[q] == old(nand)[q]
    {
      hide GeometryOk, LayoutFor, LayoutOk, RevFor, QueueOk, Core, Copying, LineSet, Contents;
      ghost var s := View();
      ghost var u, k0, k := Pos(y, s0.wp), Pos(y, s0.gc), Pos(y, gcWp);
      CopyingLive(y, s0, s, v, done, capacity, p);
      CopyStep(y, s0, s, v, done, capacity, u, k0, k, p);
      CopyTarget(y, s, v, u, k);
      RevGet(g, rmap[..], rev, p);
      InLine(y, s);
      var lpn := rmap[PgIdx(g, p)].value;
      ProgramPage(lpn, PageAt(gcWp), pay[p]);
      assert View() == Copy(s, p);
    }

    /** Copies one valid page of the victim to the collector's open line. Its own state and
        reverse entry stay as they are until its block is erased. */
    method GcWritePage(p: Ppa, ghost s0: Ftl, ghost v: nat, ghost done: set<Ppa>)
      requires Gc(s0, v, done) && p in LineSet(s0.nand, v, VALID) && p !in done && p in nand
      modifies maptbl, rmap, this`rev, this`nand, this`bvpc, this`pay, lineVpc
      modifies this`wp, this`gcWp, this`freeList, this`freeCnt, this`fullList, this`fullCnt
      modifies this`victims, this`victimCnt, linePos, victimPq`size, victimPq.d
      ensures Gc(s0, v, done + {p}) && CopyPage(g, y, old(View()), p) == Went(View())
      ensures nand.Keys == old(nand).Keys && forall q :: q in nand && q.blk == v ==> nand[q] == old(nand)[q]
    {
      hide GeometryOk, LayoutFor, LayoutOk, RevFor, QueueOk, Core, Copying, LineSet, NextCoord, Contents;
      GcCopyPage(p, s0, v, done);
      ghost var s1 := View();
      ghost var u, k0, k := Pos(y, s0.wp), Pos(y, s0.gc), Pos(y, gcWp);
      StepFor(g, y, s1, GcIo);
      if NextCoord(g, gcWp.at).1 {
        FreeLineLeft(y, s0, s1, v, done + {p}, capacity, u, k0, k + 1);
        ClosedLineCounts(y, s1, v, u, k + 1, GcIo);
        FirstFree(y, s1, v, u, k + 1);
      }
      MoveStep(y, s0, s1, v, done + {p}, capacity, u, k0, k + 1, NextCoord(g, gcWp.at).0, NextCoord(g, gcWp.at).1);
      AdvanceWritePointer(GcIo);
    }

    ghost predicate GcAt(s0: Ftl, v: nat, done: set<Ppa>, freed: set<Blk>, f: nat, ch: nat, lun: nat, i: nat)
      reads this, maptbl, rmap, lineVpc, lineIpc, linePos, victimPq, victimPq.d
    {
      Gc(s0, v, done) && LoopAt(g, y, s0, View(), v, done, freed, f, ch, lun, i)
    }

    lemma GcGeometry(v: nat, s0: Ftl, done: set<Ppa>)
      requires Gc(s0, v, done)
      ensures GeometryOk(g)
    {
    }

    /** The number of valid pages in a flash page of the victim; none of its pages is free. */
    method CountValid(v: nat, f: nat, ch: nat, lun: nat, ghost s0: Ftl, ghost done: set<Ppa>, ghost freed: set<Blk>)
      returns (cnt: nat)
      requires GcAt(s0, v, done, freed, f, ch, lun, 0)
      requires f < g.flashpgsPerBlk && ch < g.nchs && lun < g.lunsPerCh
      ensures cnt == 0 ==> LoopAt(g, y, s0, View(), v, done, freed, f, ch, lun, g.pgsPerFlash)
      ensures cnt == 0 ==> CopyPages(g, y, View(), v, f, ch, lun, 0) == Went(View())
    {
      ghost var s := View();
      hide Gc, LoopAt, FlashPage, LineSet, GeometryOk, CopyPage;
      GcGeometry(v, s0, done);
      cnt := 0;
      for i := 0 to g.pgsPerFlash
        invariant cnt == 0 ==> LoopAt(g, y, s0, s, v, done, freed, f, ch, lun, i)
        invariant cnt == 0 ==> CopyPages(g, y, s, v, f, ch, lun, 0) == CopyPages(g, y, s, v, f, ch, lun, i)
      {
        var p := FlashPage(g, v, f, ch, lun, i);
        PageNotFree(g, y, s0, s, v, done, freed, f, ch, lun, i);
        assert nand[p] != FREE;
        if cnt == 0 {
          PagePassed(g, y, s0, s, s, v, done, freed, f, ch, lun, i);
        }
        if nand[p] == VALID {
          cnt := cnt + 1;
        }
      }
    }

    /** Copies the valid pages of one flash page of the victim. */
    method CleanOneFlashpg(v: nat, f: nat, ch: nat, lun: nat, ghost s0: Ftl, ghost done: set<Ppa>,
                           ghost freed: set<Blk>)
      returns (ghost done': set<Ppa>)
      requires GcAt(s0, v, done, freed, f, ch, lun, 0)
      requires f < g.flashpgsPerBlk && ch < g.nchs && lun < g.lunsPerCh
      modifies maptbl, rmap, this`rev, this`nand, this`bvpc, this`pay, lineVpc
      modifies this`wp, this`gcWp, this`freeList, this`freeCnt, this`fullList, this`fullCnt
      modifies this`victims, this`victimCnt, linePos, victimPq`size, victimPq.d
      ensures GcAt(s0, v, done', freed, f, ch, lun, g.pgsPerFlash)
      ensures CopyPages(g, y, old(View()), v, f, ch, lun, 0) == Went(View())
    {
      hide Gc, LoopAt, FlashPage, LineSet, GeometryOk, CopyPage;
      GcGeometry(v, s0, done);
      var cnt := CountValid(v, f, ch, lun, s0, done, freed);
      if cnt <= 0 {
        return done;
      }
      done' := done;
      for i := 0 to g.pgsPerFlash
        invariant GcAt(s0, v, done', freed, f, ch, lun, i)
        invariant CopyPages(g, y, old(View()), v, f, ch, lun, 0) == CopyPages(g, y, View(), v, f, ch, lun, i)
      {
        var p := FlashPage(g, v, f, ch, lun, i);
        ghost var s := View();
        PageReached(g, y, s0, s, v, done', freed, f, ch, lun, i);
        if nand[p] == VALID {
          GcWritePage(p, s0, v, done');
        }
        PagePassed(g, y, s0, s, View(), v, done', freed, f, ch, lun, i);
        done' := if s.nand[p] == VALID then done' + {p} else done';
      }
    }

    /** Moves every valid page of line v elsewhere and erases its blocks, flash page by flash
        page across all channels and LUNs. */
    method CleanLine(v: nat, ghost s0: Ftl) returns (ghost done: set<Ppa>)
      requires Gc(s0, v, {}) && s0 == View() && v < g.ttLines && ClosedLine(s0.nand, v) && nand.Keys == y.visit.Keys
      modifies maptbl, rmap, this`rev, this`nand, this`bvpc, this`bipc, this`pay, lineVpc
      modifies this`wp, this`gcWp, this`freeList, this`freeCnt, this`fullList, this`fullCnt
      modifies this`victims, this`victimCnt, linePos, victimPq`size, victimPq.d
      ensures Gc(s0, v, done) && done == LineSet(s0.nand, v, VALID)
      ensures GeometryOk(g) && CleanFlash(g, y, s0, v, 0) == Went(View())
      ensures forall p :: p in nand && p.blk == v ==> nand[p] == FREE
    {
      hide Gc, LoopAt, LineSet, ClosedLine, GeometryOk, CleanLuns;
      GcGeometry(v, s0, {});
      GcStarts(s0, v);
      done := {};
      ghost var freed: set<Blk> := {};
      for f := 0 to g.flashpgsPerBlk
        invariant GcAt(s0, v, done, freed, f, 0, 0, 0)
        invariant CleanFlash(g, y, s0, v, 0) == CleanFlash(g, y, View(), v, f)
      {
        ghost var s1 := View();
        for ch := 0 to g.nchs
          invariant GcAt(s0, v, done, freed, f, ch, 0, 0)
          invariant CleanChannels(g, y, s1, v, f, 0) == CleanChannels(g, y, View(), v, f, ch)
        {
          done, freed := CleanChannel(v, f, ch, s0, done, freed);
        }
        ChannelsPassed(g, y, s0, View(), v, done, freed, f);
      }
      GcDone(s0, v, done);
      LoopEnds(g, y, s0, View(), v, done, freed);
    }

    lemma GcStarts(s0: Ftl, v: nat)
      requires Gc(s0, v, {}) && s0 == View() && v < g.ttLines && ClosedLine(s0.nand, v) && nand.Keys == y.visit.Keys
      ensures GcAt(s0, v, {}, {}, 0, 0, 0, 0)
    {
      LoopStarts(g, y, s0, v);
    }

    /** One flash page of every die of a channel. */
    method CleanChannel(v: nat, f: nat, ch: nat, ghost s0: Ftl, ghost done: set<Ppa>, ghost freed: set<Blk>)
      returns (ghost done': set<Ppa>, ghost freed': set<Blk>)
      requires GcAt(s0, v, done, freed, f, ch, 0, 0) && f < g.flashpgsPerBlk && ch < g.nchs
      modifies maptbl, rmap, this`rev, this`nand, this`bvpc, this`bipc, this`pay, lineVpc
      modifies this`wp, this`gcWp, this`freeList, this`freeCnt, this`fullList, this`fullCnt
      modifies this`victims, this`victimCnt, linePos, victimPq`size, victimPq.d
      ensures GcAt(s0, v, done', freed', f, ch + 1, 0, 0) && GeometryOk(g)
      ensures CleanChannels(g, y, old(View()), v, f, ch) == CleanChannels(g, y, View(), v, f, ch + 1)
    {
      hide Gc, LoopAt, GeometryOk, CopyPages, FreeBlock;
      GcGeometry(v, s0, done);
      done', freed' := done, freed;
      for lun := 0 to g.lunsPerCh
        invariant GcAt(s0, v, done', freed', f, ch, lun, 0)
        invariant CleanLuns(g, y, old(View()), v, f, ch, 0) == CleanLuns(g, y, View(), v, f, ch, lun)
      {
        done', freed' := CleanDie(v, f, ch, lun, s0, done', freed');
      }
      ChannelPassed(g, y, s0, View(), v, done', freed', f, ch);
    }

    /** One flash page of one die; at the last flash page the block is erased. */
    method CleanDie(v: nat, f: nat, ch: nat, lun: nat, ghost s0: Ftl, ghost done: set<Ppa>, ghost freed: set<Blk>)
      returns (ghost done': set<Ppa>, ghost freed': set<Blk>)
      requires GcAt(s0, v, done, freed, f, ch, lun, 0)
      requires f < g.flashpgsPerBlk && ch < g.nchs && lun < g.lunsPerCh
      modifies maptbl, rmap, this`rev, this`nand, this`bvpc, this`bipc, this`pay, lineVpc
      modifies this`wp, this`gcWp, this`freeList, this`freeCnt, this`fullList, this`fullCnt
      modifies this`victims, this`victimCnt, linePos, victimPq`size, victimPq.d
      ensures GcAt(s0, v, done', freed', f, ch, lun + 1, 0) && GeometryOk(g)
      ensures CleanLuns(g, y, old(View()), v, f, ch, lun) == CleanLuns(g, y, View(), v, f, ch, lun + 1)
    {
      hide Gc, LoopAt, GeometryOk, CopyPages, FreeBlock;
      GcGeometry(v, s0, done);
      done' := CleanOneFlashpg(v, f, ch, lun, s0, done, freed);
      freed' := freed;
      if f == g.flashpgsPerBlk - 1 {
        EraseBlock(v, ch, lun, s0, done', freed);
        freed' := freed + {Blk(ch, lun, v)};
      } else {
        FlashPagePassed(g, y, s0, View(), v, done', freed, f, ch, lun);
      }
    }

    lemma GcDone(s0: Ftl, v: nat, done: set<Ppa>)
      requires Gc(s0, v, done)
      ensures done <= LineSet(s0.nand, v, VALID)
    {
    }

    method EraseBlock(v: nat, ch: nat, lun: nat, ghost s0: Ftl, ghost done: set<Ppa>, ghost freed: set<Blk>)
      requires g.flashpgsPerBlk > 0 && GcAt(s0, v, done, freed, g.flashpgsPerBlk - 1, ch, lun, g.pgsPerFlash)
      modifies this`nand, this`bvpc, this`bipc
      ensures GcAt(s0, v, done, freed + {Blk(ch, lun, v)}, g.flashpgsPerBlk - 1, ch, lun + 1, 0)
      ensures View() == FreeBlock(old(View()), Blk(ch, lun, v))
    {
      hide LoopAt, LineSet, Collecting, VictimPages;
      ghost var s := View();
      BlockCopied(g, y, s0, s, v, done, freed, ch, lun);
      EraseStep(y, s0, s, v, done, capacity, Pos(y, s0.wp), Pos(y, s0.gc), Pos(y, s.gc), freed, Blk(ch, lun, v));
      MarkBlockFree(Blk(ch, lun, v));
      BlockFinished(g, y, s0, s, View(), v, done, freed, ch, lun);
    }

    /** Cleans and erases the selected line and puts it back on the free list. */
    method CollectLine(v: nat, ghost s0: Ftl, ghost u: nat, ghost k: nat)
      requires Gc(s0, v, {}) && s0 == View() && v < g.ttLines && ClosedLine(s0.nand, v) && nand.Keys == y.visit.Keys
      requires u == Pos(y, wp) && k == Pos(y, gcWp)
      modifies maptbl, rmap, this`rev, this`nand, this`bvpc, this`bipc, this`pay, lineVpc, lineIpc
      modifies this`wp, this`gcWp, this`freeList, this`freeCnt, this`fullList, this`fullCnt
      modifies this`victims, this`victimCnt, linePos, victimPq`size, victimPq.d
      ensures Shape() && Settled(y, View(), capacity) && Contents(View()) == Contents(s0) && credits == old(credits)
              && refill == old(refill)
      ensures Reserve(y, View()) == Room(y, s0, u, k) + g.pgsPerLine - |LineSet(s0.nand, v, VALID)|
      ensures GeometryOk(g) && Emptied(g, y, s0, v) == Went(View())
    {
      hide GeometryOk, LayoutFor, RevFor, QueueOk, Core, Contents, LineSet, ClosedLine, InCapacity, CleanFlash;
      ghost var done := CleanLine(v, s0);
      ghost var s1 := View();
      FinishCollection(y, s0, s1, v, done, capacity, u, k, Pos(y, gcWp));
      NotQueued(y, s1, v, Pos(y, wp), Pos(y, gcWp));
      MarkLineFree(v);
    }

    /** The selected line v, taken out of the queue in state s, is collected; its invalid pages are
        what the next credit refill will hand out. */
    method CollectVictim(v: nat, ghost s: Ftl)
      requires Shape() && v in s.victims && v < g.ttLines && View() == s.(victims := s.victims - {v})
      requires Settled(y, s, capacity) && Reserve(y, s) >= 2 * g.pgsPerLine
      modifies maptbl, rmap, this`rev, this`nand, this`bvpc, this`bipc, this`pay, lineVpc, lineIpc, this`refill
      modifies this`wp, this`gcWp, this`freeList, this`freeCnt, this`fullList, this`fullCnt
      modifies this`victims, this`victimCnt, linePos, victimPq`size, victimPq.d
      ensures Shape() && Settled(y, View(), capacity) && Contents(View()) == Contents(s) && credits == old(credits)
      ensures 1 <= refill <= g.pgsPerLine && Reserve(y, View()) == Reserve(y, s) + refill
      ensures GeometryOk(g) && v < |s.ipc| && FtlWrite.CollectLine(g, y, s, v) == Went(View())
    {
      hide GeometryOk, LayoutFor, LayoutOk, RevFor, QueueOk, Core, Contents, LineSet, ClosedLine, InCapacity,
           Collecting, Emptied;
      VictimsClosed(y, s, capacity);
      ghost var u, k := Pos(y, s.wp), Pos(y, s.gc);
      CollectingStarts(y, s, u, k, v, capacity);
      refill := lineIpc[v];
      ghost var s0 := View();
      RefillIrrelevant(y, s.(victims := s.victims - {v}), s0, v, capacity, u, k);
      CollectLine(v, s0, u, k);
    }

    /** One collection: the head of the victim queue is emptied, erased and put on the free
        list. The contents do not change; what the write pointers can still program grows by
        the victim's invalid pages, which is what the next credit refill will hand out. */
    method DoGc(force: bool) returns (ok: bool, ghost v: nat)
      requires Shape() && Settled(y, View(), capacity) && Reserve(y, View()) >= 2 * g.pgsPerLine
      modifies maptbl, rmap, this`rev, this`nand, this`bvpc, this`bipc, this`pay, lineVpc, lineIpc, this`refill
      modifies this`wp, this`gcWp, this`freeList, this`freeCnt, this`fullList, this`fullCnt
      modifies this`victims, this`victimCnt, linePos, victimPq`size, victimPq.d
      ensures Shape() && Settled(y, View(), capacity) && Stored() == old(Stored()) && credits == old(credits)
      ensures ok ==> 1 <= refill <= g.pgsPerLine && Reserve(y, View()) == old(Reserve(y, View())) + refill
      ensures !ok ==> View() == old(View()) && (force ==> victims == {})
      ensures ok ==> old(victims) != {} && Heads(old(View()), v) && GeometryOk(g) && v < g.ttLines
                     && FtlWrite.CollectLine(g, y, old(View()), v) == Went(View())
    {
      hide GeometryOk, LayoutFor, LayoutOk, RevFor, QueueOk, Settled, Contents, Reserve, FtlWrite.CollectLine;
      ghost var s := View();
      var l;
      ok, l := SelectVictimLine(force);
      v := l;
      if ok { CollectVictim(l, s); }
    }

    /** Collects one line when at most two free lines are left. Only with exactly all but four lines'
        worth of pages stored can there be nothing to collect; then the user's line has just been
        opened, and the reserve is large enough as it is. */
    method ForegroundGc() returns (ghost v: nat)
      requires Shape() && Settled(y, View(), capacity) && Reserve(y, View()) >= 2 * g.pgsPerLine
      requires capacity <= (g.ttLines - 4) * g.pgsPerLine && OpenUsed(y, View()) && 1 <= refill <= g.pgsPerLine
      modifies maptbl, rmap, this`rev, this`nand, this`bvpc, this`bipc, this`pay, lineVpc, lineIpc, this`refill
      modifies this`wp, this`gcWp, this`freeList, this`freeCnt, this`fullList, this`fullCnt
      modifies this`victims, this`victimCnt, linePos, victimPq`size, victimPq.d
      ensures Shape() && Settled(y, View(), capacity) && Stored() == old(Stored()) && credits == old(credits)
      ensures old(freeCnt) > GC_THRES_LINES_HIGH || old(victims) == {} ==> View() == old(View())
      ensures old(freeCnt) <= GC_THRES_LINES_HIGH ==>
        1 <= refill <= g.pgsPerLine && Reserve(y, View()) - refill >= 2 * g.pgsPerLine
      ensures old(freeCnt) <= GC_THRES_LINES_HIGH && old(victims) != {} ==>
        Reserve(y, View()) == old(Reserve(y, View())) + refill
      ensures old(freeCnt) <= GC_THRES_LINES_HIGH && capacity < (g.ttLines - 4) * g.pgsPerLine ==> old(victims) != {}
      ensures old(freeCnt) <= GC_THRES_LINES_HIGH && old(victims) != {} ==>
        Heads(old(View()), v) && GeometryOk(g) && v < g.ttLines
        && FtlWrite.CollectLine(g, y, old(View()), v) == Went(View())
    {
      hide GeometryOk, LayoutFor, RevFor, QueueOk, Core, Contents, InCapacity, FtlWrite.CollectLine;
      v := 0;
      if freeCnt <= GC_THRES_LINES_HIGH {
        if capacity < (g.ttLines - 4) * g.pgsPerLine {
          VictimExists(y, View(), Pos(y, wp), Pos(y, gcWp), capacity);
        }
        if victims == {} { NothingToCollect(y, View(), capacity); }
        var ok;
        ok, v := DoGc(true);
      }
    }

    /** When the credits are used up: collect if lines are low, then take the next allowance. */
    method CheckAndRefillWriteCredit() returns (ghost v: nat)
      requires Shape() && Settled(y, View(), capacity) && CreditOk(y, View(), Pos(y, wp), Pos(y, gcWp)) && 0 <= credits
      requires capacity <= (g.ttLines - 4) * g.pgsPerLine && g.pgsPerLine < 0x8000_0000 && OpenUsed(y, View())
      modifies maptbl, rmap, this`rev, this`nand, this`bvpc, this`bipc, this`pay, lineVpc, lineIpc, this`refill,
               this`credits
      modifies this`wp, this`gcWp, this`freeList, this`freeCnt, this`fullList, this`fullCnt
      modifies this`victims, this`victimCnt, linePos, victimPq`size, victimPq.d
      ensures Shape() && AtRest(y, View(), capacity) && Stored() == old(Stored())
      ensures GeometryOk(g) && Refilling(g, y, old(View()), View(), v)
    {
      hide GeometryOk, LayoutFor, RevFor, QueueOk, Core, Contents, InCapacity, OpenUsed, FtlWrite.CollectLine;
      v := 0;
      Built();
      if credits <= 0 {
        PointersInLine(y, View());
        v := ForegroundGc();
        ghost var s := View();
        RefillReserve(y, s);
        credits := U32(credits + refill);
        SettledRefilled(y, s, View(), capacity);
      }
    }

    lemma Built()
      requires Static()
      ensures GeometryOk(g)
    {
    }

    /** The old page of a rewritten logical page, if it has one, becomes invalid. */
    method InvalidateOld(lpn: nat)
      requires Valid() && lpn < maptbl.Length
      modifies this`nand, this`bvpc, this`bipc, this`fullList, this`fullCnt, this`victims, this`victimCnt
      modifies lineVpc, lineIpc, linePos, victimPq`size, victimPq.d, rmap, this`rev
      ensures Shape() && CanProgram(y, View(), -1, lpn, Pos(y, wp), Pos(y, gcWp), UserIo, lpn)
      ensures Stored() == old(Stored()) && maptbl[..] == old(maptbl[..])
      ensures PageAt(gcWp) in y.visit && View() == Overwrite(y, old(View()), lpn)
    {
      hide GeometryOk, LayoutFor, LayoutOk, RevFor, QueueOk, Core, Contents, InCapacity, CreditOk, MarkInvalid, NoDup;
      ghost var s, u, k := View(), Pos(y, wp), Pos(y, gcWp);
      PointersInLine(y, s);
      match maptbl[lpn] {
        case None =>
          Unmapped(y, s, u, k, lpn);
        case Some(p) =>
          OldPage(y, s, u, k, lpn, p);
          InvalidateKeeps(y, s, u, k, lpn, p);
          MarkPageInvalid(p);
          SetRmapEnt(None, p);
          Invalidated(y, s, View(), u, k, lpn, p);
      }
    }

    /** Programs the user's page and moves on, opening a new line if this one is used up. */
    method ProgramUserPage(lpn: nat, ghost data: int)
      requires Shape() && lpn < maptbl.Length && g.pgsPerLine < 0x8000_0000
      requires CanProgram(y, View(), -1, lpn, Pos(y, wp), Pos(y, gcWp), UserIo, lpn) && PageAt(gcWp) in y.visit
      requires InCapacity(maptbl[..], capacity) && (lpn in Mapped(maptbl[..]) || |Mapped(maptbl[..])| < capacity)
      requires CreditOk(y, View(), Pos(y, wp), Pos(y, gcWp)) && 1 <= credits
      modifies maptbl, rmap, this`rev, this`nand, this`bvpc, this`pay, lineVpc
      modifies this`wp, this`gcWp, this`freeList, this`freeCnt, this`fullList, this`fullCnt
      modifies this`victims, this`victimCnt, linePos, victimPq`size, victimPq.d
      ensures Shape() && Settled(y, View(), capacity) && Stored() == old(Stored())[lpn := data]
      ensures Written(g, y, old(View()), View(), lpn, data) && OpenUsed(y, View())
      ensures Reserve(y, View()) == old(Reserve(y, View())) - 1 && credits == old(credits) && refill == old(refill)
    {
      hide GeometryOk, LayoutFor, LayoutOk, RevFor, QueueOk, Core, NextCoord, Contents, Room, OpenUsed;
      ghost var s, u, k := View(), Pos(y, wp), Pos(y, gcWp);
      UserTarget(y, s, lpn, u, k);
      ProgramKeeps(y, s, -1, lpn, u, k, UserIo, lpn, data);
      ProgramContents(y, s, -1, lpn, u, k, UserIo, lpn, data);
      var p := PageAt(wp);
      StoredMore(s.maptbl, lpn, p, capacity);
      ProgramPage(lpn, p, data);
      ghost var s1 := View();
      assert s1 == Program(s, lpn, p, data);
      ProgramRoom(y, s, s1, u, k);
      StepFor(g, y, s1, UserIo);
      if NextCoord(g, wp.at).1 {
        UserFreeLine(y, s1, u + 1, k);
        ClosedLineCounts(y, s1, -1, u + 1, k, UserIo);
        FirstFree(y, s1, -1, u + 1, k);
      }
      AdvanceKeeps(y, s1, -1, u + 1, k, UserIo, NextCoord(g, wp.at).0, NextCoord(g, wp.at).1);
      AdvanceContents(y, s1, UserIo, NextCoord(g, wp.at).0, NextCoord(g, wp.at).1);
      LastWritten(y, s, s1, lpn, data, u + 1, NextCoord(g, wp.at).0, NextCoord(g, wp.at).1);
      AdvanceWritePointer(UserIo);
    }

    /** The page's old place invalidated, the new one programmed: one page of the reserve is used. */
    method PutPage(lpn: nat, ghost data: int)
      requires Valid() && lpn < maptbl.Length && (lpn in Stored() || |Stored()| < capacity)
      modifies maptbl, rmap, this`rev, this`nand, this`bvpc, this`bipc, this`pay, lineVpc, lineIpc
      modifies this`wp, this`gcWp, this`freeList, this`freeCnt, this`fullList, this`fullCnt
      modifies this`victims, this`victimCnt, linePos, victimPq`size, victimPq.d
      ensures Shape() && Settled(y, View(), capacity) && Stored() == old(Stored())[lpn := data]
      ensures Reserve(y, View()) - (credits - 1) >= 2 * y.perLine && 1 <= refill <= y.perLine && 1 <= credits
              && credits <= y.perLine && OpenUsed(y, View())
      ensures GeometryOk(g) && FtlWrite.PutPage(g, y, old(View()), lpn, data) == Went(View().(credits := credits - 1))
    {
      hide GeometryOk, LayoutFor, LayoutOk, RevFor, QueueOk, Core, Contents, CanProgram, InCapacity, OpenUsed, CanWrite,
           Write, Overwrite;
      StoredKeys(y, View(), capacity);
      InvalidateOld(lpn);
      ProgramUserPage(lpn, data);
    }

    /** Writing one logical page: the loop body of a host write. Any page of the table may be
        written, as long as the host does not keep more pages stored than the capacity. The new
        contents are the old ones with this page replaced, the invariant holds again, and the whole
        new state is that of the write as a function, v being the line collected, if one was. */
    method WritePage(lpn: nat, ghost data: int) returns (ghost v: nat)
      requires Valid() && lpn < maptbl.Length && (lpn in Stored() || |Stored()| < capacity)
      modifies maptbl, rmap, this`rev, this`nand, this`bvpc, this`bipc, this`pay, lineVpc, lineIpc, this`refill,
               this`credits
      modifies this`wp, this`gcWp, this`freeList, this`freeCnt, this`fullList, this`fullCnt
      modifies this`victims, this`victimCnt, linePos, victimPq`size, victimPq.d
      ensures Valid() && Stored() == old(Stored())[lpn := data]
      ensures Wrote(g, y, old(View()), View(), lpn, data, v)
    {
      hide GeometryOk, LayoutFor, LayoutOk, RevFor, QueueOk, Settled, Contents, OpenUsed, FtlWrite.PutPage, Refilling;
      PutPage(lpn, data);
      ghost var s := View();
      credits := U32(credits - 1);
      SettledRefilled(y, s, View(), capacity);
      OpenStays(y, s, View());
      v := CheckAndRefillWriteCredit();
    }
  }

  /** The invariant without its credit clause. */
  ghost predicate Settled(y: Layout, s: Ftl, capacity: nat) {
    && Core(y, s, -1, -1, Pos(y, s.wp), Pos(y, s.gc))
    && PageAt(s.wp) in y.visit && PageAt(s.gc) in y.visit
    && InCapacity(s.maptbl, capacity)
  }

  /** The user's line has just been opened, or holds a valid page. */
  ghost predicate OpenUsed(y: Layout, s: Ftl) {
    Pos(y, s.wp) == 0 || exists p :: p in s.nand && p.blk == s.wp.curline && s.nand[p] == VALID
  }

  /** So it is after a page has been written. */
  lemma LastWritten(y: Layout, s: Ftl, s1: Ftl, lpn: nat, data: int, done: nat, n: Coord, closed: bool)
    requires PageAt(s.wp) in s.nand && BlkOf(PageAt(s.wp)) in s.bvpc && s.wp.curline < |s.vpc| && lpn < |s.maptbl|
    requires s1 == Program(s, lpn, PageAt(s.wp), data) && StepOk(y, s1, UserIo, n, closed, done)
    ensures closed ==> s1.free != []
    ensures OpenUsed(y, Advance(y, s1, UserIo, n, closed))
  {
    if !closed { assert s1.nand[PageAt(s.wp)] == VALID; }
  }

  /** With nothing to collect, a refill leaves the reserve at two lines. */
  lemma NothingToCollect(y: Layout, s: Ftl, capacity: nat)
    requires LayoutOk(y) && Settled(y, s, capacity) && OpenUsed(y, s)
    requires |s.free| <= 2 && s.victims == {} && capacity <= (y.lines - 4) * y.perLine
    ensures Reserve(y, s) >= 3 * y.perLine
  {
    hide Core, InCapacity, LayoutOk;
    PointersInLine(y, s);
    NothingInvalid(y, s, Pos(y, s.wp), Pos(y, s.gc), capacity);
  }

  /** Pages the write pointers can still program. */
  ghost function Reserve(y: Layout, s: Ftl): int {
    Room(y, s, Pos(y, s.wp), Pos(y, s.gc))
  }

  /** What holds between commands. */
  ghost predicate AtRest(y: Layout, s: Ftl, capacity: nat) {
    Settled(y, s, capacity) && CreditOk(y, s, Pos(y, s.wp), Pos(y, s.gc)) && 1 <= s.credits
  }

  /** What is stored is what is mapped. */
  lemma StoredKeys(y: Layout, s: Ftl, capacity: nat)
    requires Settled(y, s, capacity)
    ensures Contents(s).Keys == Mapped(s.maptbl) && |Contents(s)| == |Mapped(s.maptbl)|
  {
    hide Core;
    CoreMaps(y, s, -1, -1, Pos(y, s.wp), Pos(y, s.gc));
    MappedKeys(y, s);
    hide Contents, MapOk, PagesOk, RevOk;
    assert |Contents(s)| == |Contents(s).Keys|;
  }

  lemma MappedKeys(y: Layout, s: Ftl)
    requires PagesOk(y, s) && MapOk(s.maptbl, s.rev, s.nand, -1)
    ensures Contents(s).Keys == Mapped(s.maptbl)
  {
    forall lpn | lpn in Mapped(s.maptbl) ensures ContentAt(s, lpn).Some? {
      assert s.maptbl[lpn].value in s.nand;
    }
  }

  /** A page stored already, or one more where there is room, stays within the capacity. */
  lemma StoredMore(maptbl: seq<Option<Ppa>>, lpn: nat, p: Ppa, capacity: nat)
    requires lpn < |maptbl| && InCapacity(maptbl, capacity) && (lpn in Mapped(maptbl) || |Mapped(maptbl)| < capacity)
    ensures InCapacity(maptbl[lpn := Some(p)], capacity)
  {
    MappedSet(maptbl, lpn, p);
    if lpn in Mapped(maptbl) { assert Mapped(maptbl) + {lpn} == Mapped(maptbl); }
  }

  lemma VictimsClosed(y: Layout, s: Ftl, capacity: nat)
    requires Settled(y, s, capacity)
    ensures s.nand.Keys == y.visit.Keys
    ensures forall v :: v in s.victims ==> v < y.lines && ClosedLine(s.nand, v)
  {
    forall v, p | v in s.victims && p in s.nand && p.blk == v ensures s.nand[p] != FREE {
      assert PageStatusOk(ListsOf(s), p, s.nand[p], y.visit[p], Pos(y, s.wp), Pos(y, s.gc));
    }
  }

  /** Setting credits_to_refill touches nothing the collection depends on. */
  lemma RefillIrrelevant(y: Layout, s: Ftl, s': Ftl, v: nat, capacity: nat, u: nat, k: nat)
    requires Collecting(y, s, s, v, {}, capacity, u, k, k) && s' == s.(refill := s'.refill)
    ensures Collecting(y, s', s', v, {}, capacity, u, k, k) && Contents(s') == Contents(s)
  {
    hide Core, Copying, LineSet, LayoutOk, Contents;
    CollectingCopying(y, s, v, capacity, u, k);
    RefillCore(y, s, s', v, u, k);
    RefillCopying(y, s, s', v, capacity);
    CreditContents(s, s');
  }

  lemma CreditContents(s: Ftl, s': Ftl)
    requires s' == s.(refill := s'.refill, credits := s'.credits)
    ensures Contents(s') == Contents(s)
  {
    assert forall l :: ContentAt(s', l) == ContentAt(s, l);
  }

  lemma CollectingCopying(y: Layout, s: Ftl, v: nat, capacity: nat, u: nat, k: nat)
    requires Collecting(y, s, s, v, {}, capacity, u, k, k)
    ensures Copying(y, s, s, v, {}, capacity) && Core(y, s, v, -1, u, k)
  {
  }

  lemma RefillCore(y: Layout, s: Ftl, s': Ftl, x: int, u: nat, k: nat)
    requires Core(y, s, x, -1, u, k) && s' == s.(refill := s'.refill, credits := s'.credits)
    ensures Core(y, s', x, -1, u, k)
  {
    hide MapOk, RevOk, CountsOk, BlkCountsOk, LinesOk, StatusOk, FillOk;
    assert ListsOf(s') == ListsOf(s);
  }

  lemma RefillCopying(y: Layout, s: Ftl, s': Ftl, v: nat, capacity: nat)
    requires Copying(y, s, s, v, {}, capacity) && s' == s.(refill := s'.refill)
    ensures Copying(y, s', s', v, {}, capacity)
  {
    forall r | r in LineSet(s'.nand, v, VALID) ensures Live(s', r) {
      assert Live(s, r);
    }
  }

  /** Spending and refilling credits leaves everything else alone. */
  lemma SettledRefilled(y: Layout, s: Ftl, s': Ftl, capacity: nat)
    requires Settled(y, s, capacity) && s' == s.(credits := s'.credits)
    ensures Settled(y, s', capacity) && Contents(s') == Contents(s) && Reserve(y, s') == Reserve(y, s)
  {
    hide Core, InCapacity, Contents;
    RefillCore(y, s, s', -1, Pos(y, s.wp), Pos(y, s.gc));
    CreditContents(s, s');
  }

  lemma OpenStays(y: Layout, s: Ftl, s': Ftl)
    requires OpenUsed(y, s) && s' == s.(credits := s'.credits)
    ensures OpenUsed(y, s')
  {
  }

  lemma Unmapped(y: Layout, s: Ftl, u: nat, k: nat, lpn: nat)
    requires Core(y, s, -1, -1, u, k) && lpn < |s.maptbl| && s.maptbl[lpn] == None && LayoutOk(y)
             && PointerAt(y, s, UserIo, u)
    ensures CanProgram(y, s, -1, lpn, u, k, UserIo, lpn)
  {
    assert MapOk(s.maptbl, s.rev, s.nand, lpn);
    hide MapOk, RevOk, CountsOk, BlkCountsOk, LinesOk, StatusOk, FillOk;
  }

  /** What mark_page_invalid asserts of the page and line it is given. */
  lemma OldPage(y: Layout, s: Ftl, u: nat, k: nat, lpn: nat, p: Ppa)
    requires LayoutOk(y) && Core(y, s, -1, -1, u, k) && u < y.perLine && k < y.perLine
    requires lpn < |s.maptbl| && s.maptbl[lpn] == Some(p)
    ensures p in s.nand && p in s.rev && s.nand[p] == VALID && BlkOf(p) in s.bvpc && BlkOf(p) in s.bipc
            && p.blk < y.lines
    ensures 1 <= s.vpc[p.blk] && 0 <= s.ipc[p.blk] && s.vpc[p.blk] + s.ipc[p.blk] <= y.perLine
    ensures NoDup(s.full) && (s.vpc[p.blk] == y.perLine <==> p.blk in s.full)
    ensures p.blk in s.full ==> p.blk !in s.victims
  {
    InvalidateMaps(s.maptbl, s.rev, s.nand, lpn, p);
    LineOfValidPage(y, s, u, k, p);
    assert Places(ListsOf(s), p.blk) == 1;
  }

  lemma Invalidated(y: Layout, s: Ftl, s': Ftl, u: nat, k: nat, lpn: nat, p: Ppa)
    requires LayoutOk(y) && p in s.nand && p in s.rev && BlkOf(p) in s.bvpc && BlkOf(p) in s.bipc && p.blk < |s.vpc|
             && p.blk < |s.ipc|
    requires s' == MarkInvalid(y, s, p).(rev := s.rev[p := None]) && Core(y, s', -1, lpn, u, k)
    requires lpn < |s.maptbl| && s.maptbl[lpn] == Some(p) && PointerAt(y, s, UserIo, u)
    ensures CanProgram(y, s', -1, lpn, u, k, UserIo, lpn) && Contents(s') == Contents(s)
  {
    hide Core;
    assert forall l :: ContentAt(s', l) == ContentAt(s, l);
  }

  lemma UserTarget(y: Layout, s: Ftl, lpn: nat, u: nat, k: nat)
    requires CanProgram(y, s, -1, lpn, u, k, UserIo, lpn)
    ensures var p := PageAt(s.wp);
            p in s.rev && p in s.nand && s.nand[p] == FREE && BlkOf(p) in s.bvpc && p.blk < y.lines
            && p.blk !in s.victims && 0 <= s.vpc[p.blk] < y.perLine
  {
    NewPageIsFree(y, s, -1, lpn, u, k, UserIo);
    assert Places(ListsOf(s), s.wp.curline) == 1;
  }

  lemma ProgramRoom(y: Layout, s: Ftl, s': Ftl, u: nat, k: nat)
    requires s'.free == s.free
    ensures Room(y, s', u + 1, k) == Room(y, s, u, k) - 1
  {
  }

  /** When the user's line is used up there is a free one: the reserve exceeds what the
      collector's open line can hold. */
  lemma UserFreeLine(y: Layout, s: Ftl, u: nat, k: nat)
    requires u == y.perLine > 0 && Room(y, s, u, k) >= 2 * y.perLine
    ensures s.free != []
  {
  }

  /** The credit invariant after a refill, with or without a collection. */
  lemma RefillReserve(y: Layout, s: Ftl)
    requires s.credits == 0 && 1 <= s.refill <= y.perLine < 0x8000_0000
    requires PageAt(s.wp) in y.visit && PageAt(s.gc) in y.visit && LayoutOk(y)
    requires |s.free| > 2 || Reserve(y, s) - s.refill >= 2 * y.perLine
    ensures U32(s.credits + s.refill) == s.refill
    ensures CreditOk(y, s.(credits := s.refill), Pos(y, s.wp), Pos(y, s.gc))
  {
    if |s.free| > 2 {
      Radix.MulMono(3, |s.free|, y.perLine);
    }
  }

  lemma NotQueued(y: Layout, s: Ftl, v: nat, u: nat, k: nat)
    requires Core(y, s, v, -1, u, k)
    ensures v !in s.victims
  {
    if v < y.lines { assert Places(ListsOf(s), v) == 0; }
  }

  lemma InLine(y: Layout, s: Ftl)
    requires LayoutOk(y) && PageAt(s.gc) in y.visit
    ensures Pos(y, s.gc) < y.perLine
  {
  }

  lemma PointersInLine(y: Layout, s: Ftl)
    requires LayoutOk(y) && PageAt(s.wp) in y.visit && PageAt(s.gc) in y.visit
    ensures Pos(y, s.wp) < y.perLine && Pos(y, s.gc) < y.perLine && 0 < y.perLine
  {
  }
}

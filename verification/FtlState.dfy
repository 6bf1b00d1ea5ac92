/** The state of one page-mapped FTL instance as a value, its elementary steps, and the
    invariant that every command keeps. */
module FtlState {
  import opened Collections
  import opened Wrappers
  import opened Geometry

  datatype PageStatus = FREE | INVALID | VALID

  /** The next page to program: a line and a position within it. */
  datatype WritePointer = WritePointer(curline: nat, at: Coord)

  datatype IoType = UserIo | GcIo

  /** Mapping tables, page states, counters, line lists, write pointers and credits. pay is
      the data each page was last programmed with. */
  datatype Ftl = Ftl(
    maptbl: seq<Option<Ppa>>, rev: map<Ppa, Option<nat>>, nand: map<Ppa, PageStatus>, pay: map<Ppa, int>,
    bvpc: map<Blk, int>, bipc: map<Blk, int>, vpc: seq<int>, ipc: seq<int>,
    free: seq<nat>, full: seq<nat>, victims: set<nat>,
    wp: WritePointer, gc: WritePointer, credits: int, refill: int)

  /** What the steps need to know of the geometry: which pages there are and in which order
      a write pointer visits the pages of a line. */
  datatype Layout = Layout(lines: nat, perLine: nat, visit: map<Ppa, nat>)

  ghost predicate LayoutOk(y: Layout) {
    && 0 < y.perLine
    && (forall p :: p in y.visit ==> p.blk < y.lines && y.visit[p] < y.perLine)
    && (forall p, q :: p in y.visit && q in y.visit && p.blk == q.blk && y.visit[p] == y.visit[q] ==> p == q)
  }

  function PageAt(w: WritePointer): Ppa {
    Ppa(w.at.ch, w.at.lun, 0, w.curline, w.at.pg)
  }

  function Pointer(s: Ftl, io: IoType): WritePointer {
    if io.UserIo? then s.wp else s.gc
  }

  // ---- what is stored ----

  ghost function ContentAt(s: Ftl, lpn: nat): Option<int> {
    if lpn < |s.maptbl| && s.maptbl[lpn].Some? && s.maptbl[lpn].value in s.pay
    then Some(s.pay[s.maptbl[lpn].value]) else None
  }

  /** The logical contents: the data of every mapped logical page. */
  ghost function Contents(s: Ftl): map<nat, int> {
    map lpn | 0 <= lpn < |s.maptbl| && ContentAt(s, lpn).Some? :: ContentAt(s, lpn).value
  }

  // ---- the invariant, clause by clause ----
  // x is the line being collected (none: -1); hole is the logical page being rewritten
  // (none: -1); u and k are how many pages of the two open lines have been programmed.

  type Nand = map<Ppa, PageStatus>

  ghost predicate PagesOk(y: Layout, s: Ftl) {
    && s.nand.Keys == y.visit.Keys && s.rev.Keys == y.visit.Keys && s.pay.Keys == y.visit.Keys
    && |s.vpc| == y.lines && |s.ipc| == y.lines
    && (forall p :: p in y.visit ==> BlkOf(p) in s.bvpc && BlkOf(p) in s.bipc)
  }

  /** Every mapped logical page lies on a valid page whose reverse entry leads back. */
  ghost predicate MapOk(maptbl: seq<Option<Ppa>>, rev: map<Ppa, Option<nat>>, nand: Nand, hole: int) {
    forall lpn :: 0 <= lpn < |maptbl| && lpn != hole && maptbl[lpn].Some? ==>
      var p := maptbl[lpn].value; p in nand && nand[p] == VALID && p in rev && rev[p] == Some(lpn)
  }

  /** Every valid page outside the line being collected is the mapping of its reverse entry. */
  ghost predicate RevOk(maptbl: seq<Option<Ppa>>, rev: map<Ppa, Option<nat>>, nand: Nand, x: int) {
    forall p :: p in nand && p.blk != x && nand[p] == VALID ==>
      p in rev && rev[p].Some? && rev[p].value < |maptbl| && maptbl[rev[p].value] == Some(p)
  }

  ghost function LineSet(nand: Nand, l: nat, st: PageStatus): set<Ppa> {
    set p | p in nand && p.blk == l && nand[p] == st
  }

  ghost function BlkSet(nand: Nand, b: Blk, st: PageStatus): set<Ppa> {
    set p | p in nand && BlkOf(p) == b && nand[p] == st
  }

  /** Line counters are the numbers of valid and invalid pages. */
  ghost predicate CountsOk(nand: Nand, vpc: seq<int>, ipc: seq<int>, x: int) {
    && |vpc| == |ipc|
    && forall l :: 0 <= l < |vpc| && l != x ==>
         vpc[l] == |LineSet(nand, l, VALID)| && ipc[l] == |LineSet(nand, l, INVALID)|
  }

  /** Block counters likewise. */
  ghost predicate BlkCountsOk(nand: Nand, bvpc: map<Blk, int>, bipc: map<Blk, int>) {
    forall b :: b in bvpc && b in bipc ==>
      bvpc[b] == |BlkSet(nand, b, VALID)| && bipc[b] == |BlkSet(nand, b, INVALID)|
  }

  /** The five places a line can be. */
  datatype Lists = Lists(free: seq<nat>, full: seq<nat>, victims: set<nat>, user: nat, gc: nat)

  function ListsOf(s: Ftl): Lists {
    Lists(s.free, s.full, s.victims, s.wp.curline, s.gc.curline)
  }

  /** On how many of the five places line l is. */
  ghost function Places(q: Lists, l: nat): nat {
    One(l in q.free) + One(l in q.full) + One(l in q.victims) + One(l == q.user) + One(l == q.gc)
  }

  /** Each line is in exactly one place: free list, full list, victim queue, user pointer,
      collector pointer; only a line being collected is in none. */
  ghost predicate LinesOk(n: nat, q: Lists, x: int) {
    && NoDup(q.free) && NoDup(q.full)
    && (forall l :: l in q.free ==> l < n) && (forall l :: l in q.full ==> l < n)
        && (forall l :: l in q.victims ==> l < n)
    && q.user < n && q.gc < n
    && (forall l :: 0 <= l < n ==> Places(q, l) == One(l != x))
  }

  ghost predicate PageStatusOk(q: Lists, p: Ppa, st: PageStatus, pos: nat, u: nat, k: nat) {
    && (p.blk in q.free ==> st == FREE)
    && (p.blk in q.full || p.blk in q.victims ==> st != FREE)
    && (p.blk == q.user ==> (st == FREE <==> u <= pos))
    && (p.blk == q.gc ==> (st == FREE <==> k <= pos))
  }

  /** Free lines are erased, closed lines have no free page, and an open line is programmed
      exactly up to its write pointer. */
  ghost predicate StatusOk(visit: map<Ppa, nat>, nand: Nand, q: Lists, x: int, u: nat, k: nat) {
    forall p :: p in nand && p in visit && p.blk != x ==> PageStatusOk(q, p, nand[p], visit[p], u, k)
  }

  ghost predicate LineFillOk(perLine: nat, q: Lists, l: nat, valid: int, invalid: int, u: nat, k: nat) {
    && (l in q.full ==> valid == perLine && invalid == 0)
    && (l in q.victims ==> valid < perLine && valid + invalid == perLine)
    && (l == q.user ==> valid + invalid == u)
    && (l == q.gc ==> valid + invalid == k)
  }

  /** Full lines hold valid pages only, victims at least one invalid page; the counters of a
      line add up to the number of its pages programmed since its last erase. */
  ghost predicate FillOk(perLine: nat, vpc: seq<int>, ipc: seq<int>, q: Lists, u: nat, k: nat) {
    && |vpc| == |ipc| && u <= perLine && k <= perLine
    && forall l :: 0 <= l < |vpc| ==> LineFillOk(perLine, q, l, vpc[l], ipc[l], u, k)
  }

  /** The logical pages stored. */
  ghost function Mapped(maptbl: seq<Option<Ppa>>): set<nat> {
    set lpn: nat | lpn < |maptbl| && maptbl[lpn].Some?
  }

  /** Wherever in the tables they lie, no more logical pages are stored than the capacity. */
  ghost predicate InCapacity(maptbl: seq<Option<Ppa>>, capacity: nat) {
    |Mapped(maptbl)| <= capacity
  }

  lemma MappedSet(maptbl: seq<Option<Ppa>>, lpn: nat, p: Ppa)
    requires lpn < |maptbl|
    ensures Mapped(maptbl[lpn := Some(p)]) == Mapped(maptbl) + {lpn}
  {
  }

  ghost predicate Core(y: Layout, s: Ftl, x: int, hole: int, u: nat, k: nat) {
    && PagesOk(y, s)
    && MapOk(s.maptbl, s.rev, s.nand, hole) && RevOk(s.maptbl, s.rev, s.nand, x)
    && CountsOk(s.nand, s.vpc, s.ipc, x) && BlkCountsOk(s.nand, s.bvpc, s.bipc)
    && LinesOk(y.lines, ListsOf(s), x)
    && StatusOk(y.visit, s.nand, ListsOf(s), x, u, k)
    && FillOk(y.perLine, s.vpc, s.ipc, ListsOf(s), u, k)
  }

  ghost predicate PointerAt(y: Layout, s: Ftl, io: IoType, n: nat) {
    PageAt(Pointer(s, io)) in y.visit && y.visit[PageAt(Pointer(s, io))] == n
  }

  /** Pages that can still be programmed without erasing anything. */
  function Room(y: Layout, s: Ftl, u: nat, k: nat): int {
    |s.free| * y.perLine + (y.perLine - u) + (y.perLine - k)
  }

  /** The reserve that keeps both write pointers supplied: whatever credits remain can be
      spent and two lines are still left. */
  ghost predicate CreditOk(y: Layout, s: Ftl, u: nat, k: nat) {
    && Room(y, s, u, k) - s.credits >= 2 * y.perLine
    && 1 <= s.refill <= y.perLine && s.credits <= y.perLine
  }

  // ---- elementary steps ----

  function Remove(a: seq<nat>, l: nat): seq<nat> {
    if a == [] then [] else if a[0] == l then a[1..] else [a[0]] + Remove(a[1..], l)
  }

  /** mark_page_invalid: the page's counters, and a full line becomes a victim. */
  function MarkInvalid(y: Layout, s: Ftl, p: Ppa): Ftl
    requires p in s.nand && BlkOf(p) in s.bvpc && BlkOf(p) in s.bipc && p.blk < |s.vpc| && p.blk < |s.ipc|
  {
    var l, b := p.blk, BlkOf(p);
    var wasFull := s.vpc[l] == y.perLine;
    s.(nand := s.nand[p := INVALID],
       bipc := s.bipc[b := s.bipc[b] + 1], bvpc := s.bvpc[b := s.bvpc[b] - 1],
       ipc := s.ipc[l := s.ipc[l] + 1], vpc := s.vpc[l := s.vpc[l] - 1],
       full := if wasFull then Remove(s.full, l) else s.full,
       victims := if wasFull then s.victims + {l} else s.victims)
  }

  /** mark_page_valid. */
  function MarkValid(s: Ftl, p: Ppa): Ftl
    requires p in s.nand && BlkOf(p) in s.bvpc && p.blk < |s.vpc|
  {
    var l, b := p.blk, BlkOf(p);
    s.(nand := s.nand[p := VALID], bvpc := s.bvpc[b := s.bvpc[b] + 1], vpc := s.vpc[l := s.vpc[l] + 1])
  }

  /** Programming page p with logical page lpn: both tables, then mark_page_valid. */
  function Program(s: Ftl, lpn: nat, p: Ppa, data: int): Ftl
    requires p in s.nand && BlkOf(p) in s.bvpc && p.blk < |s.vpc| && lpn < |s.maptbl|
  {
    MarkValid(s.(maptbl := s.maptbl[lpn := Some(p)], rev := s.rev[p := Some(lpn)], pay := s.pay[p := data]), p)
  }

  function WithPointer(s: Ftl, io: IoType, w: WritePointer): Ftl {
    if io.UserIo? then s.(wp := w) else s.(gc := w)
  }

  /** advance_write_pointer, the coordinate step (n, closed) already taken: a used-up line
      goes to the full list or the victim queue and the first free line is opened. */
  function Advance(y: Layout, s: Ftl, io: IoType, n: Coord, closed: bool): Ftl
    requires closed ==> s.free != [] && Pointer(s, io).curline < |s.vpc|
  {
    var w := Pointer(s, io);
    if !closed then WithPointer(s, io, WritePointer(w.curline, n))
    else
      var s1 := if s.vpc[w.curline] == y.perLine then s.(full := s.full + [w.curline])
                else s.(victims := s.victims + {w.curline});
      WithPointer(s1.(free := s.free[1..]), io, WritePointer(s.free[0], n))
  }

  /** mark_block_free. */
  function FreeBlock(s: Ftl, b: Blk): Ftl {
    s.(nand := map p | p in s.nand :: if BlkOf(p) == b then FREE else s.nand[p],
       bvpc := s.bvpc[b := 0], bipc := s.bipc[b := 0])
  }

  /** mark_line_free. */
  function FreeLine(s: Ftl, l: nat): Ftl
    requires l < |s.vpc| && l < |s.ipc|
  {
    s.(ipc := s.ipc[l := 0], vpc := s.vpc[l := 0], free := s.free + [l])
  }
}

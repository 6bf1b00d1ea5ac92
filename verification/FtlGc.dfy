/** Garbage collection: what one collection keeps, why it always finds a victim, and the
    credit arithmetic that keeps free lines available. */
module FtlGc {
  import opened Collections
  import opened Wrappers
  import opened Geometry
  import opened FtlState
  import opened FtlSteps

  // ---- a victim exists whenever lines run low ----

  ghost function Members(a: seq<nat>): set<nat> {
    set l | l in a
  }

  lemma {:induction false} MembersSize(a: seq<nat>)
    ensures |Members(a)| <= |a|
  {
    if a != [] {
      MembersSize(a[1..]);
      assert Members(a) == {a[0]} + Members(a[1..]);
    } else {
      assert Members(a) == {};
    }
  }

  lemma ManyFullLines(n: nat, q: Lists)
    requires LinesOk(n, q, -1) && q.victims == {}
    ensures |q.full| + |q.free| + 2 >= n
  {
    var a := Members(q.free) + Members(q.full);
    forall l | l in Below(n) ensures l in a + {q.user, q.gc} {
      assert Places(q, l) == 1;
    }
    assert Below(n) <= a + {q.user, q.gc};
    SubsetSize(Below(n), a + {q.user, q.gc});
    MembersSize(q.free);
    MembersSize(q.full);
    assert |a + {q.user, q.gc}| <= |a| + |{q.user, q.gc}|;
    assert |a| <= |Members(q.free)| + |Members(q.full)|;
  }

  ghost function ValidIn(nand: Nand, lines: seq<nat>): set<Ppa> {
    set p | p in nand && p.blk in lines && nand[p] == VALID
  }

  lemma {:induction false} ValidInSize(nand: Nand, lines: seq<nat>, perLine: nat)
    requires NoDup(lines)
    requires forall l :: l in lines ==> |LineSet(nand, l, VALID)| == perLine
    ensures |ValidIn(nand, lines)| == |lines| * perLine
  {
    if lines == [] {
      assert ValidIn(nand, lines) == {};
    } else {
      ValidInSplit(nand, lines);
      ValidInSize(nand, lines[1..], perLine);
      hide NoDup, ValidIn, LineSet;
      assert |lines| * perLine == |lines[1..]| * perLine + perLine;
    }
  }

  lemma ValidInSplit(nand: Nand, lines: seq<nat>)
    requires NoDup(lines) && lines != []
    ensures NoDup(lines[1..])
    ensures forall m :: m in lines[1..] ==> m in lines
    ensures |ValidIn(nand, lines)| == |ValidIn(nand, lines[1..])| + |LineSet(nand, lines[0], VALID)|
  {
    var l, t := lines[0], lines[1..];
    assert forall i :: 0 <= i < |t| ==> t[i] == lines[i + 1];
    assert l !in t;
    assert forall m :: m in lines <==> m == l || m in t;
    assert ValidIn(nand, lines) == ValidIn(nand, t) + LineSet(nand, l, VALID);
    assert ValidIn(nand, t) !! LineSet(nand, l, VALID);
  }

  /** Distinct valid pages hold distinct logical pages. */
  lemma {:induction false} PagesFit(maptbl: seq<Option<Ppa>>, rev: map<Ppa, Option<nat>>, pages: set<Ppa>,
                                    lpns: set<nat>)
    requires forall p :: p in pages ==> p in rev && rev[p].Some? && rev[p].value in lpns
    requires forall p :: p in pages ==> rev[p].value < |maptbl| && maptbl[rev[p].value] == Some(p)
    ensures |pages| <= |lpns|
  {
    if pages != {} {
      var p :| p in pages;
      PagesFit(maptbl, rev, pages - {p}, lpns - {rev[p].value});
    }
  }

  /** With at most two free lines and fewer logical pages stored than all but four lines hold,
      some closed line holds an invalid page. */
  lemma VictimExists(y: Layout, s: Ftl, u: nat, k: nat, capacity: nat)
    requires LayoutOk(y) && Core(y, s, -1, -1, u, k) && InCapacity(s.maptbl, capacity)
    requires |s.free| <= 2 && capacity < (y.lines - 4) * y.perLine
    ensures s.victims != {}
  {
    hide Core, InCapacity, LayoutOk, ValidIn;
    if s.victims == {} {
      FullLinesHold(y, s, u, k);
      FullPagesFit(y, s, u, k, capacity);
      Radix.MulMono(y.lines - 4, |s.full|, y.perLine);
    }
  }

  /** At exactly all but four lines' worth of stored pages there may be no invalid page to collect:
      then every stored page lies in a full line, so the line being written holds none. */
  lemma NothingInvalid(y: Layout, s: Ftl, u: nat, k: nat, capacity: nat)
    requires LayoutOk(y) && Core(y, s, -1, -1, u, k) && InCapacity(s.maptbl, capacity)
    requires |s.free| <= 2 && s.victims == {} && capacity <= (y.lines - 4) * y.perLine
    ensures |s.free| == 2 && forall p :: p in s.nand && p.blk == s.wp.curline ==> s.nand[p] != VALID
  {
    hide Core, InCapacity, LayoutOk, ValidIn;
    FullLinesHold(y, s, u, k);
    FullPagesFit(y, s, u, k, capacity);
    PerLinePositive(y);
    Radix.NonNegative(y.lines - 4, y.perLine);
    Radix.MulMono(y.lines - 4, |s.full|, y.perLine);
    FreeLines(y, s, u, k);
    forall p | p in s.nand && p.blk == s.wp.curline ensures s.nand[p] != VALID {
      OneMoreValid(y, s, u, k, capacity, p);
    }
  }

  lemma PerLinePositive(y: Layout)
    requires LayoutOk(y)
    ensures y.perLine > 0
  {
  }

  lemma FreeLines(y: Layout, s: Ftl, u: nat, k: nat)
    requires Core(y, s, -1, -1, u, k) && s.victims == {}
    ensures |s.full| + |s.free| + 2 >= y.lines
  {
    ManyFullLines(y.lines, ListsOf(s));
  }

  lemma UserNotFull(y: Layout, s: Ftl, u: nat, k: nat)
    requires Core(y, s, -1, -1, u, k)
    ensures s.wp.curline !in s.full
  {
    assert Places(ListsOf(s), s.wp.curline) == 1;
  }

  /** A valid page of the open line is stored besides those of the full lines. */
  lemma OneMoreValid(y: Layout, s: Ftl, u: nat, k: nat, capacity: nat, p: Ppa)
    requires Core(y, s, -1, -1, u, k) && InCapacity(s.maptbl, capacity) && p in s.nand && p.blk == s.wp.curline
    ensures s.nand[p] == VALID ==> |ValidIn(s.nand, s.full)| < capacity
  {
    hide LinesOk, StatusOk, FillOk, CountsOk, BlkCountsOk, MapOk, PagesOk;
    if s.nand[p] == VALID {
      UserNotFull(y, s, u, k);
      PagesFit(s.maptbl, s.rev, ValidIn(s.nand, s.full) + {p}, Mapped(s.maptbl));
    }
  }

  lemma FullLinesHold(y: Layout, s: Ftl, u: nat, k: nat)
    requires LayoutOk(y) && Core(y, s, -1, -1, u, k) && |s.free| <= 2 && s.victims == {}
    ensures |s.full| >= y.lines - 4 && |ValidIn(s.nand, s.full)| == |s.full| * y.perLine
  {
    var q := ListsOf(s);
    ManyFullLines(y.lines, q);
    forall l | l in s.full ensures |LineSet(s.nand, l, VALID)| == y.perLine {
      assert LineFillOk(y.perLine, q, l, s.vpc[l], s.ipc[l], u, k);
    }
    ValidInSize(s.nand, s.full, y.perLine);
  }

  lemma FullPagesFit(y: Layout, s: Ftl, u: nat, k: nat, capacity: nat)
    requires Core(y, s, -1, -1, u, k) && InCapacity(s.maptbl, capacity)
    ensures |ValidIn(s.nand, s.full)| <= capacity
  {
    PagesFit(s.maptbl, s.rev, ValidIn(s.nand, s.full), Mapped(s.maptbl));
  }

  // ---- one collection ----

  lemma SelectLines(n: nat, q: Lists, v: nat)
    requires LinesOk(n, q, -1) && v in q.victims
    ensures LinesOk(n, q.(victims := q.victims - {v}), v)
  {
    forall l | 0 <= l < n ensures Places(q.(victims := q.victims - {v}), l) == One(l != v) {
      assert Places(q, l) == 1;
    }
  }

  lemma VictimCounts(y: Layout, s: Ftl, u: nat, k: nat, v: nat)
    requires Core(y, s, -1, -1, u, k) && v in s.victims
    ensures v < y.lines && s.vpc[v] == |LineSet(s.nand, v, VALID)| < y.perLine && s.ipc[v] == y.perLine - s.vpc[v]
  {
    assert v < y.lines;
    assert LineFillOk(y.perLine, ListsOf(s), v, s.vpc[v], s.ipc[v], u, k);
  }

  /** select_victim_line: the victim leaves the queue and dangles. */
  lemma SelectKeeps(y: Layout, s: Ftl, u: nat, k: nat, v: nat)
    requires Core(y, s, -1, -1, u, k) && v in s.victims
    ensures Core(y, s.(victims := s.victims - {v}), v, -1, u, k)
  {
    var q := ListsOf(s);
    var q' := q.(victims := q.victims - {v});
    assert RevOk(s.maptbl, s.rev, s.nand, v) && CountsOk(s.nand, s.vpc, s.ipc, v);
    hide RevOk, CountsOk, MapOk, BlkCountsOk, LinesOk, StatusOk, FillOk;
    SelectLines(y.lines, q, v);
    SelectStatus(y, s.nand, s.vpc, s.ipc, q, q', v, u, k);
    assert ListsOf(s.(victims := s.victims - {v})) == q';
  }

  lemma SelectStatus(y: Layout, nand: Nand, vpc: seq<int>, ipc: seq<int>, q: Lists, q': Lists, v: nat, u: nat, k: nat)
    requires q' == q.(victims := q.victims - {v})
    requires StatusOk(y.visit, nand, q, -1, u, k) && FillOk(y.perLine, vpc, ipc, q, u, k)
    ensures StatusOk(y.visit, nand, q', v, u, k) && FillOk(y.perLine, vpc, ipc, q', u, k)
  {
    forall p | p in nand && p in y.visit ensures PageStatusOk(q', p, nand[p], y.visit[p], u, k) {
      assert PageStatusOk(q, p, nand[p], y.visit[p], u, k);
    }
    forall l | 0 <= l < |vpc| ensures LineFillOk(y.perLine, q', l, vpc[l], ipc[l], u, k) {
      assert LineFillOk(y.perLine, q, l, vpc[l], ipc[l], u, k);
    }
  }

  /** The mapping entry of a page of the victim line that is still to be copied. */
  ghost predicate Live(s: Ftl, p: Ppa) {
    p in s.rev && s.rev[p].Some? && s.rev[p].value < |s.maptbl| && s.maptbl[s.rev[p].value] == Some(p)
  }

  /** Collection of line v in progress: s0 is the state when v was selected, done the valid
      pages already copied. A copied page keeps its state and its (now stale) reverse entry
      until its block is erased. */
  ghost predicate Copying(y: Layout, s0: Ftl, s: Ftl, v: nat, done: set<Ppa>, capacity: nat) {
    && done <= LineSet(s0.nand, v, VALID)
    && (forall p :: p in LineSet(s0.nand, v, VALID) && p !in done ==> Live(s, p))
    && (forall lpn :: 0 <= lpn < |s.maptbl| && s.maptbl[lpn].Some? && s.maptbl[lpn].value.blk == v
          ==> s.maptbl[lpn].value !in done)
    && InCapacity(s.maptbl, capacity) && |s.maptbl| == |s0.maptbl|
    && v < y.lines && |s.vpc| == y.lines && |s0.vpc| == y.lines && |s.ipc| == y.lines && |s0.ipc| == y.lines
    && s.vpc[v] == s0.vpc[v] && s.ipc[v] == s0.ipc[v]
    && s.credits == s0.credits && s.refill == s0.refill && s.wp == s0.wp
  }

  /** The collection between two pages (moving) or between programming and advancing. */
  ghost predicate Moving(y: Layout, s0: Ftl, s: Ftl, v: nat, done: set<Ppa>, capacity: nat, u: nat, k0: nat, k: nat) {
    && LayoutOk(y) && Core(y, s, v, -1, u, k) && PointerAt(y, s, UserIo, u)
    && Copying(y, s0, s, v, done, capacity)
    && Contents(s) == Contents(s0)
    && Room(y, s, u, k) == Room(y, s0, u, k0) - |done| && |LineSet(s0.nand, v, VALID)| < y.perLine
  }

  ghost predicate Collecting(y: Layout, s0: Ftl, s: Ftl, v: nat, done: set<Ppa>, capacity: nat, u: nat, k0: nat,
                             k: nat) {
    Moving(y, s0, s, v, done, capacity, u, k0, k) && PointerAt(y, s, GcIo, k)
  }

  lemma CopyingStarts(y: Layout, s: Ftl, v: nat, capacity: nat)
    requires RevOk(s.maptbl, s.rev, s.nand, -1) && PagesOk(y, s) && v < y.lines && InCapacity(s.maptbl, capacity)
    ensures var s0 := s.(victims := s.victims - {v});
            Copying(y, s0, s0, v, {}, capacity) && Contents(s0) == Contents(s)
  {
    var s0 := s.(victims := s.victims - {v});
    forall p | p in LineSet(s0.nand, v, VALID) ensures Live(s0, p) {}
    assert forall l :: ContentAt(s0, l) == ContentAt(s, l);
  }

  lemma CollectingStarts(y: Layout, s: Ftl, u: nat, k: nat, v: nat, capacity: nat)
    requires LayoutOk(y) && Core(y, s, -1, -1, u, k) && PointerAt(y, s, UserIo, u) && PointerAt(y, s, GcIo, k)
    requires InCapacity(s.maptbl, capacity) && v in s.victims
    ensures var s0 := s.(victims := s.victims - {v});
            Collecting(y, s0, s0, v, {}, capacity, u, k, k) && Contents(s0) == Contents(s)
                && Room(y, s0, u, k) == Room(y, s, u, k)
    ensures v < y.lines && s.vpc[v] == |LineSet(s.nand, v, VALID)| && 0 < s.ipc[v] == y.perLine - s.vpc[v] <= y.perLine
  {
    hide Core, Copying, Contents, LayoutOk, InCapacity, RevOk;
    CoreMaps(y, s, -1, -1, u, k);
    VictimCounts(y, s, u, k, v);
    SelectKeeps(y, s, u, k, v);
    CopyingStarts(y, s, v, capacity);
  }

  /** gc_write_page up to the point where the write pointer advances. */
  function Copy(s: Ftl, p: Ppa): Ftl
    requires Live(s, p) && p in s.pay && PageAt(s.gc) in s.nand && BlkOf(PageAt(s.gc)) in s.bvpc
             && s.gc.curline < |s.vpc|
  {
    Program(s, s.rev[p].value, PageAt(s.gc), s.pay[p])
  }

  lemma CopyCore(y: Layout, s: Ftl, v: nat, u: nat, k: nat, p: Ppa)
    requires LayoutOk(y) && Core(y, s, v, -1, u, k) && PointerAt(y, s, GcIo, k) && Live(s, p) && p.blk == v
    requires p in s.nand
    ensures p in s.pay && PageAt(s.gc) in s.nand && BlkOf(PageAt(s.gc)) in s.bvpc && s.gc.curline < |s.vpc|
    ensures s.gc.curline != v && s.nand[PageAt(s.gc)] == FREE
    ensures Core(y, Copy(s, p), v, -1, u, k + 1) && Contents(Copy(s, p)) == Contents(s)
  {
    hide RevOk, CountsOk, MapOk, BlkCountsOk, LinesOk, StatusOk, FillOk, LayoutOk;
    var lpn := s.rev[p].value;
    assert CanProgram(y, s, v, -1, u, k, GcIo, lpn);
    NewPageIsFree(y, s, v, -1, u, k, GcIo);
    ProgramKeeps(y, s, v, -1, u, k, GcIo, lpn, s.pay[p]);
    ProgramContents(y, s, v, -1, u, k, GcIo, lpn, s.pay[p]);
    assert ContentAt(s, lpn) == Some(s.pay[p]);
    assert Contents(s)[lpn := s.pay[p]] == Contents(s);
  }

  lemma CopyCopying(y: Layout, s0: Ftl, s: Ftl, v: nat, done: set<Ppa>, capacity: nat, u: nat, k: nat, p: Ppa)
    requires Copying(y, s0, s, v, done, capacity) && p in LineSet(s0.nand, v, VALID) && p !in done && Live(s, p)
    requires p in s.pay && PageAt(s.gc) in s.nand && BlkOf(PageAt(s.gc)) in s.bvpc && s.gc.curline < |s.vpc|
    requires s.gc.curline != v
    requires MapOk(s.maptbl, s.rev, s.nand, -1)
    ensures Copying(y, s0, Copy(s, p), v, done + {p}, capacity)
  {
    var s', lpn := Copy(s, p), s.rev[p].value;
    MappedSet(s.maptbl, lpn, PageAt(s.gc));
    assert Mapped(s'.maptbl) == Mapped(s.maptbl);
    forall r | r in LineSet(s0.nand, v, VALID) && r !in done + {p} ensures Live(s', r) {
      assert Live(s, r);
    }
  }

  /** While copying, the free list never runs dry: a reserve of two lines covers a whole victim. */
  lemma FreeLineLeft(y: Layout, s0: Ftl, s: Ftl, v: nat, done: set<Ppa>, capacity: nat, u: nat, k0: nat, k: nat)
    requires Moving(y, s0, s, v, done, capacity, u, k0, k) && k == y.perLine && Room(y, s0, u, k0) >= 2 * y.perLine
    ensures s.free != []
  {
    assert Copying(y, s0, s, v, done, capacity);
    SubsetSize(done, LineSet(s0.nand, v, VALID));
    assert u < y.perLine;
  }

  lemma CoreMaps(y: Layout, s: Ftl, x: int, hole: int, u: nat, k: nat)
    requires Core(y, s, x, hole, u, k)
    ensures PagesOk(y, s) && MapOk(s.maptbl, s.rev, s.nand, hole) && RevOk(s.maptbl, s.rev, s.nand, x)
  {
  }

  lemma CopyRoom(y: Layout, s: Ftl, p: Ppa, u: nat, k: nat)
    requires Live(s, p) && p in s.pay && PageAt(s.gc) in s.nand && BlkOf(PageAt(s.gc)) in s.bvpc
             && s.gc.curline < |s.vpc|
    ensures Room(y, Copy(s, p), u, k + 1) == Room(y, s, u, k) - 1
    ensures PointerAt(y, Copy(s, p), UserIo, u) == PointerAt(y, s, UserIo, u)
  {
  }

  /** One valid page of the victim programmed elsewhere: the contents stay, the room shrinks
      by one page. */
  lemma CopyStep(y: Layout, s0: Ftl, s: Ftl, v: nat, done: set<Ppa>, capacity: nat, u: nat, k0: nat, k: nat, p: Ppa)
    requires Collecting(y, s0, s, v, done, capacity, u, k0, k) && p in LineSet(s0.nand, v, VALID) && p !in done
    requires p in s.nand && Live(s, p)
    ensures p in s.pay && PageAt(s.gc) in s.nand && BlkOf(PageAt(s.gc)) in s.bvpc && s.gc.curline < |s.vpc|
    ensures s.nand[PageAt(s.gc)] == FREE
    ensures Moving(y, s0, Copy(s, p), v, done + {p}, capacity, u, k0, k + 1)
  {
    hide Core, Copying, Contents, Live, LayoutOk, MapOk;
    CoreMaps(y, s, v, -1, u, k);
    CopyCore(y, s, v, u, k, p);
    CopyCopying(y, s0, s, v, done, capacity, u, k, p);
    CopyRoom(y, s, p, u, k);
  }

  /** Then the collector's write pointer advances. */
  lemma MoveStep(y: Layout, s0: Ftl, s: Ftl, v: nat, done: set<Ppa>, capacity: nat, u: nat, k0: nat, k: nat, n: Coord,
                 closed: bool)
    requires Moving(y, s0, s, v, done, capacity, u, k0, k)
    requires StepOk(y, s, GcIo, n, closed, k)
    ensures s.gc.curline < |s.vpc|
    ensures Collecting(y, s0, Advance(y, s, GcIo, n, closed), v, done, capacity, u, k0, if closed then 0 else k)
  {
    hide Core, Copying, Contents, LineSet, Live, Room, LayoutOk, Advance;
    AdvanceKeeps(y, s, v, u, k, GcIo, n, closed);
    AdvanceContents(y, s, GcIo, n, closed);
    AdvanceParts(y, s, GcIo, n, closed);
    CopyingAdvance(y, s0, s, v, done, capacity, n, closed);
  }

  /** Collection reads only the mapping, the counts, the credits and the user pointer. */
  lemma CopyingFrame(y: Layout, s0: Ftl, s: Ftl, s': Ftl, v: nat, done: set<Ppa>, capacity: nat)
    requires Copying(y, s0, s, v, done, capacity) && s'.maptbl == s.maptbl && s'.rev == s.rev && s'.vpc == s.vpc
             && s'.ipc == s.ipc
    requires s'.credits == s.credits && s'.refill == s.refill && s'.wp == s.wp
    ensures Copying(y, s0, s', v, done, capacity)
  {
    hide LineSet, InCapacity;
    forall p | p in LineSet(s0.nand, v, VALID) && p !in done ensures Live(s', p) {
      assert Live(s, p);
    }
  }

  lemma CopyingAdvance(y: Layout, s0: Ftl, s: Ftl, v: nat, done: set<Ppa>, capacity: nat, n: Coord, closed: bool)
    requires Copying(y, s0, s, v, done, capacity)
    requires closed ==> s.free != [] && s.gc.curline < |s.vpc|
    ensures Copying(y, s0, Advance(y, s, GcIo, n, closed), v, done, capacity)
  {
    hide Copying, Advance;
    AdvanceParts(y, s, GcIo, n, closed);
    CopyingFrame(y, s0, s, Advance(y, s, GcIo, n, closed), v, done, capacity);
  }

  // ---- erasing the victim ----

  /** The victim line so far: blocks already erased are free, the others as selected. */
  ghost predicate VictimPages(s0: Ftl, s: Ftl, v: nat, freed: set<Blk>) {
    forall p :: p in s.nand && p.blk == v ==>
      p in s0.nand && s.nand[p] == if BlkOf(p) in freed then FREE else s0.nand[p]
  }

  lemma FreeBlockCounts(nand: Nand, nand': Nand, vpc: seq<int>, ipc: seq<int>, bvpc: map<Blk, int>, bipc: map<Blk,
                        int>, b: Blk)
    requires CountsOk(nand, vpc, ipc, b.blk) && BlkCountsOk(nand, bvpc, bipc)
    requires nand' == map p | p in nand :: if BlkOf(p) == b then FREE else nand[p]
    ensures CountsOk(nand', vpc, ipc, b.blk) && BlkCountsOk(nand', bvpc[b := 0], bipc[b := 0])
  {
    forall l, st: PageStatus | 0 <= l < |vpc| && l != b.blk ensures LineSet(nand', l, st) == LineSet(nand, l, st) {
      assert forall p :: p in LineSet(nand', l, st) <==> p in LineSet(nand, l, st);
    }
    forall c, st: PageStatus | c != b ensures BlkSet(nand', c, st) == BlkSet(nand, c, st) {
      assert forall p :: p in BlkSet(nand', c, st) <==> p in BlkSet(nand, c, st);
    }
    assert BlkSet(nand', b, VALID) == {} && BlkSet(nand', b, INVALID) == {};
  }

  lemma FreeBlockMaps(s: Ftl, nand': Nand, b: Blk)
    requires MapOk(s.maptbl, s.rev, s.nand, -1) && RevOk(s.maptbl, s.rev, s.nand, b.blk)
    requires nand' == map p | p in s.nand :: if BlkOf(p) == b then FREE else s.nand[p]
    requires forall lpn :: 0 <= lpn < |s.maptbl| && s.maptbl[lpn].Some? ==> BlkOf(s.maptbl[lpn].value) != b
    ensures MapOk(s.maptbl, s.rev, nand', -1) && RevOk(s.maptbl, s.rev, nand', b.blk)
  {
  }

  lemma FreeBlockStatus(visit: map<Ppa, nat>, nand: Nand, nand': Nand, q: Lists, b: Blk, u: nat, k: nat)
    requires StatusOk(visit, nand, q, b.blk, u, k)
    requires nand' == map p | p in nand :: if BlkOf(p) == b then FREE else nand[p]
    ensures StatusOk(visit, nand', q, b.blk, u, k)
  {
    forall p | p in nand' && p in visit && p.blk != b.blk ensures PageStatusOk(q, p, nand'[p], visit[p], u, k) {
      assert PageStatusOk(q, p, nand[p], visit[p], u, k);
    }
  }

  /** Every page of block b that was valid when the victim was selected has been copied. */
  ghost predicate BlockDone(s0: Ftl, v: nat, done: set<Ppa>, b: Blk) {
    b.blk == v && forall p :: p in LineSet(s0.nand, v, VALID) && BlkOf(p) == b ==> p in done
  }

  /** No logical page still maps into a block whose valid pages are all copied. */
  lemma NothingMapped(y: Layout, s0: Ftl, s: Ftl, v: nat, done: set<Ppa>, capacity: nat, freed: set<Blk>, b: Blk)
    requires Copying(y, s0, s, v, done, capacity) && MapOk(s.maptbl, s.rev, s.nand, -1)
    requires VictimPages(s0, s, v, freed) && BlockDone(s0, v, done, b)
    ensures forall lpn :: 0 <= lpn < |s.maptbl| && s.maptbl[lpn].Some? ==> BlkOf(s.maptbl[lpn].value) != b
  {
  }

  lemma FreeBlockPages(y: Layout, s: Ftl, b: Blk)
    requires PagesOk(y, s)
    ensures PagesOk(y, FreeBlock(s, b)) && Contents(FreeBlock(s, b)) == Contents(s)
  {
    assert forall l :: ContentAt(FreeBlock(s, b), l) == ContentAt(s, l);
  }

  lemma FreeBlockCopying(y: Layout, s0: Ftl, s: Ftl, v: nat, done: set<Ppa>, capacity: nat, freed: set<Blk>, b: Blk)
    requires Copying(y, s0, s, v, done, capacity) && VictimPages(s0, s, v, freed) && b.blk == v
    ensures Copying(y, s0, FreeBlock(s, b), v, done, capacity) && VictimPages(s0, FreeBlock(s, b), v, freed + {b})
  {
    forall r | r in LineSet(s0.nand, v, VALID) && r !in done ensures Live(FreeBlock(s, b), r) {
      assert Live(s, r);
    }
  }

  lemma FreeBlockCore(y: Layout, s: Ftl, v: nat, u: nat, k: nat, b: Blk)
    requires Core(y, s, v, -1, u, k) && b.blk == v
    requires forall lpn :: 0 <= lpn < |s.maptbl| && s.maptbl[lpn].Some? ==> BlkOf(s.maptbl[lpn].value) != b
    ensures Core(y, FreeBlock(s, b), v, -1, u, k)
  {
    hide MapOk, RevOk, CountsOk, BlkCountsOk, LinesOk, StatusOk, FillOk;
    var s' := FreeBlock(s, b);
    FreeBlockCounts(s.nand, s'.nand, s.vpc, s.ipc, s.bvpc, s.bipc, b);
    FreeBlockMaps(s, s'.nand, b);
    FreeBlockStatus(y.visit, s.nand, s'.nand, ListsOf(s), b, u, k);
    FreeBlockPages(y, s, b);
    assert ListsOf(s') == ListsOf(s);
  }

  /** mark_block_free on a block whose pages have all been copied. */
  lemma EraseStep(y: Layout, s0: Ftl, s: Ftl, v: nat, done: set<Ppa>, capacity: nat, u: nat, k0: nat, k: nat,
                  freed: set<Blk>, b: Blk)
    requires Collecting(y, s0, s, v, done, capacity, u, k0, k)
    requires VictimPages(s0, s, v, freed) && BlockDone(s0, v, done, b)
    ensures Collecting(y, s0, FreeBlock(s, b), v, done, capacity, u, k0, k)
    ensures VictimPages(s0, FreeBlock(s, b), v, freed + {b})
  {
    hide Core, Copying, MapOk, VictimPages, LineSet, LayoutOk, Contents;
    CoreMaps(y, s, v, -1, u, k);
    NothingMapped(y, s0, s, v, done, capacity, freed, b);
    FreeBlockCore(y, s, v, u, k, b);
    FreeBlockPages(y, s, b);
    FreeBlockCopying(y, s0, s, v, done, capacity, freed, b);
    assert Room(y, FreeBlock(s, b), u, k) == Room(y, s, u, k);
  }

  lemma FreeLineCounts(nand: Nand, vpc: seq<int>, ipc: seq<int>, v: nat)
    requires CountsOk(nand, vpc, ipc, v) && v < |vpc|
    requires forall p :: p in nand && p.blk == v ==> nand[p] == FREE
    ensures CountsOk(nand, vpc[v := 0], ipc[v := 0], -1)
  {
    assert LineSet(nand, v, VALID) == {} && LineSet(nand, v, INVALID) == {};
  }

  lemma FreeLineLines(n: nat, q: Lists, v: nat)
    requires LinesOk(n, q, v) && v < n
    ensures LinesOk(n, q.(free := q.free + [v]), -1)
    ensures v !in q.full && v !in q.victims && v != q.user && v != q.gc
    ensures forall m :: m in q.free + [v] <==> m in q.free || m == v
  {
    assert Places(q, v) == 0;
    assert forall m :: m in q.free + [v] <==> m in q.free || m == v;
    forall l | 0 <= l < n ensures Places(q.(free := q.free + [v]), l) == One(l != -1) {
      assert Places(q, l) == One(l != v);
    }
  }

  lemma FreeLineStatus(visit: map<Ppa, nat>, nand: Nand, q: Lists, v: nat, u: nat, k: nat)
    requires StatusOk(visit, nand, q, v, u, k)
    requires v !in q.full && v !in q.victims && v != q.user && v != q.gc
    requires forall m :: m in q.free + [v] <==> m in q.free || m == v
    requires forall p :: p in nand && p.blk == v ==> nand[p] == FREE
    ensures StatusOk(visit, nand, q.(free := q.free + [v]), -1, u, k)
  {
    forall p | p in nand && p in visit ensures PageStatusOk(q.(free := q.free + [v]), p, nand[p], visit[p], u, k) {
      if p.blk != v { assert PageStatusOk(q, p, nand[p], visit[p], u, k); }
    }
  }

  lemma FreeLineFill(perLine: nat, vpc: seq<int>, ipc: seq<int>, q: Lists, v: nat, u: nat, k: nat)
    requires FillOk(perLine, vpc, ipc, q, u, k) && v < |vpc|
    requires v !in q.full && v !in q.victims && v != q.user && v != q.gc
    ensures FillOk(perLine, vpc[v := 0], ipc[v := 0], q.(free := q.free + [v]), u, k)
  {
    var vpc', ipc' := vpc[v := 0], ipc[v := 0];
    forall l | 0 <= l < |vpc| ensures LineFillOk(perLine, q.(free := q.free + [v]), l, vpc'[l], ipc'[l], u, k) {
      assert LineFillOk(perLine, q, l, vpc[l], ipc[l], u, k);
    }
  }

  lemma FreeLineMaps(maptbl: seq<Option<Ppa>>, rev: map<Ppa, Option<nat>>, nand: Nand, v: nat)
    requires RevOk(maptbl, rev, nand, v)
    requires forall p :: p in nand && p.blk == v ==> nand[p] == FREE
    ensures RevOk(maptbl, rev, nand, -1)
  {
  }

  lemma FreeLineCore(y: Layout, s: Ftl, v: nat, u: nat, k: nat)
    requires Core(y, s, v, -1, u, k) && v < y.lines
    requires forall p :: p in s.nand && p.blk == v ==> s.nand[p] == FREE
    ensures Core(y, FreeLine(s, v), -1, -1, u, k)
  {
    hide MapOk, RevOk, CountsOk, BlkCountsOk, LinesOk, StatusOk, FillOk;
    var q := ListsOf(s);
    FreeLineLines(y.lines, q, v);
    FreeLineCounts(s.nand, s.vpc, s.ipc, v);
    FreeLineStatus(y.visit, s.nand, q, v, u, k);
    FreeLineFill(y.perLine, s.vpc, s.ipc, q, v, u, k);
    FreeLineMaps(s.maptbl, s.rev, s.nand, v);
    assert ListsOf(FreeLine(s, v)) == q.(free := q.free + [v]);
  }

  /** mark_line_free ends the collection: the invariant holds with no line dangling, the
      contents are what they were, and the room grew by the victim's invalid pages. */
  lemma FinishCollection(y: Layout, s0: Ftl, s: Ftl, v: nat, done: set<Ppa>, capacity: nat, u: nat, k0: nat, k: nat)
    requires Collecting(y, s0, s, v, done, capacity, u, k0, k)
    requires forall p :: p in s.nand && p.blk == v ==> s.nand[p] == FREE
    requires done == LineSet(s0.nand, v, VALID)
    ensures v < |s.vpc| && v < |s.ipc|
    ensures var s' := FreeLine(s, v);
            && Core(y, s', -1, -1, u, k) && PointerAt(y, s', UserIo, u) && PointerAt(y, s', GcIo, k)
            && InCapacity(s'.maptbl, capacity) && |s'.maptbl| == |s0.maptbl|
            && Contents(s') == Contents(s0)
            && Room(y, s', u, k) == Room(y, s0, u, k0) + y.perLine - |done|
            && s'.credits == s0.credits && s'.refill == s0.refill
  {
    hide Core, Contents, LineSet, LayoutOk;
    FreeLineCore(y, s, v, u, k);
    assert Contents(FreeLine(s, v)) == Contents(s) by { FreeLineContents(s, v); }
    assert (|s.free| + 1) * y.perLine == |s.free| * y.perLine + y.perLine;
  }

  lemma FreeLineContents(s: Ftl, v: nat)
    requires v < |s.vpc| && v < |s.ipc|
    ensures Contents(FreeLine(s, v)) == Contents(s)
  {
    assert forall l :: ContentAt(FreeLine(s, v), l) == ContentAt(s, l);
  }

  // ---- credits ----

  /** Without a collection (more than two free lines) a refill leaves the reserve intact. */
  lemma RefillKeepsReserve(y: Layout, s: Ftl, u: nat, k: nat)
    requires |s.free| > 2 && u < y.perLine && k < y.perLine && 1 <= s.refill <= y.perLine && s.credits == 0
    ensures CreditOk(y, s.(credits := s.credits + s.refill), u, k)
  {
    Radix.MulMono(3, |s.free|, y.perLine);
  }
}

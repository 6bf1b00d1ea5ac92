/** Each elementary step keeps the invariant. */
module FtlSteps {
  import opened Collections
  import opened Wrappers
  import opened Geometry
  import opened FtlState

  // ---- counting pages ----

  lemma LineSetUpdate(nand: Nand, p: Ppa, st: PageStatus, l: nat, t: PageStatus)
    requires p in nand && nand[p] != st
    ensures |LineSet(nand[p := st], l, t)|
         == |LineSet(nand, l, t)| + One(p.blk == l && t == st) - One(p.blk == l && t == nand[p])
  {
    var a, b := LineSet(nand, l, t), LineSet(nand[p := st], l, t);
    if p.blk == l && t == st {
      assert b == a + {p};
    } else if p.blk == l && t == nand[p] {
      assert b == a - {p};
    } else {
      assert b == a;
    }
  }

  lemma BlkSetUpdate(nand: Nand, p: Ppa, st: PageStatus, b: Blk, t: PageStatus)
    requires p in nand && nand[p] != st
    ensures |BlkSet(nand[p := st], b, t)|
         == |BlkSet(nand, b, t)| + One(BlkOf(p) == b && t == st) - One(BlkOf(p) == b && t == nand[p])
  {
    var c, d := BlkSet(nand, b, t), BlkSet(nand[p := st], b, t);
    if BlkOf(p) == b && t == st {
      assert d == c + {p};
    } else if BlkOf(p) == b && t == nand[p] {
      assert d == c - {p};
    } else {
      assert d == c;
    }
  }

  /** Changing one page's state moves one count in its line and in its block. */
  lemma CountsUpdate(nand: Nand, vpc: seq<int>, ipc: seq<int>, x: int, p: Ppa, st: PageStatus, vpc': seq<int>,
                     ipc': seq<int>)
    requires CountsOk(nand, vpc, ipc, x) && p in nand && nand[p] != st && p.blk < |vpc|
    requires |vpc'| == |vpc| && |ipc'| == |ipc|
    requires vpc' == vpc[p.blk := vpc[p.blk] + One(st == VALID) - One(nand[p] == VALID)]
    requires ipc' == ipc[p.blk := ipc[p.blk] + One(st == INVALID) - One(nand[p] == INVALID)]
    ensures CountsOk(nand[p := st], vpc', ipc', x)
  {
    forall l | 0 <= l < |vpc| && l != x
      ensures vpc'[l] == |LineSet(nand[p := st], l, VALID)| && ipc'[l] == |LineSet(nand[p := st], l, INVALID)|
    {
      LineSetUpdate(nand, p, st, l, VALID);
      LineSetUpdate(nand, p, st, l, INVALID);
    }
  }

  lemma BlkCountsUpdate(nand: Nand, bvpc: map<Blk, int>, bipc: map<Blk, int>, p: Ppa, st: PageStatus,
                        bvpc': map<Blk, int>, bipc': map<Blk, int>)
    requires BlkCountsOk(nand, bvpc, bipc) && p in nand && nand[p] != st && BlkOf(p) in bvpc && BlkOf(p) in bipc
    requires bvpc' == bvpc[BlkOf(p) := bvpc[BlkOf(p)] + One(st == VALID) - One(nand[p] == VALID)]
    requires bipc' == bipc[BlkOf(p) := bipc[BlkOf(p)] + One(st == INVALID) - One(nand[p] == INVALID)]
    ensures BlkCountsOk(nand[p := st], bvpc', bipc')
  {
    forall b | b in bvpc' && b in bipc'
      ensures bvpc'[b] == |BlkSet(nand[p := st], b, VALID)| && bipc'[b] == |BlkSet(nand[p := st], b, INVALID)|
    {
      BlkSetUpdate(nand, p, st, b, VALID);
      BlkSetUpdate(nand, p, st, b, INVALID);
    }
  }

  lemma CountPositive(nand: Nand, vpc: seq<int>, ipc: seq<int>, x: int, p: Ppa)
    requires CountsOk(nand, vpc, ipc, x) && p in nand && p.blk < |vpc| && p.blk != x
    ensures nand[p] == VALID ==> vpc[p.blk] >= 1
    ensures nand[p] == INVALID ==> ipc[p.blk] >= 1
    ensures vpc[p.blk] >= 0 && ipc[p.blk] >= 0
  {
    assert nand[p] == VALID ==> p in LineSet(nand, p.blk, VALID);
    assert nand[p] == INVALID ==> p in LineSet(nand, p.blk, INVALID);
  }

  // ---- mark_page_invalid ----

  lemma {:induction false} RemoveMembers(a: seq<nat>, l: nat)
    requires NoDup(a)
    ensures NoDup(Remove(a, l))
    ensures forall m :: m in Remove(a, l) <==> m in a && m != l
    ensures |Remove(a, l)| == |a| - One(l in a)
  {
    if a != [] {
      var t := a[1..];
      assert NoDup(t) && a[0] !in t by { assert forall i :: 0 <= i < |t| ==> t[i] == a[i + 1]; }
      assert forall m :: m in a <==> m == a[0] || m in t;
      RemoveMembers(t, l);
      if a[0] != l {
        var r := Remove(t, l);
        assert forall i :: 1 <= i < |[a[0]] + r| ==> ([a[0]] + r)[i] == r[i - 1] && r[i - 1] in r;
        assert forall m :: m in [a[0]] + r <==> m == a[0] || m in r;
      }
    }
  }

  /** Where the line of a valid page is: with every page valid it is on the full list;
      otherwise it is a victim already, or still open. */
  lemma LineOfValidPage(y: Layout, s: Ftl, u: nat, k: nat, p: Ppa)
    requires LayoutOk(y) && Core(y, s, -1, -1, u, k) && u < y.perLine && k < y.perLine
    requires p in s.nand && s.nand[p] == VALID
    ensures p.blk < y.lines
    ensures 1 <= s.vpc[p.blk] <= y.perLine && 0 <= s.ipc[p.blk] && s.vpc[p.blk] + s.ipc[p.blk] <= y.perLine
    ensures s.vpc[p.blk] == y.perLine <==> p.blk in s.full
    ensures p.blk in s.full || p.blk in s.victims || p.blk == s.wp.curline || p.blk == s.gc.curline
  {
    CountPositive(s.nand, s.vpc, s.ipc, -1, p);
    assert Places(ListsOf(s), p.blk) == 1;
    assert PageStatusOk(ListsOf(s), p, s.nand[p], y.visit[p], u, k);
    assert LineFillOk(y.perLine, ListsOf(s), p.blk, s.vpc[p.blk], s.ipc[p.blk], u, k);
  }

  function AfterInvalid(q: Lists, l: nat, wasFull: bool): Lists {
    if wasFull then q.(full := Remove(q.full, l), victims := q.victims + {l}) else q
  }

  lemma InvalidateLines(n: nat, q: Lists, l: nat)
    requires LinesOk(n, q, -1) && l < n && l in q.full
    ensures LinesOk(n, AfterInvalid(q, l, true), -1)
    ensures forall m :: m in AfterInvalid(q, l, true).full <==> m in q.full && m != l
  {
    RemoveMembers(q.full, l);
    var q' := AfterInvalid(q, l, true);
    forall m | 0 <= m < n ensures Places(q', m) == One(m != -1) {
      assert Places(q, m) == 1 && Places(q, l) == 1;
    }
  }

  lemma InvalidateStatus(visit: map<Ppa, nat>, nand: Nand, q: Lists, q': Lists, u: nat, k: nat, p: Ppa, wasFull: bool)
    requires StatusOk(visit, nand, q, -1, u, k) && p in nand && nand[p] == VALID
    requires q'.free == q.free && q'.user == q.user && q'.gc == q.gc
    requires forall m :: m in q'.full || m in q'.victims <==> m in q.full || m in q.victims
    ensures StatusOk(visit, nand[p := INVALID], q', -1, u, k)
  {
    forall r | r in nand && r in visit ensures PageStatusOk(q', r, nand[p := INVALID][r], visit[r], u, k) {
      assert PageStatusOk(q, r, nand[r], visit[r], u, k);
    }
  }

  lemma InvalidateFill(perLine: nat, vpc: seq<int>, ipc: seq<int>, q: Lists, q': Lists, u: nat, k: nat, l: nat)
    requires FillOk(perLine, vpc, ipc, q, u, k) && l < |vpc|
    requires q'.user == q.user && q'.gc == q.gc
    requires forall m :: m in q'.full <==> m in q.full && m != l
    requires forall m :: m in q'.victims <==> m in q.victims || (m == l && l in q.full)
    ensures FillOk(perLine, vpc[l := vpc[l] - 1], ipc[l := ipc[l] + 1], q', u, k)
  {
    var vpc', ipc' := vpc[l := vpc[l] - 1], ipc[l := ipc[l] + 1];
    forall m | 0 <= m < |vpc| ensures LineFillOk(perLine, q', m, vpc'[m], ipc'[m], u, k) {
      assert LineFillOk(perLine, q, m, vpc[m], ipc[m], u, k);
    }
  }

  lemma InvalidateMaps(maptbl: seq<Option<Ppa>>, rev: map<Ppa, Option<nat>>, nand: Nand, lpn: nat, p: Ppa)
    requires MapOk(maptbl, rev, nand, -1) && RevOk(maptbl, rev, nand, -1)
    requires lpn < |maptbl| && maptbl[lpn] == Some(p)
    ensures p in nand && nand[p] == VALID
    ensures MapOk(maptbl, rev[p := None], nand[p := INVALID], lpn)
    ensures RevOk(maptbl, rev[p := None], nand[p := INVALID], -1)
  {
    assert rev[p] == Some(lpn);
  }

  lemma InvalidTables(y: Layout, s: Ftl, lpn: nat, p: Ppa)
    requires MapOk(s.maptbl, s.rev, s.nand, -1) && RevOk(s.maptbl, s.rev, s.nand, -1)
    requires CountsOk(s.nand, s.vpc, s.ipc, -1) && BlkCountsOk(s.nand, s.bvpc, s.bipc)
    requires lpn < |s.maptbl| && s.maptbl[lpn] == Some(p) && |s.vpc| == |s.ipc|
    requires p in s.nand && BlkOf(p) in s.bvpc && BlkOf(p) in s.bipc && p.blk < |s.vpc|
    ensures var s' := MarkInvalid(y, s, p);
            && MapOk(s'.maptbl, s.rev[p := None], s'.nand, lpn) && RevOk(s'.maptbl, s.rev[p := None], s'.nand, -1)
            && CountsOk(s'.nand, s'.vpc, s'.ipc, -1) && BlkCountsOk(s'.nand, s'.bvpc, s'.bipc)
  {
    hide MapOk, RevOk, CountsOk, BlkCountsOk, MarkInvalid;
    InvalidParts(y, s, p);
    var s' := MarkInvalid(y, s, p);
    InvalidateMaps(s.maptbl, s.rev, s.nand, lpn, p);
    CountsUpdate(s.nand, s.vpc, s.ipc, -1, p, INVALID, s'.vpc, s'.ipc);
    BlkCountsUpdate(s.nand, s.bvpc, s.bipc, p, INVALID, s'.bvpc, s'.bipc);
  }

  lemma InvalidLists(y: Layout, s: Ftl, u: nat, k: nat, p: Ppa)
    requires LinesOk(y.lines, ListsOf(s), -1) && StatusOk(y.visit, s.nand, ListsOf(s), -1, u, k)
    requires FillOk(y.perLine, s.vpc, s.ipc, ListsOf(s), u, k) && |s.vpc| == |s.ipc| == y.lines
    requires p in s.nand && s.nand[p] == VALID && BlkOf(p) in s.bvpc && BlkOf(p) in s.bipc && p.blk < y.lines
    requires s.vpc[p.blk] == y.perLine <==> p.blk in s.full
    ensures var s', q' := MarkInvalid(y, s, p), ListsOf(MarkInvalid(y, s, p));
            LinesOk(y.lines, q', -1) && StatusOk(y.visit, s'.nand, q', -1, u, k)
                && FillOk(y.perLine, s'.vpc, s'.ipc, q', u, k)
  {
    hide LinesOk, StatusOk, FillOk, MarkInvalid;
    InvalidParts(y, s, p);
    var q, wasFull := ListsOf(s), s.vpc[p.blk] == y.perLine;
    var q' := AfterInvalid(q, p.blk, wasFull);
    if wasFull { InvalidateLines(y.lines, q, p.blk); }
    InvalidateStatus(y.visit, s.nand, q, q', u, k, p, wasFull);
    InvalidateFill(y.perLine, s.vpc, s.ipc, q, q', u, k, p.blk);
  }

  /** Overwriting: the old page of lpn becomes invalid and loses its reverse entry. */
  lemma InvalidateKeeps(y: Layout, s: Ftl, u: nat, k: nat, lpn: nat, p: Ppa)
    requires LayoutOk(y) && Core(y, s, -1, -1, u, k) && u < y.perLine && k < y.perLine
    requires lpn < |s.maptbl| && s.maptbl[lpn] == Some(p)
    ensures p in s.nand && p in s.rev && s.nand[p] == VALID && p.blk < y.lines
    ensures Core(y, MarkInvalid(y, s, p).(rev := s.rev[p := None]), -1, lpn, u, k)
  {
    hide MapOk, RevOk, CountsOk, BlkCountsOk, LinesOk, StatusOk, FillOk, MarkInvalid, LayoutOk;
    InvalidateMaps(s.maptbl, s.rev, s.nand, lpn, p);
    LineOfValidPage(y, s, u, k, p);
    InvalidTables(y, s, lpn, p);
    InvalidLists(y, s, u, k, p);
    InvalidParts(y, s, p);
  }

  /** What an invalidation changes, part by part. */
  lemma InvalidParts(y: Layout, s: Ftl, p: Ppa)
    requires p in s.nand && BlkOf(p) in s.bvpc && BlkOf(p) in s.bipc && p.blk < |s.vpc| && p.blk < |s.ipc|
    ensures var s', l, b := MarkInvalid(y, s, p), p.blk, BlkOf(p);
            && s'.maptbl == s.maptbl && s'.rev == s.rev && s'.nand == s.nand[p := INVALID] && s'.pay == s.pay
            && s'.bvpc == s.bvpc[b := s.bvpc[b] - 1] && s'.bipc == s.bipc[b := s.bipc[b] + 1]
            && s'.vpc == s.vpc[l := s.vpc[l] - 1] && s'.ipc == s.ipc[l := s.ipc[l] + 1]
            && ListsOf(s') == AfterInvalid(ListsOf(s), l, s.vpc[l] == y.perLine)
    ensures var q, q', l := ListsOf(s), ListsOf(MarkInvalid(y, s, p)), p.blk;
            && q'.free == q.free && q'.user == q.user && q'.gc == q.gc && (s.vpc[l] != y.perLine ==> q' == q)
            && (s.vpc[l] == y.perLine ==> q'.victims == q.victims + {l})
  {
  }

  // ---- programming a page ----

  lemma ProgramMaps(maptbl: seq<Option<Ppa>>, rev: map<Ppa, Option<nat>>, nand: Nand, x: int, hole: int, lpn: nat,
                    p: Ppa)
    requires MapOk(maptbl, rev, nand, hole) && RevOk(maptbl, rev, nand, x)
    requires lpn < |maptbl| && p in nand && nand[p] == FREE
    requires hole == -1 || hole == lpn
    requires maptbl[lpn].Some? && maptbl[lpn].value in nand && nand[maptbl[lpn].value] == VALID
             ==> maptbl[lpn].value.blk == x
    ensures MapOk(maptbl[lpn := Some(p)], rev[p := Some(lpn)], nand[p := VALID], -1)
    ensures RevOk(maptbl[lpn := Some(p)], rev[p := Some(lpn)], nand[p := VALID], x)
  {
  }

  ghost predicate CanProgram(y: Layout, s: Ftl, x: int, hole: int, u: nat, k: nat, io: IoType, lpn: nat) {
    && LayoutOk(y) && Core(y, s, x, hole, u, k) && lpn < |s.maptbl|
    && (hole == -1 || hole == lpn)
    && (s.maptbl[lpn].Some? && s.maptbl[lpn].value in s.nand && s.nand[s.maptbl[lpn].value] == VALID
        ==> s.maptbl[lpn].value.blk == x)
    && PointerAt(y, s, io, if io.UserIo? then u else k)
  }

  /** get_new_page always returns a free page, outside the line being collected. */
  lemma NewPageIsFree(y: Layout, s: Ftl, x: int, hole: int, u: nat, k: nat, io: IoType)
    requires LayoutOk(y) && Core(y, s, x, hole, u, k) && PointerAt(y, s, io, if io.UserIo? then u else k)
    ensures var p := PageAt(Pointer(s, io));
            && p in s.nand && s.nand[p] == FREE && p.blk != x && p.blk < y.lines && p in s.rev
            && BlkOf(p) in s.bvpc && BlkOf(p) in s.bipc && 0 <= s.vpc[p.blk] < y.perLine
  {
    var p := PageAt(Pointer(s, io));
    assert Places(ListsOf(s), p.blk) == One(p.blk != x);
    assert PageStatusOk(ListsOf(s), p, s.nand[p], y.visit[p], u, k);
    CountPositive(s.nand, s.vpc, s.ipc, x, p);
    assert LineFillOk(y.perLine, ListsOf(s), p.blk, s.vpc[p.blk], s.ipc[p.blk], u, k);
  }

  lemma ProgramStatus(y: Layout, nand: Nand, q: Lists, x: int, u: nat, k: nat, io: IoType, p: Ppa)
    requires LayoutOk(y) && StatusOk(y.visit, nand, q, x, u, k) && nand.Keys == y.visit.Keys
    requires LinesOk(y.lines, q, x) && p in nand && p.blk == (if io.UserIo? then q.user else q.gc)
    requires y.visit[p] == if io.UserIo? then u else k
    ensures StatusOk(y.visit, nand[p := VALID], q, x, if io.UserIo? then u + 1 else u, if io.UserIo? then k else k + 1)
  {
    var u', k' := if io.UserIo? then u + 1 else u, if io.UserIo? then k else k + 1;
    assert Places(q, p.blk) == One(p.blk != x);
    forall r | r in nand && r in y.visit && r.blk != x
      ensures PageStatusOk(q, r, nand[p := VALID][r], y.visit[r], u', k')
    {
      assert PageStatusOk(q, r, nand[r], y.visit[r], u, k);
      assert r.blk == p.blk && y.visit[r] == y.visit[p] ==> r == p;
    }
  }

  lemma ProgramFill(n: nat, perLine: nat, vpc: seq<int>, ipc: seq<int>, q: Lists, x: int, u: nat, k: nat, io: IoType,
                    l: nat)
    requires LinesOk(n, q, x) && FillOk(perLine, vpc, ipc, q, u, k) && |vpc| == n
    requires l == (if io.UserIo? then q.user else q.gc) && (if io.UserIo? then u else k) < perLine
    ensures FillOk(perLine, vpc[l := vpc[l] + 1], ipc, q, if io.UserIo? then u + 1 else u, if io.UserIo? then k
                   else k + 1)
  {
    var u', k' := if io.UserIo? then u + 1 else u, if io.UserIo? then k else k + 1;
    assert Places(q, l) == One(l != x);
    forall m | 0 <= m < |vpc| ensures LineFillOk(perLine, q, m, vpc[l := vpc[l] + 1][m], ipc[m], u', k') {
      assert LineFillOk(perLine, q, m, vpc[m], ipc[m], u, k);
    }
  }

  lemma ProgramKeeps(y: Layout, s: Ftl, x: int, hole: int, u: nat, k: nat, io: IoType, lpn: nat, data: int)
    requires CanProgram(y, s, x, hole, u, k, io, lpn)
    ensures var p := PageAt(Pointer(s, io));
            && p in s.nand && p in s.rev && BlkOf(p) in s.bvpc && p.blk < |s.vpc| && s.nand[p] == FREE
            && Core(y, Program(s, lpn, p, data), x, -1,
                    if io.UserIo? then u + 1 else u, if io.UserIo? then k else k + 1)
  {
    hide MapOk, RevOk, CountsOk, BlkCountsOk, LinesOk, StatusOk, FillOk;
    var p := PageAt(Pointer(s, io));
    NewPageIsFree(y, s, x, hole, u, k, io);
    var s' := Program(s, lpn, p, data);
    var q := ListsOf(s);
    CountsUpdate(s.nand, s.vpc, s.ipc, x, p, VALID, s'.vpc, s'.ipc);
    BlkCountsUpdate(s.nand, s.bvpc, s.bipc, p, VALID, s'.bvpc, s'.bipc);
    ProgramMaps(s.maptbl, s.rev, s.nand, x, hole, lpn, p);
    ProgramStatus(y, s.nand, q, x, u, k, io, p);
    ProgramFill(y.lines, y.perLine, s.vpc, s.ipc, q, x, u, k, io, p.blk);
    assert ListsOf(s') == q;
  }

  /** Programming changes the contents of exactly one logical page. */
  lemma ProgramContents(y: Layout, s: Ftl, x: int, hole: int, u: nat, k: nat, io: IoType, lpn: nat, data: int)
    requires CanProgram(y, s, x, hole, u, k, io, lpn)
    ensures var p := PageAt(Pointer(s, io));
            && p in s.nand && BlkOf(p) in s.bvpc && p.blk < |s.vpc|
            && Contents(Program(s, lpn, p, data)) == Contents(s)[lpn := data]
  {
    hide Core, Contents;
    var p := PageAt(Pointer(s, io));
    NewPageIsFree(y, s, x, hole, u, k, io);
    MappedElsewhere(y, s, x, hole, u, k, lpn, p);
    ContentsSet(s, Program(s, lpn, p, data), lpn, p, data);
  }

  lemma MappedElsewhere(y: Layout, s: Ftl, x: int, hole: int, u: nat, k: nat, lpn: nat, p: Ppa)
    requires Core(y, s, x, hole, u, k) && (hole == -1 || hole == lpn) && p in s.nand && s.nand[p] == FREE
    ensures |s.vpc| == y.lines && forall l :: 0 <= l < |s.maptbl| && l != lpn ==> s.maptbl[l] != Some(p)
  {
    forall l | 0 <= l < |s.maptbl| && l != lpn ensures s.maptbl[l] != Some(p) {
      if s.maptbl[l].Some? { assert s.nand[s.maptbl[l].value] == VALID; }
    }
  }

  lemma ContentsSet(s: Ftl, s': Ftl, lpn: nat, p: Ppa, data: int)
    requires lpn < |s.maptbl| && s'.maptbl == s.maptbl[lpn := Some(p)] && s'.pay == s.pay[p := data]
    requires forall l :: 0 <= l < |s.maptbl| && l != lpn ==> s.maptbl[l] != Some(p)
    ensures Contents(s') == Contents(s)[lpn := data]
  {
    forall l | 0 <= l < |s.maptbl| && l != lpn ensures ContentAt(s', l) == ContentAt(s, l) {
    }
    assert ContentAt(s', lpn) == Some(data);
  }

  // ---- advance_write_pointer ----

  /** What the coordinate step provides: the following visit position, or the end of the line
      and position zero of whichever line is opened next. */
  ghost predicate StepOk(y: Layout, s: Ftl, io: IoType, n: Coord, closed: bool, done: nat) {
    if closed then
      && done == y.perLine && s.free != []
      && PointerAt(y, WithPointer(s, io, WritePointer(s.free[0], n)), io, 0)
    else
      PointerAt(y, WithPointer(s, io, WritePointer(Pointer(s, io).curline, n)), io, done)
  }

  lemma EmptyLine(visit: map<Ppa, nat>, nand: Nand, q: Lists, vpc: seq<int>, ipc: seq<int>, x: int, u: nat, k: nat,
                  l: nat)
    requires nand.Keys == visit.Keys && CountsOk(nand, vpc, ipc, x) && StatusOk(visit, nand, q, x, u, k)
    requires l in q.free && l < |vpc| && l != x
    ensures vpc[l] == 0 && ipc[l] == 0
  {
    forall p | p in nand && p.blk == l ensures nand[p] == FREE {
      assert PageStatusOk(q, p, nand[p], visit[p], u, k);
    }
    assert LineSet(nand, l, VALID) == {};
    assert LineSet(nand, l, INVALID) == {};
  }

  /** The lists after the open line of io closes and the first free line takes its place. */
  function AfterClose(q: Lists, io: IoType, isFull: bool): Lists
    requires q.free != []
  {
    var w := if io.UserIo? then q.user else q.gc;
    var q1 := if isFull then q.(full := q.full + [w]) else q.(victims := q.victims + {w});
    var q2 := q1.(free := q.free[1..]);
    if io.UserIo? then q2.(user := q.free[0]) else q2.(gc := q.free[0])
  }

  lemma CloseMembers(n: nat, q: Lists, x: int, io: IoType, isFull: bool)
    requires LinesOk(n, q, x) && q.free != []
    ensures var q' := AfterClose(q, io, isFull);
            var w := if io.UserIo? then q.user else q.gc;
            && (forall m :: m in q'.free <==> m in q.free && m != q.free[0])
            && (forall m :: m in q'.full <==> m in q.full || (isFull && m == w))
            && (forall m :: m in q'.victims <==> m in q.victims || (!isFull && m == w))
            && w !in q.full && w !in q.free && w != x && w < n && q.free[0] < n && q.free[0] != x
            && NoDup(q'.free) && NoDup(q'.full)
  {
    var w, f := if io.UserIo? then q.user else q.gc, q.free[0];
    assert Places(q, w) == One(w != x) && Places(q, f) == One(f != x);
    assert f in q.free;
    assert forall m :: m in q.free <==> m == f || m in q.free[1..];
    assert forall i :: 0 <= i < |q.free[1..]| ==> q.free[1..][i] == q.free[i + 1];
  }

  lemma CloseLines(n: nat, q: Lists, x: int, io: IoType, isFull: bool)
    requires LinesOk(n, q, x) && q.free != []
    ensures LinesOk(n, AfterClose(q, io, isFull), x)
  {
    CloseMembers(n, q, x, io, isFull);
    var w, f := if io.UserIo? then q.user else q.gc, q.free[0];
    forall l | 0 <= l < n ensures Places(AfterClose(q, io, isFull), l) == One(l != x) {
      assert Places(q, l) == One(l != x) && Places(q, w) == 1 && Places(q, f) == 1;
    }
  }

  lemma CloseStatus(y: Layout, nand: Nand, q: Lists, x: int, u: nat, k: nat, io: IoType, isFull: bool)
    requires LayoutOk(y) && nand.Keys == y.visit.Keys && LinesOk(y.lines, q, x) && StatusOk(y.visit, nand, q, x, u, k)
    requires q.free != [] && (if io.UserIo? then u else k) == y.perLine
    ensures StatusOk(y.visit, nand, AfterClose(q, io, isFull), x, if io.UserIo? then 0 else u, if io.UserIo? then k
                     else 0)
  {
    CloseMembers(y.lines, q, x, io, isFull);
    var u', k' := if io.UserIo? then 0 else u, if io.UserIo? then k else 0;
    var w, f := if io.UserIo? then q.user else q.gc, q.free[0];
    forall p | p in nand && p in y.visit && p.blk != x
      ensures PageStatusOk(AfterClose(q, io, isFull), p, nand[p], y.visit[p], u', k')
    {
      assert PageStatusOk(q, p, nand[p], y.visit[p], u, k);
      assert Places(q, p.blk) == 1 && Places(q, w) == 1 && Places(q, f) == 1;
    }
  }

  lemma CloseFill(n: nat, perLine: nat, vpc: seq<int>, ipc: seq<int>, q: Lists, x: int, u: nat, k: nat, io: IoType)
    requires LinesOk(n, q, x) && FillOk(perLine, vpc, ipc, q, u, k) && |vpc| == n && q.free != []
    requires (if io.UserIo? then u else k) == perLine
    requires var w := if io.UserIo? then q.user else q.gc; vpc[w] >= 0 && ipc[w] >= 0
    requires q.free[0] < n && vpc[q.free[0]] == 0 && ipc[q.free[0]] == 0
    ensures var w := if io.UserIo? then q.user else q.gc;
            FillOk(perLine, vpc, ipc, AfterClose(q, io, vpc[w] == perLine), if io.UserIo? then 0 else u,
                   if io.UserIo? then k else 0)
  {
    var u', k' := if io.UserIo? then 0 else u, if io.UserIo? then k else 0;
    var w, f := if io.UserIo? then q.user else q.gc, q.free[0];
    var isFull := vpc[w] == perLine;
    CloseMembers(n, q, x, io, isFull);
    assert LineFillOk(perLine, q, w, vpc[w], ipc[w], u, k);
    forall m | 0 <= m < n ensures LineFillOk(perLine, AfterClose(q, io, isFull), m, vpc[m], ipc[m], u', k') {
      assert LineFillOk(perLine, q, m, vpc[m], ipc[m], u, k);
      assert Places(q, m) == One(m != x) && Places(q, w) == 1 && Places(q, f) == 1;
    }
  }

  /** The line being closed satisfies what the source asserts of it: with every page valid it
      has no invalid page, and otherwise at least one. */
  lemma ClosedLineCounts(y: Layout, s: Ftl, x: int, u: nat, k: nat, io: IoType)
    requires LayoutOk(y) && Core(y, s, x, -1, u, k) && (if io.UserIo? then u else k) == y.perLine
    ensures var w := Pointer(s, io).curline;
            && w < y.lines && w != x && w !in s.victims && 0 <= s.vpc[w] <= y.perLine && 0 <= s.ipc[w]
            && (s.vpc[w] == y.perLine <==> s.ipc[w] == 0)
  {
    var w := Pointer(s, io).curline;
    assert Places(ListsOf(s), w) == One(w != x);
    assert s.vpc[w] == |LineSet(s.nand, w, VALID)| && s.ipc[w] == |LineSet(s.nand, w, INVALID)|;
    assert LineFillOk(y.perLine, ListsOf(s), w, s.vpc[w], s.ipc[w], u, k);
  }

  /** Advancing changes nothing but the lists and a write pointer. */
  lemma AdvanceParts(y: Layout, s: Ftl, io: IoType, n: Coord, closed: bool)
    requires closed ==> s.free != [] && Pointer(s, io).curline < |s.vpc|
    ensures var s' := Advance(y, s, io, n, closed);
            && s'.maptbl == s.maptbl && s'.rev == s.rev && s'.nand == s.nand && s'.pay == s.pay
            && s'.vpc == s.vpc && s'.ipc == s.ipc && s'.bvpc == s.bvpc && s'.bipc == s.bipc
            && s'.credits == s.credits && s'.refill == s.refill && (io.GcIo? ==> s'.wp == s.wp)
  {
    var w := Pointer(s, io);
    if closed {
      var f := WritePointer(s.free[0], n);
      if s.vpc[w.curline] == y.perLine {
        assert Advance(y, s, io, n, closed)
            == WithPointer(s.(full := s.full + [w.curline]).(free := s.free[1..]), io, f);
      } else {
        assert Advance(y, s, io, n,
                       closed) == WithPointer(s.(victims := s.victims + {w.curline}).(free := s.free[1..]), io, f);
      }
    } else {
      assert Advance(y, s, io, n, closed) == WithPointer(s, io, WritePointer(w.curline, n));
    }
  }

  lemma AdvanceLists(y: Layout, s: Ftl, io: IoType, n: Coord)
    requires s.free != [] && Pointer(s, io).curline < |s.vpc|
    ensures ListsOf(Advance(y, s, io, n, true))
         == AfterClose(ListsOf(s), io, s.vpc[Pointer(s, io).curline] == y.perLine)
  {
  }

  lemma CloseKeeps(y: Layout, s: Ftl, x: int, u: nat, k: nat, io: IoType, n: Coord)
    requires LayoutOk(y) && Core(y, s, x, -1, u, k)
    requires (if io.UserIo? then u else k) == y.perLine && s.free != [] && Pointer(s, io).curline < |s.vpc|
    ensures Core(y, Advance(y, s, io, n, true), x, -1, if io.UserIo? then 0 else u, if io.UserIo? then k else 0)
  {
    hide MapOk, RevOk, CountsOk, BlkCountsOk, LinesOk, StatusOk, FillOk, Advance, AfterClose;
    ClosedLineCounts(y, s, x, u, k, io);
    var q, w := ListsOf(s), Pointer(s, io).curline;
    CloseMembers(y.lines, q, x, io, s.vpc[w] == y.perLine);
    EmptyLine(y.visit, s.nand, q, s.vpc, s.ipc, x, u, k, s.free[0]);
    CloseLines(y.lines, q, x, io, s.vpc[w] == y.perLine);
    CloseStatus(y, s.nand, q, x, u, k, io, s.vpc[w] == y.perLine);
    CloseFill(y.lines, y.perLine, s.vpc, s.ipc, q, x, u, k, io);
    AdvanceParts(y, s, io, n, true);
    AdvanceLists(y, s, io, n);
  }

  lemma OpenKeeps(y: Layout, s: Ftl, s': Ftl, x: int, u: nat, k: nat)
    requires Core(y, s, x, -1, u, k)
    requires s' == s.(wp := s'.wp, gc := s'.gc) && s'.wp.curline == s.wp.curline && s'.gc.curline == s.gc.curline
    ensures Core(y, s', x, -1, u, k)
  {
    hide MapOk, RevOk, CountsOk, BlkCountsOk, LinesOk, StatusOk, FillOk;
    assert ListsOf(s') == ListsOf(s);
  }

  lemma AdvanceRoom(y: Layout, s: Ftl, u: nat, k: nat, io: IoType, n: Coord, closed: bool)
    requires closed ==> s.free != [] && Pointer(s, io).curline < |s.vpc| && (if io.UserIo? then u else k) == y.perLine
    ensures Room(y, Advance(y, s, io, n, closed), if closed && io.UserIo? then 0 else u, if closed
                 && io.GcIo? then 0 else k)
         == Room(y, s, u, k)
  {
    assert (|s.free| - 1) * y.perLine + y.perLine == |s.free| * y.perLine;
  }

  /** Advancing keeps the invariant and the room: a closed line is replaced by a free one. */
  lemma AdvanceKeeps(y: Layout, s: Ftl, x: int, u: nat, k: nat, io: IoType, n: Coord, closed: bool)
    requires LayoutOk(y) && Core(y, s, x, -1, u, k)
    requires StepOk(y, s, io, n, closed, if io.UserIo? then u else k)
    ensures Pointer(s, io).curline < |s.vpc|
    ensures var s' := Advance(y, s, io, n, closed);
            var u', k' := if closed && io.UserIo? then 0 else u, if closed && io.GcIo? then 0 else k;
            && Core(y, s', x, -1, u', k') && Room(y, s', u', k') == Room(y, s, u, k)
            && PointerAt(y, s', io, if io.UserIo? then u' else k')
  {
    assert Pointer(s, io).curline < |s.vpc|;
    hide Core, Room;
    AdvanceRoom(y, s, u, k, io, n, closed);
    if closed {
      CloseKeeps(y, s, x, u, k, io, n);
    } else {
      OpenKeeps(y, s, Advance(y, s, io, n, closed), x, u, k);
    }
  }

  lemma AdvanceContents(y: Layout, s: Ftl, io: IoType, n: Coord, closed: bool)
    requires closed ==> s.free != [] && Pointer(s, io).curline < |s.vpc|
    ensures Contents(Advance(y, s, io, n, closed)) == Contents(s)
  {
    hide Advance;
    AdvanceParts(y, s, io, n, closed);
    assert forall l :: ContentAt(Advance(y, s, io, n, closed), l) == ContentAt(s, l);
  }
}

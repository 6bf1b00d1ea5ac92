/** How many pages a host may keep stored: with all but four lines' worth no run of writes ever lacks a
    free line; with one page more, on any device but the smallest, a run does. */
module FtlRunOut {
  import opened Collections
  import opened Wrappers
  import opened Geometry
  import opened FtlState
  import opened FtlGc
  import opened FtlGcLoop
  import opened FtlFill
  import opened FtlWrite
  import opened FtlInstance
  import opened FtlTally
  import opened FtlHost
  import Arith = Radix

  /** A device, seen as a layout, and how its queue breaks ties. */
  datatype Rig = Rig(g: SsdParams, y: Layout, pick: Pick)

  ghost predicate RigOk(r: Rig) {
    GeometryOk(r.g) && LayoutFor(r.g, r.y) && PicksLeast(r.pick) && 4 < r.g.ttLines
  }

  /** After the writes of w, of pages below `most`, the lines are as t says; pages are stored in the
      order of their numbers. */
  ghost predicate Reach(r: Rig, most: nat, w: seq<nat>, t: Tally) {
    && RigOk(r) && most <= r.g.ttPgs && t.stored <= most && (forall x :: x in w ==> x < most)
    && TallyOk(r.y.perLine, t)
    && match HostRun(r.g, r.y, r.pick, w)
       case NoLine => false
       case Went(s) =>
         && Settled(r.y, s, most) && Mapped(s.maptbl) == Below(t.stored) && TallyOf(r.y, s, t.stored) == t
         && |s.maptbl| == r.g.ttPgs
  }

  /** The host is refused nothing, but a write pointer finds no line. */
  ghost predicate Fails(r: Rig, most: nat, w: seq<nat>) {
    RigOk(r) && (forall x :: x in w ==> x < most) && HostRun(r.g, r.y, r.pick, w).NoLine?
  }

  /** A line with valid pages holds a stored page. */
  lemma PageOn(y: Layout, s: Ftl, l: nat) returns (lpn: nat)
    requires Core(y, s, -1, -1, Pos(y, s.wp), Pos(y, s.gc)) && l < |s.vpc| && s.vpc[l] > 0
    ensures LeavesLine(s, lpn, l) && lpn in Mapped(s.maptbl)
  {
    hide MapOk, BlkCountsOk, LinesOk, StatusOk, FillOk, PagesOk;
    assert LineSet(s.nand, l, VALID) != {};
    var p :| p in LineSet(s.nand, l, VALID);
    lpn := s.rev[p].value;
  }

  /** The page to write next: some page on line l, or (l is -1) the first not stored yet. */
  lemma Choose(r: Rig, most: nat, s: Ftl, t: Tally, l: int) returns (lpn: nat)
    requires Settled(r.y, s, most) && Mapped(s.maptbl) == Below(t.stored) && TallyOf(r.y, s, t.stored) == t
    requires |s.maptbl| == r.g.ttPgs && t.stored <= most <= r.g.ttPgs && From(t, l) && -1 <= l
    requires l == -1 ==> t.stored < most
    ensures lpn < most && LeavesLine(s, lpn, l) && (lpn in Mapped(s.maptbl) || |Mapped(s.maptbl)| < most)
    ensures Mapped(s.maptbl) + {lpn} == Below(if l < 0 then t.stored + 1 else t.stored)
  {
    hide Core;
    lpn := t.stored;
    if l >= 0 {
      lpn := PageOn(r.y, s, l);
    } else {
      assert lpn !in Mapped(s.maptbl);
    }
  }

  lemma RunMore(r: Rig, w: seq<nat>, lpn: nat)
    requires RigOk(r) && HostRun(r.g, r.y, r.pick, w).Went?
    ensures HostRun(r.g, r.y, r.pick, w + [lpn]) ==
            HostWrite(r.g, r.y, r.pick, w + [lpn], HostRun(r.g, r.y, r.pick, w).s, lpn)
  {
    hide GeometryOk, LayoutFor, PicksLeast, HostWrite;
    assert (w + [lpn])[..|w|] == w;
  }

  /** One more write. */
  lemma Go(r: Rig, most: nat, w: seq<nat>, t: Tally, l: int) returns (w': seq<nat>, v: nat)
    requires Reach(r, most, w, t) && From(t, l) && -1 <= l && (l == -1 ==> t.stored < most)
    ensures var t0 := Put(r.y.perLine, t, l);
            var t1 := if t0.None? then None else Settle(r.y.perLine, t0.value, v);
            && (t0.Some? ==> Chosen(r.y.perLine, t0.value, v))
            && if t1.None? then Fails(r, most, w') else Reach(r, most, w', t1.value)
  {
    hide GeometryOk, LayoutFor, PicksLeast, Settled, HostWrite, Put, Settle, Chosen, TallyOk, TallyOf, From,
         LeavesLine, Mapped, HostRun;
    var s := HostRun(r.g, r.y, r.pick, w).s;
    var lpn := Choose(r, most, s, t, l);
    w' := w + [lpn];
    RunMore(r, w, lpn);
    v := HostTally(r.g, r.y, r.pick, w', s, lpn, l, most, t.stored);
    StepOk(r.y.perLine, t, l, v);
  }

  /** The whole write keeps the tally sound. */
  lemma StepOk(per: nat, t: Tally, l: int, v: nat)
    requires TallyOk(per, t) && From(t, l)
    ensures var t0 := Put(per, t, l);
            t0.Some? && Chosen(per, t0.value, v) ==>
              var t1 := Settle(per, t0.value, v);
              t1.Some? ==> TallyOk(per, t1.value) && t1.value.stored == if l < 0 then t.stored + 1 else t.stored
  {
    PutOk(per, t, l);
    var t0 := Put(per, t, l);
    if t0.Some? && Chosen(per, t0.value, v) && Settle(per, t0.value, v).Some? {
      PutStored(per, t, l);
      SettleOk(per, t0.value, v);
    }
  }

  lemma PutStored(per: nat, t: Tally, l: int)
    requires From(t, l) && t.user < |t.vpc| && Put(per, t, l).Some?
    ensures Put(per, t, l).value.stored == if l < 0 then t.stored + 1 else t.stored
  {
  }

  lemma SettleOk(per: nat, t: Tally, v: nat)
    requires TallyOk(per, t) && Chosen(per, t, v) && Settle(per, t, v).Some?
    ensures TallyOk(per, Settle(per, t, v).value) && Settle(per, t, v).value.stored == t.stored
  {
    hide Gather, Total, NoDup;
    if t.credits <= 0 && |t.free| <= GC_THRES_LINES_HIGH && !AllFull(per, t) {
      GatherOk(per, t, v);
      GatherIs(per, t, v);
    }
  }

  // ---- the new instance ----

  lemma {:induction false} TotalZero(a: seq<int>)
    requires forall i :: 0 <= i < |a| ==> a[i] == 0
    ensures Total(a) == 0
  {
    if a != [] { TotalZero(a[..|a| - 1]); }
  }

  /** A new instance: two lines open, the others free. */
  lemma Starts(r: Rig, most: nat) returns (t: Tally)
    requires RigOk(r) && most <= r.g.ttPgs
    ensures Reach(r, most, [], t) && t.stored == 0 && AllFull(r.y.perLine, t)
    ensures Shape(t, 0, 0, 0, 0, r.g.ttLines - 2, r.y.perLine, r.y.perLine) && |t.vpc| == r.g.ttLines
  {
    hide GeometryOk, LayoutFor, PicksLeast, Core, Initial, Fresh, Contents;
    var s := Initial(r.g);
    LayoutLines(r.g, r.y);
    InitialFresh(r.g, r.y);
    InitAtRest(r.g, r.y, s, most);
    InitPointers(r.g, r.y, s);
    StartCounts(r, s);
    t := TallyOf(r.y, s, 0);
    TotalZero(t.vpc);
    forall l: nat | l < |t.vpc| && l != t.user && l != t.gc ensures l in t.free { assert t.free[l - 2] == l; }
    assert Mapped(s.maptbl) == Below(0);
  }

  lemma StartCounts(r: Rig, s: Ftl)
    requires Fresh(r.g, r.y, s)
    ensures |s.vpc| == r.g.ttLines && (forall l :: 0 <= l < |s.vpc| ==> s.vpc[l] == 0) && Mapped(s.maptbl) == {}
  {
  }

  // ---- one write at a time ----

  /** A write may leave line l: it holds a page, or a page is left to store, and a used-up line of the
      user has a free one after it. */
  ghost predicate Ready(per: nat, most: nat, t: Tally, l: int) {
    && From(t, l) && -1 <= l && (l == -1 ==> t.stored < most) && (t.u + 1 == per ==> t.free != [])
    && t.user < |t.vpc|
  }

  /** Nothing is collected by the write that leaves t: credits remain, or lines are not low, or nothing
      is queued. */
  ghost predicate NoneCollected(per: nat, t: Tally) {
    t.credits > 0 || |t.free| > GC_THRES_LINES_HIGH || AllFull(per, t)
  }

  lemma GoQuiet(r: Rig, most: nat, w: seq<nat>, t: Tally, l: int) returns (w': seq<nat>, t': Tally)
    requires Reach(r, most, w, t) && Ready(r.y.perLine, most, t, l)
    requires Put(r.y.perLine, t, l).Some? && NoneCollected(r.y.perLine, Put(r.y.perLine, t, l).value)
    ensures Reach(r, most, w', t')
    ensures var s := Put(r.y.perLine, t, l).value; t' == if s.credits > 0 then s else Allow(s)
  {
    hide Reach, Put, AllFull;
    var v;
    w', v := Go(r, most, w, t, l);
    t' := Settle(r.y.perLine, Put(r.y.perLine, t, l).value, v).value;
  }

  lemma GoCollect(r: Rig, most: nat, w: seq<nat>, t: Tally, l: int) returns (w': seq<nat>, t': Tally, v: nat)
    requires Reach(r, most, w, t) && Ready(r.y.perLine, most, t, l)
    requires Put(r.y.perLine, t, l).Some? && !NoneCollected(r.y.perLine, Put(r.y.perLine, t, l).value)
    requires var s := Put(r.y.perLine, t, l).value;
             TallyOk(r.y.perLine, s) && forall x: nat :: Least(r.y.perLine, s, x) ==>
                                          s.k + s.vpc[x] < r.y.perLine || s.free != []
    ensures var s := Put(r.y.perLine, t, l).value;
            && Least(r.y.perLine, s, v) && s.vpc[v] >= 0 && Gather(r.y.perLine, s, v).Some?
            && t' == Allow(Gather(r.y.perLine, s, v).value) && Reach(r, most, w', t')
  {
    hide Reach, Put, AllFull, Gather, TallyOk, Least;
    w', v := Go(r, most, w, t, l);
    var s := Put(r.y.perLine, t, l).value;
    LeastIs(r.y.perLine, s, v);
    GatherIs(r.y.perLine, s, v);
    t' := Settle(r.y.perLine, s, v).value;
  }

  lemma LeastIs(per: nat, t: Tally, v: nat)
    requires TallyOk(per, t) && Least(per, t, v)
    ensures Closed(t, v) && 0 <= t.vpc[v] < per
  {
  }

  lemma GoStuck(r: Rig, most: nat, w: seq<nat>, t: Tally, l: int) returns (w': seq<nat>)
    requires Reach(r, most, w, t) && Ready(r.y.perLine, most, t, l)
    requires Put(r.y.perLine, t, l).Some? && !NoneCollected(r.y.perLine, Put(r.y.perLine, t, l).value)
    requires var s := Put(r.y.perLine, t, l).value;
             && TallyOk(r.y.perLine, s) && s.free == []
             && forall x: nat :: Least(r.y.perLine, s, x) ==> s.k + s.vpc[x] >= r.y.perLine
    ensures Fails(r, most, w')
  {
    hide Reach, Put, AllFull, Gather, TallyOk, Least, Fails;
    var v;
    w', v := Go(r, most, w, t, l);
    var s := Put(r.y.perLine, t, l).value;
    LeastIs(r.y.perLine, s, v);
    GatherIs(r.y.perLine, s, v);
  }

  // ---- while no closed line has an invalid page ----

  /** Credits after a write that collects nothing. */
  function Next(c: int, a: int): int {
    if c == 1 then a else c - 1
  }

  function Ticks(c: int, a: int, n: nat): int {
    if n == 0 then c else Next(Ticks(c, a, n - 1), a)
  }

  /** A write that leaves no invalid page in a closed line: of a new page, or of one on an open line. */
  lemma FullStep(r: Rig, most: nat, w: seq<nat>, t: Tally, l: int, u: nat, uv: int, k: nat, gv: int, f: nat, c: int,
                 a: int) returns (w': seq<nat>, t': Tally)
    requires Reach(r, most, w, t) && AllFull(r.y.perLine, t) && Shape(t, u, uv, k, gv, f, c, a) && 1 <= c && 1 <= a
    requires (l == -1 && t.stored < most) || (l == t.user && uv > 0) || (l == t.gc && gv > 0)
    requires u + 1 == r.y.perLine ==> f > 0 && l != t.user && uv + 1 == r.y.perLine
    ensures Reach(r, most, w', t') && AllFull(r.y.perLine, t') && t'.stored == t.stored + One(l == -1)
            && |t'.vpc| == |t.vpc|
    ensures if u + 1 < r.y.perLine then
              Shape(t', u + 1, uv + One(l != t.user), k, gv - One(l == t.gc), f, Next(c, a), a)
            else Shape(t', 0, 0, k, gv - One(l == t.gc), f - 1, Next(c, a), a)
  {
    hide Reach, Put, Total;
    ReachOk(r, most, w, t);
    PutIs(r.y.perLine, t, l);
    w', t' := GoQuiet(r, most, w, t, l);
  }

  lemma ReachOk(r: Rig, most: nat, w: seq<nat>, t: Tally)
    requires Reach(r, most, w, t)
    ensures TallyOk(r.y.perLine, t) && t.stored <= most <= r.g.ttPgs && RigOk(r)
  {
  }

  /** j lines of new pages, and u pages of the next. */
  lemma {:induction false} Fills(r: Rig, most: nat, j: nat, u: nat) returns (w: seq<nat>, t: Tally)
    requires RigOk(r) && u < r.y.perLine && j + 2 < r.g.ttLines && j * r.y.perLine + u <= most <= r.g.ttPgs
    ensures Reach(r, most, w, t) && AllFull(r.y.perLine, t) && t.stored == j * r.y.perLine + u
            && |t.vpc| == r.g.ttLines
    ensures Shape(t, u, u, 0, 0, r.g.ttLines - 2 - j, r.y.perLine - u, r.y.perLine)
    decreases j, u
  {
    hide Reach, RigOk, AllFull;
    var per := r.y.perLine;
    if u > 0 {
      var w0, t0 := Fills(r, most, j, u - 1);
      w, t := FullStep(r, most, w0, t0, -1, u - 1, u - 1, 0, 0, r.g.ttLines - 2 - j, per - u + 1, per);
    } else if j > 0 {
      Arith.OneMore(j - 1, per);
      var w0, t0 := Fills(r, most, j - 1, per - 1);
      w, t := FullStep(r, most, w0, t0, -1, per - 1, per - 1, 0, 0, r.g.ttLines - 1 - j, 1, per);
    } else {
      w := [];
      t := Starts(r, most);
    }
  }

  lemma {:induction false} TicksPositive(c: int, a: int, n: nat)
    requires 1 <= c && 1 <= a
    ensures 1 <= Ticks(c, a, n)
  {
    if n > 0 { TicksPositive(c, a, n - 1); }
  }

  lemma {:induction false} TicksAdd(c: int, a: int, m: nat, n: nat)
    ensures Ticks(Ticks(c, a, m), a, n) == Ticks(c, a, m + n)
  {
    if n > 0 { TicksAdd(c, a, m, n - 1); }
  }

  lemma {:induction false} TicksDown(c: int, a: int, n: nat)
    requires n <= c && 1 <= c
    ensures Ticks(c, a, n) == if n < c then c - n else a
  {
    if n > 0 { TicksDown(c, a, n - 1); }
  }

  lemma {:induction false} TicksTwo(n: nat)
    ensures Ticks(2, 2, n) == 2 - n % 2
  {
    if n > 0 { TicksTwo(n - 1); }
  }

  /** Where the pages of a stretch of writes come from: new ones, the user's line over and over, or the
      collector's line. */
  datatype Source = NewPage | Own | Collector

  function LineOf(t: Tally, s: Source): int {
    match s case NewPage => -1 case Own => t.user case Collector => t.gc
  }

  /** n writes that do not use up the user's line. */
  lemma {:induction false} Stretch(r: Rig, most: nat, w: seq<nat>, t: Tally, s: Source, n: nat, u: nat, uv: int, k: nat,
                                   gv: int, f: nat, c: int, a: int) returns (w': seq<nat>, t': Tally)
    requires Reach(r, most, w, t) && AllFull(r.y.perLine, t) && Shape(t, u, uv, k, gv, f, c, a) && 1 <= c && 1 <= a
    requires u + n < r.y.perLine && t.user != t.gc && 0 <= uv && 0 <= gv
    requires match s case NewPage => t.stored + n <= most case Own => uv > 0 case Collector => gv >= n
    ensures Reach(r, most, w', t') && AllFull(r.y.perLine, t') && t'.stored == t.stored + (if s.NewPage? then n else 0)
            && |t'.vpc| == |t.vpc|
    ensures Shape(t', u + n, if s.Own? then uv else uv + n, k, if s.Collector? then gv - n else gv, f, Ticks(c, a, n),
                  a)
            && t'.user != t'.gc
    decreases n
  {
    hide Reach, AllFull;
    w', t' := w, t;
    if n > 0 {
      w', t' := Stretch(r, most, w, t, s, n - 1, u, uv, k, gv, f, c, a);
      TicksPositive(c, a, n - 1);
      var uv', gv' := if s.Own? then uv else uv + n - 1, if s.Collector? then gv - (n - 1) else gv;
      w', t' := FullStep(r, most, w', t', LineOf(t', s), u + n - 1, uv', k, gv', f, Ticks(c, a, n - 1), a);
      Apart(r, most, w', t');
    }
  }

  lemma Apart(r: Rig, most: nat, w: seq<nat>, t: Tally)
    requires Reach(r, most, w, t)
    ensures t.user != t.gc
  {
  }

  /** The user's line is used up by a page of its own: it closes with x valid pages, lines are low, and
      it is collected. */
  lemma ClosesPoor(r: Rig, most: nat, w: seq<nat>, t: Tally, x: nat, k: nat, gv: int, f: nat, a: int)
    returns (w': seq<nat>, t': Tally)
    requires Reach(r, most, w, t) && AllFull(r.y.perLine, t) && r.y.perLine > 0
             && Shape(t, r.y.perLine - 1, x, k, gv, f, 1, a)
    requires 0 < x < r.y.perLine && k + x < r.y.perLine && 1 <= f <= 3
    ensures Reach(r, most, w', t') && AllFull(r.y.perLine, t') && t'.stored == t.stored && |t'.vpc| == |t.vpc|
    ensures Shape(t', 0, 0, k + x, gv + x, f, r.y.perLine - x, r.y.perLine - x) && t'.user != t'.gc
  {
    hide Reach, Put, Gather, Total, TallyOk;
    var per, l := r.y.perLine, t.user;
    ReachOk(r, most, w, t);
    OneShort(per, t, x, k, gv, f, a);
    var s := Put(per, t, l).value;
    var v;
    w', t', v := GoCollect(r, most, w, t, l);
    GatherShape(per, s, v);
    Apart(r, most, w', t');
  }

  lemma OneShort(per: nat, t: Tally, x: nat, k: nat, gv: int, f: nat, a: int)
    requires TallyOk(per, t) && AllFull(per, t) && per > 0 && Shape(t, per - 1, x, k, gv, f, 1, a) && 0 < x < per
             && 1 <= f <= 3
    ensures t.free != [] && Put(per, t, t.user).Some?
    ensures var s := Put(per, t, t.user).value;
            && TallyOk(per, s) && Shape(s, 0, 0, k, gv, f - 1, 0, a) && |s.vpc| == |t.vpc| && s.stored == t.stored
            && Closed(s, t.user) && s.vpc[t.user] == x
            && forall z: nat :: Closed(s, z) && z != t.user ==> s.vpc[z] == per
  {
    hide Total, NoDup;
    PutIs(per, t, t.user);
  }

  /** All but four lines full, one page more on the user's line, the collector's line as far as it goes
      without a valid page, and no credits to spare: a reserve of a line and three pages. */
  lemma Prepared(r: Rig) returns (w: seq<nat>, t: Tally)
    requires RigOk(r) && r.y.perLine >= 6 && Most(r) <= r.g.ttPgs
    ensures var per := r.y.perLine;
            && Reach(r, Most(r), w, t) && AllFull(per, t) && t.stored == Most(r) && |t.vpc| == r.g.ttLines
            && Shape(t, per - 1, 1, per - 1, 0, 2, per - 1, per - 1)
  {
    hide Reach, RigOk, AllFull, Shape;
    var per, most := r.y.perLine, Most(r);
    w, t := LoadedCollector(r);
    w, t := Stretch(r, most, w, t, NewPage, 3, 0, 0, per - 2, per - 2, 3, 2, 2);
    w, t := Stretch(r, most, w, t, Collector, per - 4, 3, 3, per - 2, per - 2, 3, Ticks(2, 2, 3), 2);
    TicksAdd(2, 2, 3, per - 4);
    w, t := LastOfLine(r, w, t);
    TicksPositive(2, 2, per + 1);
    w, t := Stretch(r, most, w, t, Own, per - 2, 1, 1, per - 2, 0, 2, Ticks(2, 2, per + 1), 2);
    TicksAdd(2, 2, per + 1, per - 2);
    TicksTwo(2 * per - 1);
    assert (2 * per - 1) % 2 == 1;
    w, t := ClosesPoor(r, most, w, t, 1, per - 2, 0, 2, 2);
    w, t := HotAgain(r, w, t);
  }

  /** The page just collected is written over and over, to one page before the end of the line. */
  lemma HotAgain(r: Rig, w: seq<nat>, t: Tally) returns (w': seq<nat>, t': Tally)
    requires r.y.perLine >= 6 && Reach(r, Most(r), w, t) && AllFull(r.y.perLine, t) && t.user != t.gc
    requires var per := r.y.perLine; Shape(t, 0, 0, per - 1, 1, 2, per - 1, per - 1)
    ensures var per := r.y.perLine;
            && Reach(r, Most(r), w', t') && AllFull(per, t') && t'.stored == t.stored && |t'.vpc| == |t.vpc|
            && Shape(t', per - 1, 1, per - 1, 0, 2, per - 1, per - 1)
  {
    hide Reach, AllFull, Shape;
    var per, most := r.y.perLine, Most(r);
    w', t' := Stretch(r, most, w, t, Collector, 1, 0, 0, per - 1, 1, 2, per - 1, per - 1);
    w', t' := Stretch(r, most, w', t', Own, per - 2, 1, 1, per - 1, 0, 2, Ticks(per - 1, per - 1, 1), per - 1);
    TicksAdd(per - 1, per - 1, 1, per - 2);
    TicksDown(per - 1, per - 1, per - 1);
  }

  /** One page more than all but four lines hold. */
  function Most(r: Rig): (n: nat) {
    if r.g.ttLines >= 4 then (r.g.ttLines - 4) * r.y.perLine + 1 else 0
  }

  /** All but five lines full, and the collector's line open with all but two of its pages valid. */
  lemma LoadedCollector(r: Rig) returns (w: seq<nat>, t: Tally)
    requires RigOk(r) && r.y.perLine >= 6 && Most(r) <= r.g.ttPgs
    ensures var per := r.y.perLine;
            && Reach(r, Most(r), w, t) && AllFull(per, t) && t.stored == Most(r) - 3 && |t.vpc| == r.g.ttLines
            && Shape(t, 0, 0, per - 2, per - 2, 3, 2, 2) && t.user != t.gc
  {
    hide Reach, AllFull, Shape;
    var per, most := r.y.perLine, Most(r);
    Lines(r);
    hide RigOk;
    assert (r.g.ttLines - 4) * per == (r.g.ttLines - 5) * per + per;
    w, t := Fills(r, most, r.g.ttLines - 5, 0);
    Apart(r, most, w, t);
    w, t := Stretch(r, most, w, t, NewPage, per - 2, 0, 0, 0, 0, 3, per, per);
    TicksDown(per, per, per - 2);
    w, t := Stretch(r, most, w, t, Own, 1, per - 2, per - 2, 0, 0, 3, 2, per);
    w, t := ClosesPoor(r, most, w, t, per - 2, 0, 0, 3, per);
  }

  lemma Lines(r: Rig)
    requires RigOk(r)
    ensures r.g.ttLines > 4
  {
  }

  /** The user's line closes full, and the next begins. */
  lemma LastOfLine(r: Rig, w: seq<nat>, t: Tally) returns (w': seq<nat>, t': Tally)
    requires r.y.perLine >= 6 && Reach(r, Most(r), w, t) && AllFull(r.y.perLine, t)
    requires var per := r.y.perLine; Shape(t, per - 1, per - 1, per - 2, 2, 3, Ticks(2, 2, per - 1), 2)
    ensures Reach(r, Most(r), w', t') && AllFull(r.y.perLine, t') && t'.stored == t.stored && |t'.vpc| == |t.vpc|
    ensures var per := r.y.perLine; Shape(t', 1, 1, per - 2, 0, 2, Ticks(2, 2, per + 1), 2) && t'.user != t'.gc
  {
    hide Reach, AllFull;
    var per := r.y.perLine;
    TicksPositive(2, 2, per - 1);
    TicksPositive(2, 2, per);
    Apart(r, Most(r), w, t);
    w', t' := FullStep(r, Most(r), w, t, t.gc, per - 1, per - 1, per - 2, 2, 3, Ticks(2, 2, per - 1), 2);
    Apart(r, Most(r), w', t');
    w', t' := FullStep(r, Most(r), w', t', t'.gc, 0, 0, per - 2, 1, 2, Ticks(2, 2, per), 2);
    Apart(r, Most(r), w', t');
  }

  // ---- while closed lines keep at least half their pages valid ----

  /** Half a line, rounded up. */
  function Keep(per: nat): (m: nat)
    ensures per <= 2 * m <= per + 1
  {
    per - per / 2
  }

  /** Every closed line but x keeps at least m valid pages; x holds xv. Line b, one of the others, holds
      bv. (There is no such line where the number is -1.) The user's line holds valid pages only. */
  ghost predicate Stage(lines: nat, per: nat, t: Tally, x: int, xv: int, b: int, bv: int, u: nat, k: nat, gv: int,
                        f: nat, c: int, a: int)
  {
    && TallyOk(per, t) && Shape(t, u, u, k, gv, f, c, a) && |t.vpc| == lines && t.stored == (lines - 4) * per + 1
    && (forall l: nat :: Closed(t, l) && l != x ==> t.vpc[l] >= Keep(per))
    && -1 <= x && -1 <= b && (x >= 0 ==> Closed(t, x) && t.vpc[x] == xv < Keep(per))
    && (b >= 0 ==> Closed(t, b) && b != x && t.vpc[b] == bv)
  }

  /** With no more than m valid pages on any line but the open two, and e more on those. */
  lemma {:induction false} TotalBound(a: seq<int>, m: nat, i: nat, j: nat, e: nat)
    requires forall l :: 0 <= l < |a| ==> a[l] <= m + (if l == i || l == j then e else 0)
    ensures Total(a) <= |a| * m + (One(i < |a|) + One(j < |a|)) * e
  {
    if a != [] {
      var n := |a| - 1;
      TotalBound(a[..n], m, i, j, e);
      assert |a| * m == n * m + m;
      assert One(i < |a|) == One(i < n) + One(i == n) && One(j < |a|) == One(j < n) + One(j == n);
      Arith.SumTimes(One(i < n) + One(j < n), One(i == n) + One(j == n), e);
    }
  }

  /** So many pages are stored that some closed line holds more than half a line of them. */
  lemma SomeAbove(lines: nat, per: nat, t: Tally) returns (l: nat)
    requires TallyOk(per, t) && |t.vpc| == lines >= 11 && per >= 6 && t.stored == (lines - 4) * per + 1
    ensures Closed(t, l) && t.vpc[l] > Keep(per)
  {
    hide Total, NoDup;
    var m := Keep(per);
    if forall x: nat :: Closed(t, x) ==> t.vpc[x] <= m {
      forall x | 0 <= x < |t.vpc| ensures t.vpc[x] <= m + (if x == t.user || x == t.gc then per - 1 - m else 0) {
        assert Closed(t, x) || x in t.free || x == t.user || x == t.gc;
      }
      TotalBound(t.vpc, m, t.user, t.gc, per - 1 - m);
      TooMany(lines, per, m);
      assert false;
    }
    l :| Closed(t, l) && t.vpc[l] > m;
  }

  lemma TooMany(lines: nat, per: nat, m: nat)
    requires lines >= 11 && per >= 6 && per <= 2 * m <= per + 1
    ensures lines * m + 2 * (per - 1 - m) < (lines - 4) * per + 1
  {
    assert 2 * (lines * m) == lines * (2 * m);
    Arith.MulMono(2 * m, per + 1, lines);
    assert lines * (per + 1) == lines * per + lines && (lines - 4) * per == lines * per - 4 * per;
    Arith.MulMono(11, lines, per);
    Arith.MulMono(6, per, lines);
  }

  /** A position in a line after n more pages, and the free lines. */
  function Along(per: nat, u: nat): nat {
    if u < per then u else u - per
  }

  function Fewer(per: nat, f: nat, u: nat): int {
    if u < per then f else f - 1
  }

  function Drawn(per: nat, bv: int, n: nat): int {
    if bv - n >= Keep(per) then bv - n else Keep(per)
  }

  /** The line the next page is taken from: the collector's, or a closed one with more than half its
      pages valid, line b as long as it will do. */
  lemma NextLine(lines: nat, per: nat, t: Tally, collector: bool, x: int, xv: int, b: int, bv: int, u: nat, k: nat,
                 gv: int, f: nat, c: int, a: int) returns (l: nat)
    requires lines >= 11 && per >= 6 && Stage(lines, per, t, x, xv, b, bv, u, k, gv, f, c, a) && u < per
    requires collector ==> gv > 0 && b == -1
    requires b >= 0 ==> bv >= Keep(per)
    ensures From(t, l) && l != t.user && l != x && (collector ==> l == t.gc)
    ensures !collector ==> Closed(t, l) && t.vpc[l] > Keep(per) && (b >= 0 ==> (l == b <==> bv > Keep(per)))
  {
    if collector {
      l := t.gc;
    } else if b >= 0 && bv > Keep(per) {
      l := b;
    } else {
      l := SomeAbove(lines, per, t);
    }
  }

  /** Such a write, before the credits are looked at. */
  lemma StagePut(lines: nat, per: nat, t: Tally, collector: bool, l: nat, x: int, xv: int, b: int, bv: int, u: nat,
                 k: nat, gv: int, f: nat, c: int, a: int)
    requires per >= 6 && Stage(lines, per, t, x, xv, b, bv, u, k, gv, f, c, a) && (u + 1 == per ==> f > 0)
    requires From(t, l) && l != t.user && l != x && (collector ==> l == t.gc && b == -1)
    requires !collector ==> Closed(t, l) && t.vpc[l] > Keep(per) && (b >= 0 ==> (l == b <==> bv > Keep(per)))
    requires b >= 0 ==> bv >= Keep(per)
    ensures Put(per, t, l).Some?
    ensures Stage(lines, per, Put(per, t, l).value, x, xv, b, if b >= 0 then Drawn(per, bv, 1) else bv,
                  Along(per, u + 1), k, if collector then gv - 1 else gv, Fewer(per, f, u + 1), c - 1, a)
    ensures !collector ==> Closed(Put(per, t, l).value, l) && Put(per, t, l).value.vpc[l] < per
  {
    hide Total, NoDup, Put;
    FullShape(t, u, f);
    PutIs(per, t, l);
  }

  lemma FullShape(t: Tally, u: nat, f: nat)
    requires t.u == u && |t.free| == f
    ensures f > 0 ==> t.free != []
  {
  }

  /** n such writes, with credits left after each. */
  lemma {:induction false} Draw(r: Rig, w: seq<nat>, t: Tally, collector: bool, n: nat, x: int, xv: int, b: int,
                                bv: int, u: nat, k: nat, gv: int, f: nat, c: int, a: int)
    returns (w': seq<nat>, t': Tally)
    requires RigOk(r) && r.g.ttLines >= 11 && r.y.perLine >= 6 && Reach(r, Most(r), w, t)
    requires Stage(r.g.ttLines, r.y.perLine, t, x, xv, b, bv, u, k, gv, f, c, a) && u < r.y.perLine
    requires n < c && u + n < 2 * r.y.perLine && (u + n >= r.y.perLine ==> f > 0)
    requires (collector ==> gv >= n && b == -1) && (b >= 0 ==> bv >= Keep(r.y.perLine))
    ensures Reach(r, Most(r), w', t')
    ensures Stage(r.g.ttLines, r.y.perLine, t', x, xv, b, if b >= 0 then Drawn(r.y.perLine, bv, n) else bv,
                  Along(r.y.perLine, u + n), k, if collector then gv - n else gv, Fewer(r.y.perLine, f, u + n), c - n,
                  a)
    decreases n
  {
    hide Reach, RigOk, Stage, Put;
    w', t' := w, t;
    if n > 0 {
      var lines, per := r.g.ttLines, r.y.perLine;
      w', t' := Draw(r, w, t, collector, n - 1, x, xv, b, bv, u, k, gv, f, c, a);
      var bv', gv' := if b >= 0 then Drawn(per, bv, n - 1) else bv, if collector then gv - (n - 1) else gv;
      var u', f' := Along(per, u + n - 1), Fewer(per, f, u + n - 1);
      var l := NextLine(lines, per, t', collector, x, xv, b, bv', u', k, gv', f', c - (n - 1), a);
      StagePut(lines, per, t', collector, l, x, xv, b, bv', u', k, gv', f', c - (n - 1), a);
      StageIs(lines, per, t', x, xv, b, bv', u', k, gv', f', c - (n - 1), a);
      StageIs(lines, per, Put(per, t', l).value, x, xv, b, if b >= 0 then Drawn(per, bv, n) else bv, Along(per, u + n),
              k, if collector then gv - n else gv, Fewer(per, f, u + n), c - n, a);
      w', t' := GoQuiet(r, Most(r), w', t', l);
    }
  }

  lemma StageIs(lines: nat, per: nat, t: Tally, x: int, xv: int, b: int, bv: int, u: nat, k: nat, gv: int, f: nat,
                c: int, a: int)
    requires Stage(lines, per, t, x, xv, b, bv, u, k, gv, f, c, a)
    ensures TallyOk(per, t) && t.credits == c && |t.free| == f && t.u == u && t.k == k && t.user < |t.vpc|
            && (f > 0 <==> t.free != [])
  {
  }

  /** The last credit spent, and line v collected: v is x where there is one. */
  lemma DrawLast(r: Rig, w: seq<nat>, t: Tally, x: int, xv: int, b: int, bv: int, u: nat, k: nat, gv: int, f: nat,
                 a: int) returns (w': seq<nat>, t': Tally, s: Tally, v: nat)
    requires RigOk(r) && r.g.ttLines >= 11 && r.y.perLine >= 6 && Reach(r, Most(r), w, t)
    requires Stage(r.g.ttLines, r.y.perLine, t, x, xv, b, bv, u, k, gv, f, 1, a) && u + 1 < r.y.perLine && f <= 2
    requires b >= 0 ==> bv >= Keep(r.y.perLine)
    requires f > 0 || (x >= 0 && k + xv < r.y.perLine)
    ensures Stage(r.g.ttLines, r.y.perLine, s, x, xv, b, if b >= 0 then Drawn(r.y.perLine, bv, 1) else bv, u + 1, k, gv,
                  f, 0, a)
    ensures Least(r.y.perLine, s, v) && s.vpc[v] >= 0 && Gather(r.y.perLine, s, v).Some?
    ensures t' == Allow(Gather(r.y.perLine, s, v).value) && Reach(r, Most(r), w', t')
  {
    hide Reach, RigOk, Stage, Put, Gather;
    var lines, per := r.g.ttLines, r.y.perLine;
    var l := NextLine(lines, per, t, false, x, xv, b, bv, u, k, gv, f, 1, a);
    StagePut(lines, per, t, false, l, x, xv, b, bv, u, k, gv, f, 1, a);
    StageIs(lines, per, t, x, xv, b, bv, u, k, gv, f, 1, a);
    s := Put(per, t, l).value;
    var bv' := if b >= 0 then Drawn(per, bv, 1) else bv;
    StageIs(lines, per, s, x, xv, b, bv', u + 1, k, gv, f, 0, a);
    if x >= 0 { PoorestIs(lines, per, s, x, xv, b, bv', u + 1, k, gv, f, 0, a); }
    w', t', v := GoCollect(r, Most(r), w, t, l);
  }

  /** The line with fewest valid pages is x. */
  lemma PoorestIs(lines: nat, per: nat, t: Tally, x: nat, xv: int, b: int, bv: int, u: nat, k: nat, gv: int, f: nat,
                  c: int, a: int)
    requires Stage(lines, per, t, x, xv, b, bv, u, k, gv, f, c, a)
    ensures forall v: nat :: Least(per, t, v) ==> v == x
    ensures x < |t.vpc| && t.vpc[x] == xv
  {
  }

  /** Without such a line, it is one that keeps at least half its pages, and no more than b. */
  lemma PoorestOf(lines: nat, per: nat, t: Tally, b: int, bv: int, u: nat, k: nat, gv: int, f: nat, c: int, a: int)
    requires Stage(lines, per, t, -1, 0, b, bv, u, k, gv, f, c, a)
    ensures forall v: nat :: Least(per, t, v) ==> v < |t.vpc| && Keep(per) <= t.vpc[v] && (b >= 0 ==> t.vpc[v] <= bv)
  {
  }

  /** Line x collected, its pages fitting the collector's line. */
  lemma CollectFits(lines: nat, per: nat, s: Tally, x: nat, xv: int, b: int, bv: int, u: nat, k: nat, gv: int, f: nat,
                    a: int)
    requires Stage(lines, per, s, x, xv, b, bv, u, k, gv, f, 0, a) && k + xv < per && per >= 6
    requires s.vpc[x] >= 0 && Gather(per, s, x).Some?
    ensures Stage(lines, per, Allow(Gather(per, s, x).value), -1, 0, b, bv, u, k + xv, gv + xv, f + 1, per - xv,
                  per - xv)
  {
    hide Total, NoDup, Gather;
    GatherShape(per, s, x);
  }

  /** A line collected that keeps just half its pages: the collector's line closes with the one valid
      page it takes. */
  lemma CollectCrosses(lines: nat, per: nat, s: Tally, v: nat, b: int, u: nat, a: int)
    requires per >= 6 && Stage(lines, per, s, -1, 0, b, Keep(per), u, per - 1, 0, 1, 0, a) && b >= 0
    requires Least(per, s, v) && s.vpc[v] >= 0 && Gather(per, s, v).Some?
    ensures Stage(lines, per, Allow(Gather(per, s, v).value), s.gc, 1, -1, 0, u, Keep(per) - 1, Keep(per) - 1, 1,
                  per - Keep(per), per - Keep(per))
  {
    PoorestOf(lines, per, s, b, Keep(per), u, per - 1, 0, 1, 0, a);
    StageIs(lines, per, s, -1, 0, b, Keep(per), u, per - 1, 0, 1, 0, a);
    LeastIs(per, s, v);
    hide Stage, Gather, Least, TallyOk, Closed;
    HalfMoves(lines, per, s, v, b, u, a);
  }

  lemma HalfMoves(lines: nat, per: nat, s: Tally, v: nat, b: int, u: nat, a: int)
    requires per >= 6 && Stage(lines, per, s, -1, 0, b, Keep(per), u, per - 1, 0, 1, 0, a)
    requires Closed(s, v) && s.vpc[v] == Keep(per) && Gather(per, s, v).Some?
    ensures Stage(lines, per, Allow(Gather(per, s, v).value), s.gc, 1, -1, 0, u, Keep(per) - 1, Keep(per) - 1, 1,
                  per - Keep(per), per - Keep(per))
  {
    hide Total, NoDup, Gather;
    FullShape(s, u, 1);
    GatherShape(per, s, v);
  }

  /** The user's line closed with one valid page, and that page written again. */
  lemma Opening(r: Rig) returns (w: seq<nat>, t: Tally, x: nat, b: nat)
    requires RigOk(r) && r.g.ttLines >= 11 && r.y.perLine >= 6 && Most(r) <= r.g.ttPgs
    ensures var per := r.y.perLine;
            && Reach(r, Most(r), w, t) && Stage(r.g.ttLines, per, t, x, 0, b, per, 1, per - 1, 0, 1, per - 3, per - 1)
  {
    hide Reach, RigOk, Put;
    var lines, per := r.g.ttLines, r.y.perLine;
    w, t := Prepared(r);
    ReachOk(r, Most(r), w, t);
    hide Total, NoDup;
    b := SomeAbove(lines, per, t);
    x := t.user;
    FullShape(t, per - 1, 2);
    PutIs(per, t, x);
    w, t := GoQuiet(r, Most(r), w, t, x);
    w, t := PoorPage(r, w, t, x, b);
  }

  /** The one valid page of line x is written again. */
  lemma PoorPage(r: Rig, w: seq<nat>, t: Tally, x: nat, b: nat) returns (w': seq<nat>, t': Tally)
    requires RigOk(r) && r.g.ttLines >= 11 && r.y.perLine >= 6 && Reach(r, Most(r), w, t)
    requires var per := r.y.perLine;
             Stage(r.g.ttLines, per, t, x, 1, b, per, 0, per - 1, 0, 1, per - 2, per - 1)
    ensures var per := r.y.perLine;
            Reach(r, Most(r), w', t') && Stage(r.g.ttLines, per, t', x, 0, b, per, 1, per - 1, 0, 1, per - 3, per - 1)
  {
    hide Reach, RigOk, Put, Total, NoDup;
    PutIs(r.y.perLine, t, x);
    w', t' := GoQuiet(r, Most(r), w, t, x);
  }

  /** That line collected without a copy: the user's line holds valid pages only, and one closed line
      keeps no more than half of its own. */
  lemma Thinned(r: Rig) returns (w: seq<nat>, t: Tally, b: nat)
    requires RigOk(r) && r.g.ttLines >= 11 && r.y.perLine >= 6 && Most(r) <= r.g.ttPgs
    ensures var per := r.y.perLine;
            && Reach(r, Most(r), w, t)
            && Stage(r.g.ttLines, per, t, -1, 0, b, Keep(per), per - 2, per - 1, 0, 2, per, per)
  {
    hide Reach, RigOk, Stage, Put, Gather, Least;
    var lines, per := r.g.ttLines, r.y.perLine;
    var x, s, v;
    w, t, x, b := Opening(r);
    w, t := Draw(r, w, t, false, per - 4, x, 0, b, per, 1, per - 1, 0, 1, per - 3, per - 1);
    w, t, s, v := DrawLast(r, w, t, x, 0, b, Drawn(per, per, per - 4), per - 3, per - 1, 0, 1, per - 1);
    PoorestIs(lines, per, s, x, 0, b, Keep(per), per - 2, per - 1, 0, 1, 0, per - 1);
    CollectFits(lines, per, s, x, 0, b, Keep(per), per - 2, per - 1, 0, 1, per - 1);
  }

  /** The collector's line closed with a single valid page. */
  lemma Crossed(r: Rig) returns (w: seq<nat>, t: Tally, x: nat)
    requires RigOk(r) && r.g.ttLines >= 11 && r.y.perLine >= 6 && Most(r) <= r.g.ttPgs
    ensures var per, m := r.y.perLine, Keep(r.y.perLine);
            && Reach(r, Most(r), w, t)
            && Stage(r.g.ttLines, per, t, x, 1, -1, 0, per - 2, m - 1, m - 1, 1, per - m, per - m)
  {
    hide Reach, RigOk, Stage, Put, Gather, Least;
    var lines, per := r.g.ttLines, r.y.perLine;
    var b, s, v;
    w, t, b := Thinned(r);
    w, t := Draw(r, w, t, false, per - 1, -1, 0, b, Keep(per), per - 2, per - 1, 0, 2, per, per);
    w, t, s, v := DrawLast(r, w, t, -1, 0, b, Keep(per), per - 3, per - 1, 0, 1, per);
    CollectCrosses(lines, per, s, v, b, per - 2, per);
    x := s.gc;
  }

  /** That line collected too. */
  lemma Cornered(r: Rig) returns (w: seq<nat>, t: Tally)
    requires RigOk(r) && r.g.ttLines >= 11 && r.y.perLine >= 6 && Most(r) <= r.g.ttPgs
    ensures var per, m := r.y.perLine, Keep(r.y.perLine);
            && Reach(r, Most(r), w, t)
            && Stage(r.g.ttLines, per, t, -1, 0, -1, 0, per - m - 2, m, m, 1, per - 1, per - 1)
  {
    hide Reach, RigOk, Stage, Put, Gather, Least;
    var lines, per, m := r.g.ttLines, r.y.perLine, Keep(r.y.perLine);
    var x, s, v;
    w, t, x := Crossed(r);
    var q := per - m;
    w, t := Draw(r, w, t, false, q - 1, x, 1, -1, 0, per - 2, m - 1, m - 1, 1, q, q);
    w, t, s, v := DrawLast(r, w, t, x, 1, -1, 0, q - 3, m - 1, m - 1, 0, q);
    PoorestIs(lines, per, s, x, 1, -1, 0, q - 2, m - 1, m - 1, 0, 0, q);
    CollectFits(lines, per, s, x, 1, -1, 0, q - 2, m - 1, m - 1, 0, q);
  }

  /** With one page more than all but four lines hold, the host can write until a collection needs a
      free line and there is none. */
  lemma RunsOut(r: Rig) returns (w: seq<nat>)
    requires RigOk(r) && r.g.ttLines >= 11 && r.y.perLine >= 6 && Most(r) <= r.g.ttPgs
    ensures Fails(r, Most(r), w)
  {
    hide Reach, RigOk, Stage, Put, Gather, Fails, Least;
    var lines, per, m := r.g.ttLines, r.y.perLine, Keep(r.y.perLine);
    var t;
    w, t := Cornered(r);
    var q := per - m;
    w, t := Draw(r, w, t, true, m, -1, 0, -1, 0, q - 2, m, m, 1, per - 1, per - 1);
    w, t := Draw(r, w, t, false, q - 2, -1, 0, -1, 0, per - 2, m, 0, 1, q - 1, per - 1);
    w := LastStraw(r, w, t, Along(per, per - 2 + q - 2), Fewer(per, 1, per - 2 + q - 2));
  }

  lemma LastStraw(r: Rig, w: seq<nat>, t: Tally, u: nat, f: nat) returns (w': seq<nat>)
    requires RigOk(r) && r.g.ttLines >= 11 && r.y.perLine >= 6 && Reach(r, Most(r), w, t) && u < r.y.perLine
    requires Stage(r.g.ttLines, r.y.perLine, t, -1, 0, -1, 0, u, Keep(r.y.perLine), 0, f, 1, r.y.perLine - 1)
    requires if u + 1 == r.y.perLine then f == 1 else f == 0
    ensures Fails(r, Most(r), w')
  {
    hide Reach, RigOk, Stage, Put, Gather, Fails, Least;
    var lines, per, m := r.g.ttLines, r.y.perLine, Keep(r.y.perLine);
    var l := NextLine(lines, per, t, false, -1, 0, -1, 0, u, m, 0, f, 1, per - 1);
    StagePut(lines, per, t, false, l, -1, 0, -1, 0, u, m, 0, f, 1, per - 1);
    StageIs(lines, per, t, -1, 0, -1, 0, u, m, 0, f, 1, per - 1);
    var s := Put(per, t, l).value;
    var u' := Along(per, u + 1);
    StageIs(lines, per, s, -1, 0, -1, 0, u', m, 0, 0, 0, per - 1);
    PoorestOf(lines, per, s, -1, 0, u', m, 0, 0, 0, per - 1);
    w' := GoStuck(r, Most(r), w, t, l);
  }

  // ---- within all but four lines' worth of pages ----

  /** The invariant between commands, on the pages of w. */
  ghost predicate Rests(r: Rig, most: nat, w: seq<nat>) {
    RigOk(r) && match HostRun(r.g, r.y, r.pick, w)
                case NoLine => false
                case Went(s) => AtRest(r.y, s, most) && Mapped(s.maptbl) == Elems(w) && |s.maptbl| == r.g.ttPgs
  }

  /** A write keeps the reserve, whatever its credits bring about. */
  lemma WriteRests(r: Rig, most: nat, h: seq<nat>, s: Ftl, lpn: nat)
    requires RigOk(r) && AtRest(r.y, s, most) && most <= (r.y.lines - 4) * r.y.perLine
    requires lpn < |s.maptbl| && (lpn in Mapped(s.maptbl) || |Mapped(s.maptbl)| < most)
    ensures var o := HostWrite(r.g, r.y, r.pick, h, s, lpn);
            o.Went? && AtRest(r.y, o.s, most) && Mapped(o.s.maptbl) == Mapped(s.maptbl) + {lpn}
                && |o.s.maptbl| == |s.maptbl|
  {
    hide GeometryOk, LayoutFor, LayoutOk, Core, Contents, InCapacity, PutPage, Refilled, TallyOf, OpenUsed;
    LayoutForOk(r.g, r.y);
    PointersInLine(r.y, s);
    var l := match s.maptbl[lpn] case None => -1 case Some(p) => p.blk;
    PutTally(r.g, r.y, s, lpn, l, most, 0);
    PutFits(r.y, s, l);
    var t := PutPage(r.g, r.y, s, lpn, 0).s;
    RefilledRests(r, most, r.pick(h, t), t);
  }

  lemma PutFits(y: Layout, s: Ftl, l: int)
    requires CreditOk(y, s, Pos(y, s.wp), Pos(y, s.gc)) && 1 <= s.credits && 0 < y.perLine
    requires l < |s.vpc| && s.wp.curline < |s.vpc|
    ensures Put(y.perLine, TallyOf(y, s, 0), l).Some?
  {
  }

  lemma RefilledRests(r: Rig, most: nat, v: nat, t: Ftl)
    requires RigOk(r) && Heads(t, v) && Settled(r.y, t, most) && OpenUsed(r.y, t)
             && most <= (r.y.lines - 4) * r.y.perLine
    requires Reserve(r.y, t) - t.credits >= 2 * r.y.perLine && 1 <= t.refill <= r.y.perLine
             && 0 <= t.credits <= r.y.perLine
    ensures var o := Refilled(r.g, r.y, v, t);
            o.Went? && AtRest(r.y, o.s, most) && Mapped(o.s.maptbl) == Mapped(t.maptbl) && |o.s.maptbl| == |t.maptbl|
  {
    hide GeometryOk, LayoutFor, LayoutOk, PicksLeast, Settled, Contents, CollectLine, OpenUsed, Reserve;
    QueueEmpty(r.y, t, most, 0);
    if t.credits > 0 {
      RestsIs(r.y, t, most);
    } else if |t.free| <= GC_THRES_LINES_HIGH && t.victims != {} {
      CollectedRests(r, most, v, t);
    } else {
      LayoutForOk(r.g, r.y);
      if |t.free| <= GC_THRES_LINES_HIGH { NothingToCollect(r.y, t, most); } else { ManyFree(r.y, t, most); }
      SettledRefilled(r.y, t, t.(credits := t.credits + t.refill), most);
      RestsIs(r.y, t.(credits := t.credits + t.refill), most);
    }
  }

  /** A collection hands out just what it gains. */
  lemma CollectedRests(r: Rig, most: nat, v: nat, t: Ftl)
    requires RigOk(r) && Heads(t, v) && Settled(r.y, t, most) && Reserve(r.y, t) >= 2 * r.y.perLine && t.credits == 0
    requires |t.free| <= GC_THRES_LINES_HIGH && t.victims != {}
    ensures var o := Refilled(r.g, r.y, v, t);
            o.Went? && AtRest(r.y, o.s, most) && Mapped(o.s.maptbl) == Mapped(t.maptbl) && |o.s.maptbl| == |t.maptbl|
  {
    hide GeometryOk, LayoutFor, PicksLeast, Settled, Contents, CollectLine, Reserve, AtRest, Gather, TallyOf;
    HeadIsLeast(r.y, t, v, most, 0);
    CollectTally(r.g, r.y, t, v, most, 0);
    StoredKeys(r.y, t, most);
    var u := CollectLine(r.g, r.y, t, v).s;
    StoredKeys(r.y, u, most);
    SettledRefilled(r.y, u, u.(credits := u.credits + u.refill), most);
    RestsIs(r.y, u.(credits := u.credits + u.refill), most);
  }

  lemma RestsIs(y: Layout, s: Ftl, most: nat)
    requires Settled(y, s, most) && Reserve(y, s) - s.credits >= 2 * y.perLine
    requires 1 <= s.refill <= y.perLine && 1 <= s.credits <= y.perLine
    ensures AtRest(y, s, most)
  {
  }

  lemma ManyFree(y: Layout, s: Ftl, most: nat)
    requires LayoutOk(y) && Settled(y, s, most) && |s.free| > 2
    ensures Reserve(y, s) >= 3 * y.perLine
  {
    hide Core, InCapacity, LayoutOk;
    PointersInLine(y, s);
    Arith.MulMono(3, |s.free|, y.perLine);
  }

  lemma {:induction false} KeepsWriting(r: Rig, most: nat, w: seq<nat>)
    requires RigOk(r) && most <= (r.y.lines - 4) * r.y.perLine && |Elems(w)| <= most
    requires forall x :: x in w ==> x < r.g.ttPgs
    ensures Rests(r, most, w)
  {
    hide GeometryOk, LayoutFor, PicksLeast, AtRest, HostWrite, Mapped;
    if w == [] {
      RestsFirst(r, most);
    } else {
      var n := |w| - 1;
      var x := w[n];
      ElemsNext(w);
      KeepsWriting(r, most, w[..n]);
      WriteRests(r, most, w, HostRun(r.g, r.y, r.pick, w[..n]).s, x);
    }
  }

  lemma ElemsNext(w: seq<nat>)
    requires w != []
    ensures var n := |w| - 1;
            && Elems(w) == Elems(w[..n]) + {w[n]} && |Elems(w[..n])| <= |Elems(w)|
            && (w[n] in Elems(w[..n]) || |Elems(w[..n])| < |Elems(w)|) && forall x :: x in w[..n] ==> x in w
  {
    hide NoDup;
    var n := |w| - 1;
    SubsetSize(Elems(w[..n]), Elems(w));
    forall x | x in w[..n] ensures x in w { assert x in Elems(w[..n]) && x in Elems(w); }
  }

  lemma RestsFirst(r: Rig, most: nat)
    requires RigOk(r)
    ensures Rests(r, most, [])
  {
    hide GeometryOk, LayoutFor, PicksLeast, AtRest, Initial, Fresh, Contents;
    var s := Initial(r.g);
    InitialFresh(r.g, r.y);
    InitAtRest(r.g, r.y, s, most);
    StartCounts(r, s);
    assert Elems([]) == {};
  }

  // ---- so exactly ----

  /** No run of writes to pages of the mapping table that keeps at most `most` of them stored ever lacks
      a free line. */
  ghost predicate NeverRunsOut(r: Rig, most: nat)
    requires RigOk(r)
  {
    forall w: seq<nat> :: |Elems(w)| <= most && (forall x :: x in w ==> x < r.g.ttPgs) ==>
      HostRun(r.g, r.y, r.pick, w).Went?
  }

  /** On a device of at least 11 lines of at least 6 pages, a host can write for ever exactly when it
      keeps no more pages stored than all but four lines hold. */
  lemma NeverRunsOutExactly(r: Rig, most: nat)
    requires RigOk(r) && r.g.ttLines >= 11 && r.g.pgsPerLine >= 6
    ensures NeverRunsOut(r, most) <==> most <= (r.g.ttLines - 4) * r.g.pgsPerLine
  {
    LayoutLines(r.g, r.y);
    InTable(r.g, r.y, r.g.ttLines - 4, 0, (r.g.ttLines - 4) * r.y.perLine);
    hide RigOk, HostRun;
    if most <= (r.g.ttLines - 4) * r.g.pgsPerLine {
      forall w: seq<nat> | |Elems(w)| <= most && (forall x :: x in w ==> x < r.g.ttPgs)
        ensures HostRun(r.g, r.y, r.pick, w).Went?
      {
        KeepsWriting(r, most, w);
      }
    } else {
      var w := RunsOut(r);
      assert Elems(w) <= Below(Most(r));
      SubsetSize(Elems(w), Below(Most(r)));
    }
  }
}

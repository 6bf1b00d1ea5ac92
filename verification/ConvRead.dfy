/** Host reads: which NAND reads conv_read issues for a range of logical pages. */
module ConvRead {
  import opened Collections
  import opened Wrappers
  import opened Radix
  import opened Geometry
  import opened FtlInstance

  /** A read of one flash page: its instance, an address in it, and the bytes transferred. */
  datatype NandRead = NandRead(part: nat, ppa: Ppa, bytes: nat)

  /** is_same_flash_page: same block of the device and same flash page within it. */
  predicate SameFlashPage(g: SsdParams, a: Ppa, b: Ppa) {
    && a.ch == b.ch && a.lun == b.lun && a.pl == b.pl && a.blk == b.blk
    && g.pgsPerFlash > 0 && a.pg / g.pgsPerFlash == b.pg / g.pgsPerFlash
  }

  /** Two pages are in one flash page exactly when they lie in the same block and their aligned groups of
      pgsPerFlash pages start at the same page. */
  lemma SamePageIs(g: SsdParams, a: Ppa, b: Ppa)
    requires g.pgsPerFlash > 0
    ensures SameFlashPage(g, a, b) <==>
            && a == b.(pg := a.pg)
            && a.pg - a.pg % g.pgsPerFlash == b.pg - b.pg % g.pgsPerFlash
  {
    var n := g.pgsPerFlash;
    var q, r := DivMod(a.pg, n);
    var q', r' := DivMod(b.pg, n);
    if n * q == n * q' {
      DivUnique(n * q, n, q, 0);
      DivUnique(n * q', n, q', 0);
    }
  }

  type Tables = seq<seq<Option<Ppa>>>

  /** Where logical page lpn of the striped namespace is stored, if it is. */
  function Located(g: SsdParams, t: Tables, lpn: nat): (r: Option<Ppa>)
    ensures r.Some? ==> ValidPpa(g, r.value)
  {
    if |t| == 0 || lpn / |t| >= |t[lpn % |t|]| then None
    else
      var e := t[lpn % |t|][lpn / |t|];
      if e.Some? && ValidPpa(g, e.value) then e else None
  }

  function Stride(first: nat, last: int, step: nat): seq<nat>
    requires step > 0
    decreases last - first
  {
    if first > last then [] else [first] + Stride(first + step, last, step)
  }

  function MappedOnly(g: SsdParams, t: Tables, lpns: seq<nat>): seq<nat> {
    if lpns == [] then [] else (if Located(g, t, lpns[0]).Some? then [lpns[0]] else []) + MappedOnly(g, t, lpns[1..])
  }

  /** The order of visits: instance by instance, each with its stride of the range. */
  function VisitsFrom(start: nat, last: int, parts: nat, i: nat): seq<nat>
    requires parts > 0
    decreases parts - i
  {
    if i >= parts || start + i > last then []
    else Stride(start + i, last, parts) + VisitsFrom(start, last, parts, i + 1)
  }

  function Flatten(groups: seq<seq<nat>>): seq<nat> {
    if groups == [] then [] else Flatten(groups[..|groups| - 1]) + groups[|groups| - 1]
  }

  // ---- each page of the range is visited exactly once ----

  lemma CountConcat(a: seq<nat>, b: seq<nat>, x: nat)
    ensures multiset(a + b)[x] == multiset(a)[x] + multiset(b)[x]
  {
  }

  /** x is one of first, first + step, ... up to last. */
  predicate Hit(first: nat, last: int, step: nat, x: nat)
    requires step > 0
  {
    first <= x <= last && (x - first) % step == 0
  }

  lemma HitStep(first: nat, last: int, step: nat, x: nat)
    requires step > 0 && first <= last
    ensures One(Hit(first, last, step, x)) == One(x == first) + One(Hit(first + step, last, step, x))
  {
    if x >= first + step {
      ModShift(x - first - step, step);
    } else if x >= first {
      SmallMod(x - first, step);
    }
  }

  lemma {:induction false} StrideCount(first: nat, last: int, step: nat, x: nat)
    requires step > 0
    ensures multiset(Stride(first, last, step))[x] == One(Hit(first, last, step, x))
    decreases last - first
  {
    hide Hit, Stride, One;
    StrideHead(first, last, step);
    if first <= last {
      StrideCount(first + step, last, step, x);
      CountConcat([first], Stride(first + step, last, step), x);
      CountOne(first, x);
      HitStep(first, last, step, x);
    } else {
      NoHit(first, last, step, x);
    }
  }

  lemma StrideHead(first: nat, last: int, step: nat)
    requires step > 0
    ensures Stride(first, last, step) == if first > last then [] else [first] + Stride(first + step, last, step)
  {
  }

  lemma CountOne(a: nat, x: nat)
    ensures multiset([a])[x] == One(x == a)
  {
  }

  lemma NoHit(first: nat, last: int, step: nat, x: nat)
    requires step > 0 && first > last
    ensures One(Hit(first, last, step, x)) == 0
  {
  }

  lemma ModShift(a: nat, n: nat)
    requires n > 0
    ensures (a + n) % n == a % n
  {
    var q, r := DivMod(a, n);
    DivUnique(a + n, n, q + 1, r);
  }

  lemma SmallMod(a: nat, n: nat)
    requires a < n
    ensures a % n == a
  {
  }

  /** The instances from the i-th on visit x when its offset from the start falls to one. */
  predicate Due(start: nat, last: int, parts: nat, i: nat, x: nat)
    requires parts > 0
  {
    start <= x <= last && i <= (x - start) % parts
  }

  lemma DueStep(start: nat, last: int, parts: nat, i: nat, x: nat)
    requires parts > 0
    ensures i >= parts || start + i > last ==> !Due(start, last, parts, i, x)
    ensures i < parts && start + i <= last ==>
      One(Due(start, last, parts, i, x)) == One(Hit(start + i, last, parts, x)) + One(Due(start, last, parts, i + 1, x))
  {
    if start <= x <= last {
      SmallerMod(x - start, parts);
      if i < parts { OffsetMod(x - start, i, parts); }
    }
  }

  lemma {:induction false} VisitsCount(start: nat, last: int, parts: nat, i: nat, x: nat)
    requires parts > 0
    ensures multiset(VisitsFrom(start, last, parts, i))[x] == One(Due(start, last, parts, i, x))
    decreases parts - i
  {
    hide Due, Hit, Stride, One;
    DueStep(start, last, parts, i, x);
    if i < parts && start + i <= last {
      VisitsCount(start, last, parts, i + 1, x);
      StrideCount(start + i, last, parts, x);
      CountConcat(Stride(start + i, last, parts), VisitsFrom(start, last, parts, i + 1), x);
    } else {
      NotDue(start, last, parts, i, x);
    }
  }

  lemma NotDue(start: nat, last: int, parts: nat, i: nat, x: nat)
    requires parts > 0 && !Due(start, last, parts, i, x)
    ensures One(Due(start, last, parts, i, x)) == 0
  {
  }

  lemma SmallerMod(a: nat, n: nat)
    requires n > 0
    ensures a % n <= a
  {
    var q, r := DivMod(a, n);
    assert n * q >= 0;
  }

  lemma OffsetMod(a: nat, i: nat, n: nat)
    requires i < n
    ensures a >= i && (a - i) % n == 0 <==> a % n == i
  {
    var q, r := DivMod(a, n);
    if a >= i {
      var q', r' := DivMod(a - i, n);
      if r' == 0 { DivUnique(a, n, q', i); }
      if r == i { DivUnique(a - i, n, q, 0); }
    } else {
      SmallMod(a, n);
    }
  }

  /** Every logical page of the range is visited exactly once, and no other page. */
  lemma VisitsOnce(start: nat, last: int, parts: nat, x: nat)
    requires parts > 0
    ensures multiset(VisitsFrom(start, last, parts, 0))[x] == if start <= x <= last then 1 else 0
  {
    VisitsCount(start, last, parts, 0, x);
  }

  // ---- the reads issued ----

  /** A read with the logical pages it serves: all in one flash page, that many bytes. */
  ghost predicate Serves(g: SsdParams, t: Tables, pgsz: nat, r: NandRead, lpns: seq<nat>) {
    && lpns != [] && r.bytes == pgsz * |lpns|
    && forall k :: 0 <= k < |lpns| ==>
         lpns[k] % (if |t| == 0 then 1 else |t|) == r.part
         && Located(g, t, lpns[k]).Some? && SameFlashPage(g, Located(g, t, lpns[k]).value, r.ppa)
  }

  ghost predicate AllServe(g: SsdParams, t: Tables, pgsz: nat, issued: seq<NandRead>, groups: seq<seq<nat>>) {
    |issued| == |groups| && forall i :: 0 <= i < |issued| ==> Serves(g, t, pgsz, issued[i], groups[i])
  }

  /** Successive reads of one instance are of different flash pages. */
  predicate Apart(g: SsdParams, issued: seq<NandRead>) {
    forall i :: 0 <= i < |issued| - 1 && issued[i].part == issued[i + 1].part ==>
      !SameFlashPage(g, issued[i + 1].ppa, issued[i].ppa)
  }

  lemma ApartNext(g: SsdParams, a: seq<NandRead>, r: NandRead)
    requires Apart(g, a) && (a != [] ==> !SameFlashPage(g, r.ppa, a[|a| - 1].ppa))
    ensures Apart(g, a + [r])
  {
  }

  /** The reads so far are of other instances than those to come. */
  ghost predicate OfOthers(issued: seq<NandRead>, start: nat, i: nat, parts: nat)
    requires parts > 0
  {
    forall r, j: nat :: r in issued && i <= j < parts ==> r.part != PartOf(start, j, parts)
  }

  function PartOf(start: nat, i: nat, parts: nat): nat
    requires parts > 0
  {
    (start + i) % parts
  }

  lemma OthersNext(g: SsdParams, a: seq<NandRead>, b: seq<NandRead>, start: nat, i: nat, parts: nat)
    requires i < parts && OfOthers(a, start, i, parts) && Apart(g, a) && Apart(g, b)
    requires forall k :: 0 <= k < |b| ==> b[k].part == PartOf(start, i, parts)
    ensures OfOthers(a + b, start, i + 1, parts) && Apart(g, a + b)
  {
    forall r, j: nat | r in a + b && i + 1 <= j < parts ensures r.part != PartOf(start, j, parts) {
      ModApart(start, i, j, parts);
    }
    if a != [] && b != [] { assert a[|a| - 1] in a && b[0].part == PartOf(start, i, parts); }
    hide SameFlashPage;
    forall k | 0 <= k < |a + b| - 1 && (a + b)[k].part == (a + b)[k + 1].part
      ensures !SameFlashPage(g, (a + b)[k + 1].ppa, (a + b)[k].ppa)
    {
      if k >= |a| { assert (a + b)[k] == b[k - |a|] && (a + b)[k + 1] == b[k + 1 - |a|]; }
    }
  }

  /** So no page of one group lies in the flash page of the group after it: the groups are the longest
      runs of mapped pages within one flash page. */
  lemma GroupsMaximal(g: SsdParams, t: Tables, pgsz: nat, issued: seq<NandRead>, groups: seq<seq<nat>>, i: nat, a: nat,
                      b: nat)
    requires AllServe(g, t, pgsz, issued, groups) && Apart(g, issued) && i + 1 < |issued|
    requires issued[i].part == issued[i + 1].part && a < |groups[i]| && b < |groups[i + 1]|
    ensures Located(g, t, groups[i][a]).Some? && Located(g, t, groups[i + 1][b]).Some?
    ensures !SameFlashPage(g, Located(g, t, groups[i][a]).value, Located(g, t, groups[i + 1][b]).value)
  {
    assert Serves(g, t, pgsz, issued[i], groups[i]) && Serves(g, t, pgsz, issued[i + 1], groups[i + 1]);
  }

  function TotalBytes(issued: seq<NandRead>): nat {
    if issued == [] then 0 else TotalBytes(issued[..|issued| - 1]) + issued[|issued| - 1].bytes
  }

  /** Together the reads transfer one mapping unit per logical page served. */
  lemma {:induction false} BytesServed(g: SsdParams, t: Tables, pgsz: nat, issued: seq<NandRead>, groups: seq<seq<nat>>)
    requires AllServe(g, t, pgsz, issued, groups)
    ensures TotalBytes(issued) == pgsz * |Flatten(groups)|
  {
    if issued != [] {
      var n := |issued| - 1;
      BytesServed(g, t, pgsz, issued[..n], groups[..n]);
      var a, b := |Flatten(groups[..n])|, |groups[n]|;
      assert pgsz * (a + b) == pgsz * a + pgsz * b;
    }
  }

  /** The pending transfer: pages collected so far in the flash page of prev. */
  ghost predicate Pending(g: SsdParams, t: Tables, pgsz: nat, part: nat, prev: Option<Ppa>, xfer: nat,
                          group: seq<nat>) {
    && xfer == pgsz * |group|
    && (group != [] ==> prev.Some? && Serves(g, t, pgsz, NandRead(part, prev.value, xfer), group))
  }

  lemma PendingGrows(g: SsdParams, t: Tables, pgsz: nat, part: nat, prev: Ppa, xfer: nat, group: seq<nat>, lpn: nat)
    requires Pending(g, t, pgsz, part, Some(prev), xfer, group) && |t| > 0 && lpn % |t| == part
    requires Located(g, t, lpn).Some? && SameFlashPage(g, Located(g, t, lpn).value, prev)
    ensures Pending(g, t, pgsz, part, Some(prev), xfer + pgsz, group + [lpn])
  {
    assert pgsz * (|group| + 1) == pgsz * |group| + pgsz;
  }

  /** Issuing the pending transfer, if there is one, adds its group to those served. */
  lemma IssuePending(g: SsdParams, t: Tables, pgsz: nat, part: nat, issued: seq<NandRead>, groups: seq<seq<nat>>,
                     prev: Option<Ppa>, xfer: nat, group: seq<nat>)
    requires AllServe(g, t, pgsz, issued, groups) && Pending(g, t, pgsz, part, prev, xfer, group) && pgsz > 0
    ensures xfer == 0 ==> group == []
    ensures xfer > 0 ==> prev.Some? && AllServe(g, t, pgsz, issued + [NandRead(part, prev.value, xfer)],
                                                groups + [group])
  {
    hide Serves;
    if xfer == 0 && |group| > 0 { MulMono(1, |group|, pgsz); }
  }

  /** The reads issued so far for one instance, each of another flash page than the one before, and the
      pending transfer, of another flash page than the last. */
  ghost predicate Gathered(g: SsdParams, t: Tables, pgsz: nat, part: nat, issued: seq<NandRead>,
                           groups: seq<seq<nat>>, prev: Option<Ppa>, xfer: nat, group: seq<nat>)
  {
    && Issued(g, t, pgsz, part, issued, groups) && Pending(g, t, pgsz, part, prev, xfer, group)
    && (issued != [] ==> xfer > 0 && prev.Some? && !SameFlashPage(g, prev.value, issued[|issued| - 1].ppa))
  }

  ghost predicate Issued(g: SsdParams, t: Tables, pgsz: nat, part: nat, issued: seq<NandRead>, groups: seq<seq<nat>>) {
    AllServe(g, t, pgsz, issued, groups) && Apart(g, issued) && forall i :: 0 <= i < |issued| ==> issued[i].part == part
  }

  /** One more page of the flash page of prev. */
  lemma Merged(g: SsdParams, t: Tables, pgsz: nat, part: nat, issued: seq<NandRead>, groups: seq<seq<nat>>, prev: Ppa,
               xfer: nat, group: seq<nat>, lpn: nat)
    requires Gathered(g, t, pgsz, part, issued, groups, Some(prev), xfer, group) && |t| > 0 && lpn % |t| == part
    requires Located(g, t, lpn).Some? && SameFlashPage(g, Located(g, t, lpn).value, prev)
    ensures Gathered(g, t, pgsz, part, issued, groups, Some(prev), xfer + pgsz, group + [lpn])
  {
    hide Issued, Pending;
    PendingGrows(g, t, pgsz, part, prev, xfer, group, lpn);
  }

  lemma FlattenOne(groups: seq<seq<nat>>, group: seq<nat>)
    ensures Flatten(groups + [group]) == Flatten(groups) + group
  {
    assert (groups + [group])[..|groups|] == groups;
  }

  /** The pending transfer, if there is one, is issued. */
  lemma Flushed(g: SsdParams, t: Tables, pgsz: nat, part: nat, issued: seq<NandRead>, groups: seq<seq<nat>>,
                prev: Option<Ppa>, xfer: nat, group: seq<nat>)
    requires Gathered(g, t, pgsz, part, issued, groups, prev, xfer, group) && pgsz > 0
    ensures xfer == 0 ==> group == [] && issued == [] && Issued(g, t, pgsz, part, issued, groups)
    ensures xfer > 0 ==> prev.Some? && Issued(g, t, pgsz, part, issued + [NandRead(part, prev.value, xfer)],
                                              groups + [group])
    ensures Flatten(groups + [group]) == Flatten(groups) + group
  {
    FlattenOne(groups, group);
    hide AllServe, Pending, Apart, SameFlashPage, Flatten;
    IssuePending(g, t, pgsz, part, issued, groups, prev, xfer, group);
    if xfer > 0 { ApartNext(g, issued, NandRead(part, prev.value, xfer)); }
  }

  /** A page of another flash page starts the next transfer. */
  lemma Started(g: SsdParams, t: Tables, pgsz: nat, part: nat, issued: seq<NandRead>, groups: seq<seq<nat>>, p: Ppa,
                lpn: nat)
    requires Issued(g, t, pgsz, part, issued, groups) && pgsz > 0 && |t| > 0 && lpn % |t| == part && g.pgsPerFlash > 0
    requires Located(g, t, lpn) == Some(p) && (issued != [] ==> !SameFlashPage(g, p, issued[|issued| - 1].ppa))
    ensures Gathered(g, t, pgsz, part, issued, groups, Some(p), pgsz, [lpn])
  {
    OnePage(g, t, pgsz, part, p, lpn);
  }

  /** The groups read, the pending one and what is to come from lpn on are the whole share. */
  ghost predicate Covers(g: SsdParams, t: Tables, groups: seq<seq<nat>>, group: seq<nat>, lpn: nat, last: int,
                         all: seq<nat>)
    requires |t| > 0
  {
    Flatten(groups) + group + MappedOnly(g, t, Stride(lpn, last, |t|)) == all
  }

  /** A page without data is passed over; another joins the pending group. */
  lemma CoversNext(g: SsdParams, t: Tables, groups: seq<seq<nat>>, group: seq<nat>, lpn: nat, last: int, all: seq<nat>,
                   cur: Option<Ppa>)
    requires |t| > 0 && lpn <= last && lpn / |t| < |t[lpn % |t|]| && cur == t[lpn % |t|][lpn / |t|]
    requires Covers(g, t, groups, group, lpn, last, all)
    ensures Located(g, t, lpn) == if cur.Some? && ValidPpa(g, cur.value) then cur else None
    ensures Covers(g, t, groups, if Located(g, t, lpn).Some? then group + [lpn] else group, lpn + |t|, last, all)
  {
    hide Flatten, ValidPpa;
    VisitHead(g, t, lpn, last, |t|, cur);
    var rest := MappedOnly(g, t, Stride(lpn + |t|, last, |t|));
    hide MappedOnly, Stride, Located;
    assert Flatten(groups) + group + ([lpn] + rest) == Flatten(groups) + (group + [lpn]) + rest;
    assert Flatten(groups) + group + ([] + rest) == Flatten(groups) + group + rest;
  }

  lemma CoversFlushed(g: SsdParams, t: Tables, groups: seq<seq<nat>>, group: seq<nat>, l: nat, lpn: nat, last: int,
                      all: seq<nat>)
    requires |t| > 0 && Covers(g, t, groups, group + [l], lpn, last, all)
    requires Flatten(groups + [group]) == Flatten(groups) + group
    ensures Covers(g, t, groups + [group], [l], lpn, last, all)
    ensures group == [] ==> Covers(g, t, groups, [l], lpn, last, all)
  {
    hide Flatten, MappedOnly, Stride;
    assert Flatten(groups) + (group + [l]) == Flatten(groups) + group + [l];
    if group == [] { assert group + [l] == [l]; }
  }

  lemma CoversFirst(g: SsdParams, t: Tables, first: nat, last: int)
    requires |t| > 0
    ensures Covers(g, t, [], [], first, last, MappedOnly(g, t, Stride(first, last, |t|)))
  {
    hide MappedOnly, Stride;
  }

  lemma CoversLast(g: SsdParams, t: Tables, groups: seq<seq<nat>>, group: seq<nat>, lpn: nat, last: int, all: seq<nat>)
    requires |t| > 0 && lpn > last && Covers(g, t, groups, group, lpn, last, all)
    ensures Flatten(groups) + group == all && (group == [] ==> Flatten(groups) == all)
  {
    hide Flatten;
    StrideEnd(g, t, lpn, last, |t|);
    hide MappedOnly, Stride;
    assert Flatten(groups) + group + [] == Flatten(groups) + group;
  }

  /** One instance's share of the range: successive pages in the same flash page are read at
      once, so successive reads are of different flash pages. */
  method ReadPart(f: ConvFtl, pgsz: nat, parts: nat, part: nat, first: nat, last: nat, ghost t: Tables)
    returns (issued: seq<NandRead>, ghost groups: seq<seq<nat>>)
    requires parts == |t| > 0 && part < |t| && first % |t| == part && f.maptbl[..] == t[part] && pgsz > 0
    requires f.g.pgsPerFlash > 0 && first <= last && last / |t| < f.maptbl.Length
    ensures AllServe(f.g, t, pgsz, issued, groups) && Apart(f.g, issued)
    ensures Flatten(groups) == MappedOnly(f.g, t, Stride(first, last, |t|))
    ensures forall i :: 0 <= i < |issued| ==> issued[i].part == part
  {
    hide SameFlashPage, ValidPpa, Gathered, Issued, Covers, MappedOnly, Stride, Flatten, Located;
    var prev := f.maptbl[FirstEntry(first, last, parts, f.maptbl.Length)];
    var xfer := 0;
    issued, groups := [], [];
    ghost var group: seq<nat> := [];
    ghost var all := MappedOnly(f.g, t, Stride(first, last, parts));
    NothingYet(f.g, t, pgsz, part, prev);
    CoversFirst(f.g, t, first, last);
    var lpn := first;
    while lpn <= last
      invariant first <= lpn && lpn % parts == part
      invariant Gathered(f.g, t, pgsz, part, issued, groups, prev, xfer, group)
      invariant Covers(f.g, t, groups, group, lpn, last, all)
      decreases last + parts - lpn
    {
      var cur := f.maptbl[FirstEntry(lpn, last, parts, f.maptbl.Length)];
      ghost var l: nat := lpn;
      CoversNext(f.g, t, groups, group, l, last, all, cur);
      ModShift(lpn, parts);
      lpn := lpn + parts;
      if cur.None? || !ValidPpa(f.g, cur.value) {
        continue;
      }
      if prev.Some? && SameFlashPage(f.g, cur.value, prev.value) {
        Merged(f.g, t, pgsz, part, issued, groups, prev.value, xfer, group, l);
        xfer := xfer + pgsz;
        group := group + [l];
        continue;
      }
      Flushed(f.g, t, pgsz, part, issued, groups, prev, xfer, group);
      CoversFlushed(f.g, t, groups, group, l, lpn, last, all);
      if xfer > 0 {
        issued, groups := issued + [NandRead(part, prev.value, xfer)], groups + [group];
      }
      Started(f.g, t, pgsz, part, issued, groups, cur.value, l);
      xfer := pgsz;
      prev := cur;
      group := [l];
    }
    CoversLast(f.g, t, groups, group, lpn, last, all);
    Flushed(f.g, t, pgsz, part, issued, groups, prev, xfer, group);
    if xfer > 0 {
      issued, groups := issued + [NandRead(part, prev.value, xfer)], groups + [group];
    }
    IssuedIs(f.g, t, pgsz, part, issued, groups);
  }

  lemma IssuedIs(g: SsdParams, t: Tables, pgsz: nat, part: nat, issued: seq<NandRead>, groups: seq<seq<nat>>)
    requires Issued(g, t, pgsz, part, issued, groups)
    ensures AllServe(g, t, pgsz, issued, groups) && Apart(g, issued)
    ensures forall i :: 0 <= i < |issued| ==> issued[i].part == part
  {
  }

  /** The entry of the instance's table for a page of the range. */
  function FirstEntry(lpn: nat, last: nat, parts: nat, n: nat): (r: nat)
    requires parts > 0 && lpn <= last && last / parts < n
    ensures r == lpn / parts < n
  {
    DivMono(lpn, last, parts);
    lpn / parts
  }

  lemma NothingYet(g: SsdParams, t: Tables, pgsz: nat, part: nat, prev: Option<Ppa>)
    ensures AllServe(g, t, pgsz, [], []) && Gathered(g, t, pgsz, part, [], [], prev, 0, []) && Flatten([]) == []
  {
  }

  lemma NoneApart(g: SsdParams)
    ensures Apart(g, [])
  {
  }

  lemma StrideEnd(g: SsdParams, t: Tables, lpn: nat, last: int, parts: nat)
    requires parts > 0 && lpn > last
    ensures MappedOnly(g, t, Stride(lpn, last, parts)) == []
  {
  }

  lemma OnePage(g: SsdParams, t: Tables, pgsz: nat, part: nat, p: Ppa, lpn: nat)
    requires |t| > 0 && lpn % |t| == part && Located(g, t, lpn) == Some(p) && g.pgsPerFlash > 0
    ensures Pending(g, t, pgsz, part, Some(p), pgsz, [lpn])
  {
  }

  lemma VisitHead(g: SsdParams, t: Tables, lpn: nat, last: int, parts: nat, cur: Option<Ppa>)
    requires parts == |t| > 0 && lpn <= last && lpn / parts < |t[lpn % parts]| && cur == t[lpn % parts][lpn / parts]
    ensures Located(g, t, lpn) == if cur.Some? && ValidPpa(g, cur.value) then cur else None
    ensures MappedOnly(g, t, Stride(lpn, last, parts))
         == (if cur.Some? && ValidPpa(g, cur.value) then [lpn] else [])
            + MappedOnly(g, t, Stride(lpn + parts, last, parts))
  {
    assert Stride(lpn, last, parts)[1..] == Stride(lpn + parts, last, parts);
  }

  lemma {:induction false} FlattenConcat(a: seq<seq<nat>>, b: seq<seq<nat>>)
    ensures Flatten(a + b) == Flatten(a) + Flatten(b)
    decreases |b|
  {
    if b == [] {
      assert a + b == a;
    } else {
      var c := a + b;
      assert c[..|c| - 1] == a + b[..|b| - 1];
      FlattenConcat(a, b[..|b| - 1]);
    }
  }

  lemma {:induction false} MappedConcat(g: SsdParams, t: Tables, a: seq<nat>, b: seq<nat>)
    ensures MappedOnly(g, t, a + b) == MappedOnly(g, t, a) + MappedOnly(g, t, b)
    decreases |a|
  {
    if a == [] {
      assert a + b == b;
    } else {
      assert (a + b)[1..] == a[1..] + b;
      MappedConcat(g, t, a[1..], b);
    }
  }

  /** conv_read. The reads cover exactly the mapped pages of the range, in visiting order; by
      VisitsOnce that is each of them once, and by BytesServed the transfer sizes add up to
      one mapping unit per mapped page. */
  method ConvRead(ftls: seq<ConvFtl>, pgsz: nat, startLpn: nat, endLpn: nat, ghost t: Tables)
    returns (ok: bool, issued: seq<NandRead>, ghost groups: seq<seq<nat>>)
    requires |ftls| > 0 && |t| == |ftls| && pgsz > 0 && startLpn <= endLpn
    requires forall i :: 0 <= i < |ftls| ==> ftls[i].maptbl[..] == t[i] && ftls[i].g == ftls[0].g
                                             && |t[i]| == ftls[0].g.ttPgs
    requires ftls[0].g.pgsPerFlash > 0
    ensures ok <==> endLpn / |ftls| < ftls[0].g.ttPgs
    ensures !ok ==> issued == []
    ensures ok ==> AllServe(ftls[0].g, t, pgsz, issued, groups)
    ensures ok ==> Flatten(groups) == MappedOnly(ftls[0].g, t, VisitsFrom(startLpn, endLpn, |ftls|, 0))
    ensures Apart(ftls[0].g, issued)
    ensures ok ==> TotalBytes(issued) == pgsz * |MappedOnly(ftls[0].g, t, VisitsFrom(startLpn, endLpn, |ftls|, 0))|
  {
    hide Serves, AllServe, Flatten, MappedOnly, Stride, VisitsFrom, TotalBytes, Apart, SameFlashPage;
    NoneApart(ftls[0].g);
    var parts: nat := |ftls|;
    var g := ftls[0].g;
    if endLpn / parts >= g.ttPgs {
      return false, [], [];
    }
    issued, groups := [], [];
    NothingYet(g, t, pgsz, 0, None);
    var i, first := 0, startLpn;
    ghost var all := MappedOnly(g, t, VisitsFrom(startLpn, endLpn, parts, 0));
    assert [] + all == all;
    while i < parts && first <= endLpn
      invariant 0 <= i <= parts && first == startLpn + i
      invariant AllServe(g, t, pgsz, issued, groups)
      invariant Flatten(groups) + MappedOnly(g, t, VisitsFrom(startLpn, endLpn, parts, i)) == all
      invariant Apart(g, issued)
      invariant OfOthers(issued, startLpn, i, parts)
    {
      var part := first % parts;
      var rs, gs := ReadPart(ftls[part], pgsz, parts, part, first, endLpn, t);
      VisitsHead(g, t, startLpn, endLpn, parts, i);
      FlattenConcat(groups, gs);
      JoinServe(g, t, pgsz, issued, groups, rs, gs);
      OthersNext(g, issued, rs, startLpn, i, parts);
      issued, groups := issued + rs, groups + gs;
      i, first := i + 1, first + 1;
    }
    VisitsEnd(g, t, startLpn, endLpn, parts, i);
    assert Flatten(groups) + [] == Flatten(groups);
    BytesServed(g, t, pgsz, issued, groups);
    ok := true;
  }

  lemma ModApart(a: nat, i: nat, j: nat, n: nat)
    requires i < j < n
    ensures (a + i) % n != (a + j) % n
  {
    var q, r := DivMod(a + i, n);
    if r + (j - i) < n { DivUnique(a + j, n, q, r + (j - i)); } else { DivUnique(a + j, n, q + 1, r + (j - i) - n); }
  }

  lemma VisitsHead(g: SsdParams, t: Tables, start: nat, last: int, parts: nat, i: nat)
    requires parts > 0 && i < parts && start + i <= last
    ensures MappedOnly(g, t, VisitsFrom(start, last, parts, i))
         == MappedOnly(g, t, Stride(start + i, last, parts)) + MappedOnly(g, t, VisitsFrom(start, last, parts, i + 1))
  {
    MappedConcat(g, t, Stride(start + i, last, parts), VisitsFrom(start, last, parts, i + 1));
  }

  lemma VisitsEnd(g: SsdParams, t: Tables, start: nat, last: int, parts: nat, i: nat)
    requires parts > 0 && (i >= parts || start + i > last)
    ensures MappedOnly(g, t, VisitsFrom(start, last, parts, i)) == []
  {
  }

  lemma JoinServe(g: SsdParams, t: Tables, pgsz: nat, a: seq<NandRead>, ga: seq<seq<nat>>, b: seq<NandRead>,
                  gb: seq<seq<nat>>)
    requires AllServe(g, t, pgsz, a, ga) && AllServe(g, t, pgsz, b, gb)
    ensures AllServe(g, t, pgsz, a + b, ga + gb)
  {
    hide Serves;
  }
}

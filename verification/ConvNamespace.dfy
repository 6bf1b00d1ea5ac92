/** Host commands on a namespace striped over several FTL instances: logical page n lives in
    instance n % parts as that instance's page n / parts. */
module ConvNamespace {
  import opened Collections
  import opened Wrappers
  import opened Radix
  import opened Geometry
  import opened FtlState
  import opened FtlInstance

  // ---- the namespace as one map ----

  ghost function Lookup(maps: seq<map<nat, int>>, lpn: nat): Option<int>
    requires |maps| > 0
  {
    var m := maps[lpn % |maps|];
    if lpn / |maps| in m then Some(m[lpn / |maps|]) else None
  }

  function Store(maps: seq<map<nat, int>>, lpn: nat, data: int): (r: seq<map<nat, int>>)
    requires |maps| > 0
    ensures |r| == |maps|
  {
    var local: nat := lpn / |maps|;
    var table: map<nat, int> := maps[lpn % |maps|];
    var table': map<nat, int> := table[local := data];
    maps[lpn % |maps| := table']
  }

  /** Striping keeps logical pages apart: a store is seen at its own page and nowhere else. */
  lemma StoreLookup(maps: seq<map<nat, int>>, lpn: nat, data: int, other: nat)
    requires |maps| > 0
    ensures Lookup(Store(maps, lpn, data), other) == if other == lpn then Some(data) else Lookup(maps, other)
  {
    var q, r := DivMod(lpn, |maps|);
    var q', r' := DivMod(other, |maps|);
  }

  function StoreAll(maps: seq<map<nat, int>>, start: nat, data: seq<int>): (r: seq<map<nat, int>>)
    requires |maps| > 0
    ensures |r| == |maps|
    decreases |data|
  {
    if data == [] then maps else Store(StoreAll(maps, start, data[..|data| - 1]), start + |data| - 1, data[|data| - 1])
  }

  /** A range write replaces exactly the pages of the range. */
  lemma {:induction false} StoreAllLookup(maps: seq<map<nat, int>>, start: nat, data: seq<int>, lpn: nat)
    requires |maps| > 0
    ensures |StoreAll(maps, start, data)| == |maps|
    ensures Lookup(StoreAll(maps, start, data), lpn)
         == if start <= lpn < start + |data| then Some(data[lpn - start]) else Lookup(maps, lpn)
    decreases |data|
  {
    if data != [] {
      var front := data[..|data| - 1];
      StoreAllLookup(maps, start, front, lpn);
      StoreLookup(StoreAll(maps, start, front), start + |data| - 1, data[|data| - 1], lpn);
    }
  }

  // ---- instances ----

  ghost function Footprint(f: ConvFtl): set<object> {
    {f, f.maptbl, f.rmap, f.lineVpc, f.lineIpc, f.linePos, f.victimPq, f.victimPq.d}
  }

  /** Instance f is at rest and stores m. */
  ghost predicate Keeps(f: ConvFtl, m: map<nat, int>)
    reads Footprint(f)
  {
    f.Valid() && f.Stored() == m
  }

  method StoreOne(f: ConvFtl, lpn: nat, ghost m: map<nat, int>, ghost data: int)
    requires Keeps(f, m) && lpn < f.g.ttPgs && (lpn in m || |m| < f.capacity)
    modifies Footprint(f)
    ensures Keeps(f, m[lpn := data])
  {
    ghost var _ := f.WritePage(lpn, data);
  }

  /** The instances of a namespace occupy objs, without sharing. */
  ghost predicate Separate(ftls: seq<ConvFtl>, objs: set<object>) {
    && (forall i :: 0 <= i < |ftls| ==> Footprint(ftls[i]) <= objs)
    && (forall i, j :: 0 <= i < |ftls| && 0 <= j < |ftls| && i != j ==> Footprint(ftls[i]) !! Footprint(ftls[j]))
  }

  /** Every instance is at rest and together they store maps. */
  ghost predicate Holds(ftls: seq<ConvFtl>, objs: set<object>, maps: seq<map<nat, int>>)
    reads objs
  {
    && |maps| == |ftls| && Separate(ftls, objs)
    && forall i :: 0 <= i < |ftls| ==> Keeps(ftls[i], maps[i])
  }

  method StorePage(ftls: seq<ConvFtl>, lpn: nat, ghost objs: set<object>, ghost maps: seq<map<nat, int>>,
                   ghost data: int)
    requires |ftls| > 0 && Holds(ftls, objs, maps) && lpn / |ftls| < ftls[lpn % |ftls|].g.ttPgs
    requires lpn / |ftls| in maps[lpn % |ftls|] || |maps[lpn % |ftls|]| < ftls[lpn % |ftls|].capacity
    modifies objs
    ensures Holds(ftls, objs, Store(maps, lpn, data))
  {
    hide Keeps;
    var k := lpn % |ftls|;
    StoreOne(ftls[k], lpn / |ftls|, maps[k], data);
  }

  /** The pages of the range that lie in instance i. */
  ghost function LocalPages(startLpn: nat, endLpn: nat, parts: nat, i: nat): set<nat>
    requires parts > 0
  {
    set lpn: nat | startLpn <= lpn <= endLpn && lpn % parts == i :: lpn / parts
  }

  /** A range write stores nothing but what was stored and the pages of the range. */
  lemma {:induction false} StoreAllWithin(maps: seq<map<nat, int>>, start: nat, data: seq<int>, endLpn: nat, i: nat)
    requires |maps| > 0 && i < |maps| && start + |data| <= endLpn + 1
    ensures StoreAll(maps, start, data)[i].Keys <= maps[i].Keys + LocalPages(start, endLpn, |maps|, i)
    decreases |data|
  {
    if data != [] {
      var front, lpn := data[..|data| - 1], start + |data| - 1;
      StoreAllWithin(maps, start, front, endLpn, i);
      StoreKeys(StoreAll(maps, start, front), lpn, data[|data| - 1], i);
      if lpn % |maps| == i { assert lpn / |maps| in LocalPages(start, endLpn, |maps|, i); }
    }
  }

  lemma StoreKeys(maps: seq<map<nat, int>>, lpn: nat, data: int, i: nat)
    requires |maps| > 0 && i < |maps|
    ensures Store(maps, lpn, data)[i].Keys == if lpn % |maps| == i then maps[i].Keys + {lpn / |maps|} else maps[i].Keys
  {
  }

  /** So the next page of the range finds room, if the range as a whole does. */
  lemma RoomForNext(maps: seq<map<nat, int>>, start: nat, data: seq<int>, endLpn: nat, capacity: nat)
    requires |maps| > 0 && start + |data| <= endLpn
    requires var i := (start + |data|) % |maps|; |maps[i].Keys + LocalPages(start, endLpn, |maps|, i)| <= capacity
    ensures var lpn := start + |data|; var m := StoreAll(maps, start, data)[lpn % |maps|];
            lpn / |maps| in m || |m| < capacity
  {
    var lpn := start + |data|;
    var i := lpn % |maps|;
    var m := StoreAll(maps, start, data)[i];
    StoreAllWithin(maps, start, data, endLpn, i);
    assert lpn / |maps| in LocalPages(start, endLpn, |maps|, i);
    SubsetSize(m.Keys + {lpn / |maps|}, maps[i].Keys + LocalPages(start, endLpn, |maps|, i));
    assert |m.Keys| == |m|;
  }

  lemma StoreNone(maps: seq<map<nat, int>>, start: nat)
    requires |maps| > 0
    ensures StoreAll(maps, start, []) == maps
  {
  }

  /** One turn of the loop: the next page of the range. */
  method StoreNext(ftls: seq<ConvFtl>, startLpn: nat, lpn: nat, endLpn: nat,
                   ghost objs: set<object>, ghost maps: seq<map<nat, int>>, ghost data: seq<int>, ghost page: int)
    requires |ftls| > 0 && startLpn <= lpn <= endLpn && |data| == lpn - startLpn && |maps| == |ftls|
    requires Holds(ftls, objs, StoreAll(maps, startLpn, data)) && lpn / |ftls| < ftls[lpn % |ftls|].g.ttPgs
    requires var i := lpn % |ftls|; |maps[i].Keys + LocalPages(startLpn, endLpn, |ftls|, i)| <= ftls[i].capacity
    modifies objs
    ensures Holds(ftls, objs, StoreAll(maps, startLpn, data + [page]))
  {
    hide Keeps, Store, LocalPages, Holds;
    assert (data + [page])[..|data|] == data;
    RoomForNext(maps, startLpn, data, endLpn, ftls[lpn % |ftls|].capacity);
    StorePage(ftls, lpn, objs, StoreAll(maps, startLpn, data), page);
  }

  /** conv_write: refuses a range beyond the mapping tables, and a write the write buffer has
      no room for, without any effect; otherwise stores every page of the range, as long as no
      instance is made to keep more pages than its capacity. The ghost data is what the host
      sends, page by page. */
  method ConvWrite(ftls: seq<ConvFtl>, startLpn: nat, endLpn: nat, bufferOk: bool,
                   ghost objs: set<object>, ghost maps: seq<map<nat, int>>, ghost data: seq<int>) returns (ok: bool)
    requires |ftls| > 0 && Holds(ftls, objs, maps) && startLpn <= endLpn && |data| == endLpn - startLpn + 1
    requires forall i :: 0 <= i < |ftls| ==> ftls[i].g == ftls[0].g
    requires endLpn / |ftls| < ftls[0].g.ttPgs && bufferOk ==>
               forall i :: 0 <= i < |ftls| ==>
                 |maps[i].Keys + LocalPages(startLpn, endLpn, |ftls|, i)| <= ftls[i].capacity
    modifies objs
    ensures ok <==> endLpn / |ftls| < ftls[0].g.ttPgs && bufferOk
    ensures !ok ==> Holds(ftls, objs, maps)
    ensures ok ==> Holds(ftls, objs, StoreAll(maps, startLpn, data))
  {
    hide Keeps, Store, LocalPages, StoreAll, Separate;
    StoreNone(maps, startLpn);
    if endLpn / |ftls| >= ftls[0].g.ttPgs {
      return false;
    }
    if !bufferOk {
      return false;
    }
    var lpn := startLpn;
    assert data[..0] == [];
    while lpn <= endLpn
      invariant startLpn <= lpn <= endLpn + 1
      invariant Holds(ftls, objs, StoreAll(maps, startLpn, data[..lpn - startLpn]))
    {
      DivMono(lpn, endLpn, |ftls|);
      ghost var n := lpn - startLpn;
      assert data[..n + 1] == data[..n] + [data[n]];
      StoreNext(ftls, startLpn, lpn, endLpn, objs, maps, data[..n], data[n]);
      lpn := lpn + 1;
    }
    assert data[..|data|] == data;
    ok := true;
  }

  // ---- over-provisioning ----

  /** The exported size: physical over logical is 107 to 100. Whatever the size of a line, that
      leaves the four spare lines collection needs as soon as there are 62 lines. */
  lemma SpareLines(lines: nat, perLine: nat, capacity: nat)
    requires lines >= 62 && perLine > 0 && capacity * 107 <= 100 * (lines * perLine)
    ensures capacity < (lines - 4) * perLine
  {
    MulMono(62, lines, perLine);
    assert 107 * ((lines - 4) * perLine) == 107 * (lines * perLine) - 428 * perLine;
    assert 7 * (lines * perLine) >= 434 * perLine;
  }

  /** The bytes exported by a namespace of the given size, per cent sign and all. */
  function ExportedBytes(size: nat): nat {
    size * 100 / 107
  }

  /** Pages of the exported range that can lie in one instance, the last one perhaps in part. */
  function ExportedPages(size: nat, pageBytes: nat, parts: nat): nat
    requires pageBytes > 0 && parts > 0
  {
    DivRoundUp(DivRoundUp(ExportedBytes(size), pageBytes), parts)
  }

  /** A host that stays within the exported range never makes an instance store more pages than that,
      whatever it has written before. */
  lemma WithinExport(stored: set<nat>, startLpn: nat, endLpn: nat, size: nat, pageBytes: nat, parts: nat, i: nat)
    requires pageBytes > 0 && parts > 0 && i < parts && endLpn < DivRoundUp(ExportedBytes(size), pageBytes)
    requires stored <= Below(ExportedPages(size, pageBytes, parts))
    ensures stored + LocalPages(startLpn, endLpn, parts, i) <= Below(ExportedPages(size, pageBytes, parts))
    ensures |stored + LocalPages(startLpn, endLpn, parts, i)| <= ExportedPages(size, pageBytes, parts)
  {
    var n := ExportedPages(size, pageBytes, parts);
    forall x | x in LocalPages(startLpn, endLpn, parts, i) ensures x in Below(n) {
      var lpn: nat :| startLpn <= lpn <= endLpn && lpn % parts == i && lpn / parts == x;
      LocalBelow(lpn, DivRoundUp(ExportedBytes(size), pageBytes), parts);
    }
    SubsetSize(stored + LocalPages(startLpn, endLpn, parts, i), Below(n));
  }

  lemma LocalBelow(lpn: nat, host: nat, parts: nat)
    requires parts > 0 && lpn < host
    ensures lpn / parts < DivRoundUp(host, parts)
  {
    var q, r := DivMod(lpn, parts);
    RoundedUp(host, parts);
    MulMono(DivRoundUp(host, parts), q, parts);
  }

  /** Rounding up loses nothing: an instance's lines hold its share of the device. */
  lemma LinesHoldShare(c: NandConfig, size: nat, parts: nat)
    requires Geometry.ConfigOk(c, size, parts)
    ensures var g := SsdInitParams(c, size, parts); size / parts <= g.ttPgs * c.pageBytes
  {
    hide GeometryOk;
    var g := SsdInitParams(c, size, parts);
    InitParamsGeometry(c, size, parts);
    GeometrySizes(g);
    var blk := BlocksHoldShare(c, size, parts);
    LineBytes(blk, c.oneshotBytes, c.pageBytes, g.oneshotsPerBlk, g.pgsPerBlk, g.blksPerPl, g.ttLuns);
  }

  lemma GeometrySizes(g: SsdParams)
    requires GeometryOk(g)
    ensures g.ttPgs == (g.ttLuns * g.pgsPerBlk) * g.blksPerPl
  {
  }

  /** The size of a block before it is rounded up to whole program units: all blocks of that size hold
      the share. */
  lemma BlocksHoldShare(c: NandConfig, size: nat, parts: nat) returns (blk: nat)
    requires Geometry.ConfigOk(c, size, parts)
    ensures var g := SsdInitParams(c, size, parts);
            && g.oneshotsPerBlk == DivRoundUp(blk, c.oneshotBytes)
                && g.pgsPerBlk == (c.oneshotBytes / c.pageBytes) * g.oneshotsPerBlk
            && size / parts <= (g.blksPerPl * g.ttLuns) * blk
  {
    QuotientPositive(c.channels, parts);
    var cap, luns := size / parts, c.lunsPerCh * (c.channels / parts);
    ProductPositive(c.lunsPerCh, c.channels / parts);
    if c.blksPerPl > 0 {
      ProductPositive(c.blksPerPl, luns);
      blk := DivRoundUp(cap, c.blksPerPl * luns);
      RoundedUp(cap, c.blksPerPl * luns);
    } else {
      ProductPositive(c.blkBytes, luns);
      blk := c.blkBytes;
      RoundedUp(cap, blk * luns);
      Reorder(blk, luns, DivRoundUp(cap, blk * luns));
    }
  }

  lemma LineBytes(blk: nat, oneshot: nat, page: nat, shots: nat, perBlk: nat, n: nat, luns: nat)
    requires page > 0 && oneshot > 0 && oneshot % page == 0 && shots == DivRoundUp(blk, oneshot)
             && perBlk == (oneshot / page) * shots
    ensures (n * luns) * blk <= ((luns * perBlk) * n) * page
  {
    RoundedUp(blk, oneshot);
    WholePages(oneshot, page, shots);
    MulMono(blk, perBlk * page, n * luns);
    TotalPages(n, luns, perBlk, page);
  }

  lemma RoundedUp(a: nat, b: nat)
    requires b > 0
    ensures a <= b * DivRoundUp(a, b) < a + b
  {
    var q, r := DivMod(a + b - 1, b);
  }

  lemma WholePages(oneshot: nat, page: nat, shots: nat)
    requires page > 0 && oneshot % page == 0
    ensures (oneshot / page * shots) * page == oneshot * shots
  {
    var q, r := DivMod(oneshot, page);
    calc { (q * shots) * page; (page * q) * shots; }
  }

  lemma TotalPages(n: nat, luns: nat, perBlk: nat, page: nat)
    ensures ((luns * perBlk) * n) * page == (perBlk * page) * (n * luns)
  {
    calc { ((luns * perBlk) * n) * page; (luns * perBlk) * (n * page); (perBlk * page) * (n * luns); }
  }

  /** With the rounding of the parameter setup counted in, what the namespace exports leaves every
      instance the four spare lines collection needs: always from 91 lines on, and from 62 lines on
      if a line has 35 pages. */
  lemma ExportFits(c: NandConfig, size: nat, parts: nat)
    requires Geometry.ConfigOk(c, size, parts)
    requires var g := SsdInitParams(c, size, parts); g.ttLines >= 91 || (g.ttLines >= 62 && g.pgsPerLine >= 35)
    ensures var g := SsdInitParams(c, size, parts);
            ExportedPages(size, c.pageBytes, parts) < (g.ttLines - 4) * g.pgsPerLine
  {
    var g := SsdInitParams(c, size, parts);
    InitParamsGeometry(c, size, parts);
    LinesHoldShare(c, size, parts);
    LineSize(g);
    var pages := ExportedPages(size, c.pageBytes, parts);
    ExportBound(size, c.pageBytes, parts, g.ttPgs, pages);
    SpareMargin(g.ttLines, g.pgsPerLine, pages);
  }

  /** Exported pages against physical ones, within two pages of rounding. */
  lemma ExportBound(size: nat, page: nat, parts: nat, total: nat, pages: nat)
    requires page > 0 && parts > 0 && size / parts <= total * page && pages == ExportedPages(size, page, parts)
    ensures 107 * pages < 100 * total + 207
  {
    var bytes := ExportedBytes(size);
    var host := DivRoundUp(bytes, page);
    RoundedUp(bytes, page);
    RoundedUp(host, parts);
    var share, rest := DivMod(size, parts);
    assert 107 * bytes <= 100 * size;
    assert page * host < bytes + page && parts * pages < host + parts;
    ExportChain(size, page, parts, total, pages, host, bytes, share);
  }

  lemma ExportChain(size: nat, page: nat, parts: nat, total: nat, pages: nat, host: nat, bytes: nat, share: nat)
    requires page > 0 && parts > 0 && share <= total * page && size < parts * (share + 1)
    requires 107 * bytes <= 100 * size && page * host < bytes + page && parts * pages < host + parts
    ensures 107 * pages < 100 * total + 207
  {
    var pp := page * parts;
    PagesToBytes(page, parts, pages, host);
    SizeToPages(page, parts, total, share);
    var x, t := pp * pages, pp * total;
    assert 107 * x < 100 * t + 207 * pp;
    CancelFactor(107, pages, 100, total, 207, pp);
  }

  lemma PagesToBytes(page: nat, parts: nat, pages: nat, host: nat)
    requires page > 0 && parts > 0 && parts * pages < host + parts
    ensures (page * parts) * pages + page <= page * host + page * parts
  {
    MulMono(parts * pages + 1, host + parts, page);
    Distribute(page, parts, pages, host);
  }

  lemma Distribute(page: nat, parts: nat, pages: nat, host: nat)
    ensures (parts * pages + 1) * page == (page * parts) * pages + page
            && (host + parts) * page == page * host + page * parts
  {
    calc { (parts * pages + 1) * page; (parts * pages) * page + page; (page * parts) * pages + page; }
  }

  lemma SizeToPages(page: nat, parts: nat, total: nat, share: nat)
    requires page > 0 && parts > 0 && share <= total * page
    ensures parts * (share + 1) <= (page * parts) * total + page * parts
  {
    MulMono(share, total * page, parts);
    MulMono(1, page, parts);
    calc { (total * page) * parts; (page * parts) * total; }
    calc { parts * (share + 1); share * parts + parts; }
  }

  lemma Reorder(a: nat, x: nat, f: nat)
    ensures (a * x) * f == a * (f * x)
  {
  }

  lemma CancelFactor(a: nat, x: nat, b: nat, y: nat, c: nat, f: nat)
    requires a * (f * x) < b * (f * y) + c * f
    ensures a * x < b * y + c
  {
    Reorder(a, x, f);
    Reorder(b, y, f);
    var l, r := a * x, b * y;
    SumTimes(r, c, f);
    MulMono(r + c, l, f);
  }

  lemma SpareMargin(lines: nat, perLine: nat, pages: nat)
    requires lines >= 91 || (lines >= 62 && perLine >= 35)
    requires perLine > 0 && 107 * pages < 100 * (perLine * lines) + 207
    ensures pages < (lines - 4) * perLine
  {
    assert 107 * ((lines - 4) * perLine) == 107 * (perLine * lines) - 428 * perLine;
    if lines >= 91 {
      MulMono(91, lines, perLine);
    } else {
      MulMono(62, lines, perLine);
    }
  }

  /** With fewer lines it does not: with 107 pages to a line the export reaches into the spare. */
  lemma TooFewLines(lines: nat)
    requires lines < 62
    ensures var capacity := 100 * lines; capacity * 107 <= 100 * (lines * 107) && capacity > (lines - 4) * 107
  {
  }
}

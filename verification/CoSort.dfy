/** Sorting and counting a sealed window by backend page: the radix sort, the adjacent count and
    the hash count. */
module CoSort {
  import opened Radix
  import opened CoState

  // ---- one stable counting pass, as a value ----

  function Pow256(p: nat): (r: nat)
    ensures r > 0
  {
    if p == 0 then 1 else 256 * Pow256(p - 1)
  }

  /** (u32)(line_tag >> page_shift) for a page of `page` bytes. */
  function Key(e: Ent, page: nat): nat
    requires page > 0
  {
    e.tag / page % 0x1_0000_0000
  }

  function Digit(e: Ent, page: nat, p: nat): (d: nat)
    requires page > 0
    ensures d < 256
  {
    Key(e, page) / Pow256(p) % 256
  }

  /** The part of the key below digit p. */
  function Low(e: Ent, page: nat, p: nat): nat
    requires page > 0
  {
    Key(e, page) % Pow256(p)
  }

  /** The entries with digit v, in order. */
  function WithDigit(s: seq<Ent>, page: nat, p: nat, v: nat): seq<Ent>
    requires page > 0
  {
    if s == [] then []
    else
      var n := |s| - 1;
      WithDigit(s[..n], page, p, v) + (if Digit(s[n], page, p) == v then [s[n]] else [])
  }

  /** The entries with digit 0, then those with digit 1, and so on below k. */
  function Spread(s: seq<Ent>, page: nat, p: nat, k: nat): seq<Ent>
    requires page > 0
  {
    if k == 0 then [] else Spread(s, page, p, k - 1) + WithDigit(s, page, p, k - 1)
  }

  lemma LowStep(e: Ent, page: nat, p: nat)
    requires page > 0
    ensures Low(e, page, p + 1) == Digit(e, page, p) * Pow256(p) + Low(e, page, p)
  {
    var b := Pow256(p);
    var q, low := DivMod(Key(e, page), b);
    var h, d := DivMod(q, 256);
    SumTimes(h * 256, d, b);
    MulAssoc(h, 256, b);
    MulMono(d, 256, b);
    DivUnique(Key(e, page), 256 * b, h, d * b + low);
  }

  // ---- what a pass keeps ----

  predicate SortedLow(s: seq<Ent>, page: nat, p: nat)
    requires page > 0
  {
    forall i, j :: 0 <= i < j < |s| ==> Low(s[i], page, p) <= Low(s[j], page, p)
  }

  predicate AllDigit(s: seq<Ent>, page: nat, p: nat, v: nat)
    requires page > 0
  {
    forall i :: 0 <= i < |s| ==> Digit(s[i], page, p) == v
  }

  predicate DigitsBelow(s: seq<Ent>, page: nat, p: nat, k: nat)
    requires page > 0
  {
    forall i :: 0 <= i < |s| ==> Digit(s[i], page, p) < k
  }

  lemma {:induction false} WithDigitSorted(s: seq<Ent>, page: nat, p: nat, v: nat, bound: nat)
    requires page > 0 && SortedLow(s, page, p) && forall i :: 0 <= i < |s| ==> Low(s[i], page, p) <= bound
    ensures var f := WithDigit(s, page, p, v);
            AllDigit(f, page, p, v) && SortedLow(f, page, p) && forall i :: 0 <= i < |f| ==> Low(f[i], page, p) <= bound
  {
    if s != [] {
      var n := |s| - 1;
      WithDigitSorted(s[..n], page, p, v, Low(s[n], page, p));
    }
  }

  lemma LowBound(s: seq<Ent>, page: nat, p: nat)
    requires page > 0
    ensures forall i :: 0 <= i < |s| ==> Low(s[i], page, p) <= Pow256(p)
  {
  }

  /** Appending the entries of the next digit keeps the order on one more digit. */
  lemma JoinSorted(a: seq<Ent>, b: seq<Ent>, page: nat, p: nat, v: nat)
    requires page > 0 && SortedLow(a, page, p + 1) && DigitsBelow(a, page, p, v)
    requires SortedLow(b, page, p) && AllDigit(b, page, p, v)
    ensures SortedLow(a + b, page, p + 1) && DigitsBelow(a + b, page, p, v + 1)
  {
    var c := a + b;
    forall i, j | 0 <= i < j < |c| ensures Low(c[i], page, p + 1) <= Low(c[j], page, p + 1) {
      LowStep(c[i], page, p);
      LowStep(c[j], page, p);
      if i < |a| <= j { MulMono(Digit(c[i], page, p), v, Pow256(p)); }
    }
  }

  lemma {:induction false} SpreadSorted(s: seq<Ent>, page: nat, p: nat, k: nat)
    requires page > 0 && SortedLow(s, page, p)
    ensures SortedLow(Spread(s, page, p, k), page, p + 1) && DigitsBelow(Spread(s, page, p, k), page, p, k)
  {
    hide Digit, WithDigit;
    if k > 0 {
      SpreadSorted(s, page, p, k - 1);
      LowBound(s, page, p);
      WithDigitSorted(s, page, p, k - 1, Pow256(p));
      JoinSorted(Spread(s, page, p, k - 1), WithDigit(s, page, p, k - 1), page, p, k - 1);
    }
  }

  // ---- permutation and stability ----

  /** The entries of one page, in order. */
  function OfTag(s: seq<Ent>, tag: nat): seq<Ent> {
    if s == [] then [] else OfTag(s[..|s| - 1], tag) + (if s[|s| - 1].tag == tag then [s[|s| - 1]] else [])
  }

  lemma {:induction false} OfTagConcat(a: seq<Ent>, b: seq<Ent>, tag: nat)
    ensures OfTag(a + b, tag) == OfTag(a, tag) + OfTag(b, tag)
  {
    if b == [] {
      assert a + b == a;
    } else {
      var n := |b| - 1;
      assert (a + b)[..|a| + n] == a + b[..n];
      OfTagConcat(a, b[..n], tag);
    }
  }

  function TagDigit(tag: nat, page: nat, p: nat): nat
    requires page > 0
  {
    Digit(Ent(tag, 0, 0, 0), page, p)
  }

  lemma DigitOfTag(e: Ent, page: nat, p: nat)
    requires page > 0
    ensures Digit(e, page, p) == TagDigit(e.tag, page, p)
  {
  }

  lemma OfTagOne(e: Ent, tag: nat)
    ensures OfTag([e], tag) == (if e.tag == tag then [e] else []) && OfTag([], tag) == []
  {
    assert [e][..0] == [];
  }

  lemma {:induction false} OfTagWithDigit(s: seq<Ent>, page: nat, p: nat, v: nat, tag: nat)
    requires page > 0
    ensures OfTag(WithDigit(s, page, p, v), tag) == if TagDigit(tag, page, p) == v then OfTag(s, tag) else []
  {
    hide Digit, TagDigit;
    if s != [] {
      var n := |s| - 1;
      var last := if Digit(s[n], page, p) == v then [s[n]] else [];
      OfTagWithDigit(s[..n], page, p, v, tag);
      OfTagConcat(WithDigit(s[..n], page, p, v), last, tag);
      OfTagOne(s[n], tag);
      DigitOfTag(s[n], page, p);
    }
  }

  lemma {:induction false} SpreadStable(s: seq<Ent>, page: nat, p: nat, k: nat, tag: nat)
    requires page > 0
    ensures OfTag(Spread(s, page, p, k), tag) == if TagDigit(tag, page, p) < k then OfTag(s, tag) else []
  {
    hide Digit, OfTag, WithDigit;
    OfTagOne(Ent(0, 0, 0, 0), tag);
    if k > 0 {
      SpreadStable(s, page, p, k - 1, tag);
      OfTagWithDigit(s, page, p, k - 1, tag);
      OfTagConcat(Spread(s, page, p, k - 1), WithDigit(s, page, p, k - 1), tag);
    }
  }

  lemma CountLast(s: seq<Ent>, x: Ent, e: Ent)
    ensures multiset(s + [x])[e] == multiset(s)[e] + (if x == e then 1 else 0)
  {
  }

  lemma {:induction false} WithDigitCount(s: seq<Ent>, page: nat, p: nat, v: nat, e: Ent)
    requires page > 0
    ensures multiset(WithDigit(s, page, p, v))[e] == if Digit(e, page, p) == v then multiset(s)[e] else 0
  {
    hide Digit;
    if s != [] {
      var n := |s| - 1;
      WithDigitCount(s[..n], page, p, v, e);
      CountLast(s[..n], s[n], e);
      CountLast(WithDigit(s[..n], page, p, v), s[n], e);
      assert s == s[..n] + [s[n]];
    }
  }

  lemma {:induction false} SpreadCount(s: seq<Ent>, page: nat, p: nat, k: nat, e: Ent)
    requires page > 0
    ensures multiset(Spread(s, page, p, k))[e] == if Digit(e, page, p) < k then multiset(s)[e] else 0
  {
    hide Digit, WithDigit;
    if k > 0 {
      SpreadCount(s, page, p, k - 1, e);
      WithDigitCount(s, page, p, k - 1, e);
    }
  }

  lemma SpreadPermutes(s: seq<Ent>, page: nat, p: nat)
    requires page > 0
    ensures multiset(Spread(s, page, p, 256)) == multiset(s) && |Spread(s, page, p, 256)| == |s|
  {
    hide Digit, Spread;
    var r := Spread(s, page, p, 256);
    forall e: Ent ensures multiset(r)[e] == multiset(s)[e] { SpreadCount(s, page, p, 256, e); }
    assert multiset(r) == multiset(s);
    assert |r| == |multiset(r)| && |s| == |multiset(s)|;
  }

  // ---- all passes ----

  function Passes(s: seq<Ent>, page: nat, p: nat): seq<Ent>
    requires page > 0
  {
    if p == 0 then s else Spread(Passes(s, page, p - 1), page, p - 1, 256)
  }

  lemma SortedZero(s: seq<Ent>, page: nat)
    requires page > 0
    ensures SortedLow(s, page, 0)
  {
    assert Pow256(0) == 1;
  }

  lemma {:induction false} PassesSort(s: seq<Ent>, page: nat, p: nat)
    requires page > 0
    ensures var r := Passes(s, page, p); SortedLow(r, page, p) && multiset(r) == multiset(s) && |r| == |s|
  {
    hide SortedLow, Spread;
    if p == 0 {
      SortedZero(s, page);
    } else {
      PassesSort(s, page, p - 1);
      SpreadSorted(Passes(s, page, p - 1), page, p - 1, 256);
      SpreadPermutes(Passes(s, page, p - 1), page, p - 1);
    }
  }

  lemma {:induction false} PassesStable(s: seq<Ent>, page: nat, p: nat, tag: nat)
    requires page > 0
    ensures OfTag(Passes(s, page, p), tag) == OfTag(s, tag)
  {
    if p > 0 {
      PassesStable(s, page, p - 1, tag);
      SpreadStable(Passes(s, page, p - 1), page, p - 1, 256, tag);
    }
  }

  predicate SortedByTag(s: seq<Ent>) {
    forall i, j :: 0 <= i < j < |s| ==> s[i].tag <= s[j].tag
  }

  /** An entry filled from a request: a 32-bit node and its page's tag. */
  predicate EntOk(z: Store, e: Ent) {
    StoreOk(z) && e.node < 0x1_0000_0000 && e.tag == TagOf(z, e.node)
  }

  predicate EntsOk(z: Store, s: seq<Ent>) {
    forall e :: e in s ==> EntOk(z, e)
  }

  /** Because a row divides a page, the page index of a 32-bit node fits 32 bits. */
  lemma KeyExact(z: Store, e: Ent)
    requires EntOk(z, e)
    ensures Low(e, z.page, 4) * z.page == e.tag
  {
    var q, off := DivMod(e.node * z.row, z.page);
    calc { e.tag; q * z.page + off - off; q * z.page; }
    DivUnique(e.tag, z.page, q, 0);
    PageIndexBound(q, z.page, off, e.node, z.row);
    assert Pow256(4) == 0x1_0000_0000 by { assert Pow256(2) == 0x1_0000; }
  }

  lemma PageIndexBound(q: nat, page: nat, off: nat, node: nat, row: nat)
    requires q * page + off == node * row && 0 < row <= page && node < 0x1_0000_0000
    ensures q < 0x1_0000_0000
  {
    if q > node {
      MulMono(node, q, page);
      assert node * row <= node * page by { MulMono(row, page, node); }
    }
  }

  /** What radix_by_page computes: the window sorted by page, a permutation, and stable. */
  lemma RadixSorts(z: Store, s: seq<Ent>)
    requires StoreOk(z) && EntsOk(z, s)
    ensures var r := Passes(s, z.page, 4);
            SortedByTag(r) && multiset(r) == multiset(s) && forall tag :: OfTag(r, tag) == OfTag(s, tag)
  {
    var r := Passes(s, z.page, 4);
    PassesSort(s, z.page, 4);
    forall tag ensures OfTag(r, tag) == OfTag(s, tag) { PassesStable(s, z.page, 4, tag); }
    forall i, j | 0 <= i < j < |r| ensures r[i].tag <= r[j].tag {
      assert r[i] in multiset(s) && r[j] in multiset(s);
      KeyExact(z, r[i]);
      KeyExact(z, r[j]);
      MulMono(Low(r[i], z.page, 4), Low(r[j], z.page, 4), z.page);
    }
  }

  // ---- the loops ----

  lemma {:induction false} SpreadMono(s: seq<Ent>, page: nat, p: nat, v: nat, k: nat)
    requires page > 0 && v < k
    ensures |Spread(s, page, p, v)| + |WithDigit(s, page, p, v)| == |Spread(s, page, p, v + 1)|
    ensures |Spread(s, page, p, v + 1)| <= |Spread(s, page, p, k)|
    ensures Spread(s, page, p, k)[|Spread(s, page, p, v)|..|Spread(s, page, p, v + 1)|] == WithDigit(s, page, p, v)
  {
    hide WithDigit;
    if v + 1 < k {
      SpreadMono(s, page, p, v, k - 1);
      var a, b := |Spread(s, page, p, v)|, |Spread(s, page, p, v + 1)|;
      assert Spread(s, page, p, k)[a..b] == Spread(s, page, p, k - 1)[a..b];
    }
  }

  lemma {:induction false} WithDigitPrefix(s: seq<Ent>, page: nat, p: nat, v: nat, i: nat)
    requires page > 0 && i <= |s|
    ensures |WithDigit(s[..i], page, p, v)| <= |WithDigit(s, page, p, v)|
  {
    if i < |s| {
      var n := |s| - 1;
      WithDigitPrefix(s[..n], page, p, v, i);
      assert s[..n][..i] == s[..i];
    } else {
      assert s[..i] == s;
    }
  }

  lemma WithDigitNext(s: seq<Ent>, page: nat, p: nat, v: nat, i: nat)
    requires page > 0 && i < |s|
    ensures WithDigit(s[..i + 1], page, p, v) ==
            WithDigit(s[..i], page, p, v) + (if Digit(s[i], page, p) == v then [s[i]] else [])
  {
    assert s[..i + 1][..i] == s[..i];
  }

  /** The next entry with its digit has room left in its segment. */
  lemma SegmentRoom(s: seq<Ent>, page: nat, p: nat, i: nat)
    requires page > 0 && i < |s|
    ensures var d := Digit(s[i], page, p);
            |WithDigit(s[..i], page, p, d)| < |WithDigit(s, page, p, d)|
  {
    var d := Digit(s[i], page, p);
    WithDigitNext(s, page, p, d, i);
    WithDigitPrefix(s, page, p, d, i + 1);
  }

  /** Where the segment of digit v starts, and how much of it the first i entries fill. */
  ghost function Start(s: seq<Ent>, page: nat, p: nat, v: nat): nat
    requires page > 0
  {
    |Spread(s, page, p, v)|
  }

  ghost function Fill(s: seq<Ent>, page: nat, p: nat, v: nat, i: nat): nat
    requires page > 0 && i <= |s|
  {
    |WithDigit(s[..i], page, p, v)|
  }

  ghost predicate Histogram(cnt: seq<nat>, s: seq<Ent>, page: nat, p: nat, i: nat)
    requires page > 0 && i <= |s|
  {
    |cnt| == 256 && forall v :: 0 <= v < 256 ==> cnt[v] == Fill(s, page, p, v, i)
  }

  /** The first b counters hold segment starts, the others still counts. */
  ghost predicate Starts(cnt: seq<nat>, s: seq<Ent>, page: nat, p: nat, b: nat)
    requires page > 0
  {
    && |cnt| == 256
    && (forall v :: 0 <= v < b && v < 256 ==> cnt[v] == Start(s, page, p, v))
    && (forall v :: b <= v < 256 ==> cnt[v] == Fill(s, page, p, v, |s|))
  }

  ghost predicate Cursors(cnt: seq<nat>, s: seq<Ent>, page: nat, p: nat, i: nat)
    requires page > 0 && i <= |s|
  {
    |cnt| == 256 && forall v :: 0 <= v < 256 ==> cnt[v] == Start(s, page, p, v) + Fill(s, page, p, v, i)
  }

  /** Segment v holds the entries with digit v among the first i. */
  ghost predicate Segment(dst: seq<Ent>, s: seq<Ent>, page: nat, p: nat, v: nat, i: nat)
    requires page > 0 && i <= |s|
  {
    var b, f := Start(s, page, p, v), WithDigit(s[..i], page, p, v);
    b + |f| <= |dst| && dst[b..b + |f|] == f
  }

  ghost predicate Segments(dst: seq<Ent>, s: seq<Ent>, page: nat, p: nat, i: nat)
    requires page > 0 && i <= |s|
  {
    forall v :: 0 <= v < 256 ==> Segment(dst, s, page, p, v, i)
  }

  lemma CountOne(cnt: seq<nat>, s: seq<Ent>, page: nat, p: nat, i: nat)
    requires page > 0 && i < |s| && Histogram(cnt, s, page, p, i)
    ensures var d := Digit(s[i], page, p); Histogram(cnt[d := cnt[d] + 1], s, page, p, i + 1)
  {
    var d := Digit(s[i], page, p);
    var i', cnt' := i + 1, cnt[d := cnt[d] + 1];
    forall v | 0 <= v < 256 ensures cnt'[v] == Fill(s, page, p, v, i') {
      WithDigitNext(s, page, p, v, i);
    }
  }

  lemma StartNext(cnt: seq<nat>, s: seq<Ent>, page: nat, p: nat, b: nat)
    requires page > 0 && b < 256 && Starts(cnt, s, page, p, b)
    ensures Starts(cnt[b := Start(s, page, p, b)], s, page, p, b + 1)
    ensures Start(s, page, p, b) + cnt[b] == Start(s, page, p, b + 1)
  {
    assert s[..|s|] == s;
  }

  lemma CursorsStart(cnt: seq<nat>, s: seq<Ent>, page: nat, p: nat, dst: seq<Ent>)
    requires page > 0 && Starts(cnt, s, page, p, 256) && |s| <= |dst|
    ensures Cursors(cnt, s, page, p, 0) && Segments(dst, s, page, p, 0)
  {
    forall v | 0 <= v < 256 ensures Segment(dst, s, page, p, v, 0) && Fill(s, page, p, v, 0) == 0 {
      SpreadMono(s, page, p, v, 256);
      SpreadPermutes(s, page, p);
      assert s[..0] == [];
    }
  }

  lemma CursorNext(cnt: seq<nat>, s: seq<Ent>, page: nat, p: nat, i: nat)
    requires page > 0 && i < |s| && Cursors(cnt, s, page, p, i)
    ensures var d := Digit(s[i], page, p); cnt[d] < |s| && Cursors(cnt[d := cnt[d] + 1], s, page, p, i + 1)
  {
    var d := Digit(s[i], page, p);
    var i', cnt' := i + 1, cnt[d := cnt[d] + 1];
    forall v | 0 <= v < 256 ensures cnt'[v] == Start(s, page, p, v) + Fill(s, page, p, v, i') {
      WithDigitNext(s, page, p, v, i);
    }
    SegmentRoom(s, page, p, i);
    SpreadMono(s, page, p, d, 256);
    SpreadPermutes(s, page, p);
  }

  /** A write outside a stretch leaves it alone; one just past it extends it. */
  lemma StretchWrite(dst: seq<Ent>, b: nat, f: seq<Ent>, at: nat, e: Ent)
    requires b + |f| <= |dst| && dst[b..b + |f|] == f && at < |dst| && (at < b || at >= b + |f|)
    ensures dst[at := e][b..b + |f|] == f
    ensures at == b + |f| ==> dst[at := e][b..b + |f| + 1] == f + [e]
  {
  }

  lemma SegmentNext(dst: seq<Ent>, s: seq<Ent>, page: nat, p: nat, v: nat, i: nat, at: nat)
    requires page > 0 && i < |s| <= |dst| && v < 256 && Segment(dst, s, page, p, v, i)
    requires at == Start(s, page, p, Digit(s[i], page, p)) + Fill(s, page, p, Digit(s[i], page, p), i) < |dst|
    ensures Segment(dst[at := s[i]], s, page, p, v, i + 1)
  {
    hide Digit, WithDigit, Spread;
    var d, b, f := Digit(s[i], page, p), Start(s, page, p, v), WithDigit(s[..i], page, p, v);
    WithDigitNext(s, page, p, v, i);
    SegmentRoom(s, page, p, i);
    WithDigitPrefix(s, page, p, v, i);
    if v < d { SpreadMono(s, page, p, v, d); }
    if d < v { SpreadMono(s, page, p, d, v); }
    StretchWrite(dst, b, f, at, s[i]);
  }

  lemma SegmentsNext(dst: seq<Ent>, s: seq<Ent>, page: nat, p: nat, i: nat, at: nat)
    requires page > 0 && i < |s| <= |dst| && Segments(dst, s, page, p, i)
    requires at == Start(s, page, p, Digit(s[i], page, p)) + Fill(s, page, p, Digit(s[i], page, p), i) < |dst|
    ensures Segments(dst[at := s[i]], s, page, p, i + 1)
  {
    hide Digit, Segment;
    var i', dst' := i + 1, dst[at := s[i]];
    forall v | 0 <= v < 256 ensures Segment(dst', s, page, p, v, i') {
      assert Segment(dst, s, page, p, v, i);
      SegmentNext(dst, s, page, p, v, i, at);
    }
  }

  /** All segments filled, the destination is the whole spread. */
  lemma {:induction false} SegmentsMeet(dst: seq<Ent>, s: seq<Ent>, page: nat, p: nat, k: nat)
    requires page > 0 && |s| <= |dst| && k <= 256 && Segments(dst, s, page, p, |s|)
    ensures |Spread(s, page, p, k)| <= |dst| && dst[..|Spread(s, page, p, k)|] == Spread(s, page, p, k)
  {
    if k > 0 {
      SegmentsMeet(dst, s, page, p, k - 1);
      assert Segment(dst, s, page, p, k - 1, |s|) && s[..|s|] == s;
      var b, f := Start(s, page, p, k - 1), WithDigit(s, page, p, k - 1);
      assert dst[..b + |f|] == dst[..b] + dst[b..b + |f|];
    }
  }

  /** One counting pass of radix_by_page. */
  method RadixPass(src: array<Ent>, dst: array<Ent>, n: nat, page: nat, p: nat, cnt: array<nat>)
    requires page > 0 && cnt.Length == 256 && src != dst && n <= src.Length && n <= dst.Length
    modifies dst, cnt
    ensures dst[..n] == Spread(src[..n], page, p, 256)
  {
    hide Digit, Spread, WithDigit, Segments, Cursors, Starts, Histogram;
    ghost var s := src[..n];
    ClearCounts(cnt, s, page, p);
    var i := 0;
    while i < n
      invariant i <= n && src[..n] == s && Histogram(cnt[..], s, page, p, i)
    {
      var d := Digit(src[i], page, p);
      CountOne(cnt[..], s, page, p, i);
      ghost var was := cnt[..];
      cnt[d] := cnt[d] + 1;
      assert cnt[..] == was[d := was[d] + 1];
      i := i + 1;
    }
    PrefixSums(cnt, s, page, p);
    CursorsStart(cnt[..], s, page, p, dst[..]);
    i := 0;
    while i < n
      invariant i <= n && src[..n] == s && Cursors(cnt[..], s, page, p, i) && Segments(dst[..], s, page, p, i)
    {
      var d := Digit(src[i], page, p);
      CursorNext(cnt[..], s, page, p, i);
      CursorAt(cnt[..], s, page, p, i, d);
      SegmentsNext(dst[..], s, page, p, i, cnt[d]);
      ghost var was, dwas := cnt[..], dst[..];
      dst[cnt[d]] := src[i];
      assert dst[..] == dwas[was[d] := s[i]];
      cnt[d] := cnt[d] + 1;
      assert cnt[..] == was[d := was[d] + 1];
      i := i + 1;
    }
    SegmentsMeet(dst[..], s, page, p, 256);
    SpreadPermutes(s, page, p);
  }

  lemma CursorAt(cnt: seq<nat>, s: seq<Ent>, page: nat, p: nat, i: nat, v: nat)
    requires page > 0 && i <= |s| && Cursors(cnt, s, page, p, i) && v < 256
    ensures cnt[v] == Start(s, page, p, v) + Fill(s, page, p, v, i)
  {
  }

  method ClearCounts(cnt: array<nat>, ghost s: seq<Ent>, page: nat, p: nat)
    requires page > 0 && cnt.Length == 256
    modifies cnt
    ensures Histogram(cnt[..], s, page, p, 0)
  {
    for v := 0 to 256
      invariant forall u :: 0 <= u < v ==> cnt[u] == 0
    {
      cnt[v] := 0;
    }
    assert s[..0] == [];
  }

  /** Turns the counts into running starts. */
  method PrefixSums(cnt: array<nat>, ghost s: seq<Ent>, page: nat, p: nat)
    requires page > 0 && cnt.Length == 256 && Histogram(cnt[..], s, page, p, |s|)
    modifies cnt
    ensures Starts(cnt[..], s, page, p, 256)
  {
    var b, sum := 0, 0;
    while b < 256
      invariant b <= 256 && Starts(cnt[..], s, page, p, b) && sum == Start(s, page, p, b)
    {
      hide Start, Fill, Starts, Histogram;
      StartNext(cnt[..], s, page, p, b);
      ghost var was := cnt[..];
      var c := cnt[b];
      cnt[b] := sum;
      assert cnt[..] == was[b := sum];
      sum := sum + c;
      b := b + 1;
    }
  }

  /** radix_by_page: four passes back and forth between the two buffers; the result is in the
      first again. */
  method RadixByPage(a: array<Ent>, b: array<Ent>, n: nat, page: nat, cnt: array<nat>)
    requires page > 0 && cnt.Length == 256 && a != b && n <= a.Length && n <= b.Length
    modifies a, b, cnt
    ensures a[..n] == Passes(old(a[..n]), page, 4)
  {
    hide Spread;
    var src, dst, pass := a, b, 0;
    while pass < 4
      invariant pass <= 4 && (if pass % 2 == 0 then src == a && dst == b else src == b && dst == a)
      invariant src[..n] == Passes(old(a[..n]), page, pass)
    {
      RadixPass(src, dst, n, page, pass, cnt);
      src, dst := dst, src;
      pass := pass + 1;
    }
  }
}

/** The translation layer counted line by line: how many valid pages each line holds, which lines are
    free, where the two write pointers stand, and the credits. Which page is written or copied does not
    matter here, only the line it leaves. */
module FtlTally {
  import opened Collections
  import opened Wrappers
  import Arith = Radix

  datatype Tally = Tally(vpc: seq<int>, free: seq<nat>, user: nat, u: nat, gc: nat, k: nat, credits: int, refill: int,
                         stored: nat)

  /** Neither free nor open. */
  predicate Closed(t: Tally, l: nat) {
    l < |t.vpc| && l !in t.free && l != t.user && l != t.gc
  }

  /** No closed line has an invalid page. */
  ghost predicate AllFull(per: nat, t: Tally) {
    forall l: nat :: Closed(t, l) ==> t.vpc[l] == per
  }

  /** A closed line with an invalid page and no more valid pages than any other. */
  ghost predicate Least(per: nat, t: Tally, v: nat) {
    && Closed(t, v) && t.vpc[v] < per
    && forall l: nat :: Closed(t, l) ==> t.vpc[v] <= t.vpc[l]
  }

  function Total(a: seq<int>): int {
    if a == [] then 0 else Total(a[..|a| - 1]) + a[|a| - 1]
  }

  ghost predicate TallyOk(per: nat, t: Tally) {
    && t.user < |t.vpc| && t.gc < |t.vpc| && t.user != t.gc && t.u < per && t.k < per
    && NoDup(t.free) && (forall l :: l in t.free ==> l < |t.vpc| && l != t.user && l != t.gc && t.vpc[l] == 0)
    && (forall l :: 0 <= l < |t.vpc| ==> 0 <= t.vpc[l] <= per)
    && t.vpc[t.user] <= t.u && t.vpc[t.gc] <= t.k && Total(t.vpc) == t.stored
  }

  // ---- steps ----

  /** A page leaves line l, or is stored for the first time (l is -1), and is programmed in the user's
      line, for a credit. */
  function Place(t: Tally, l: int): Tally
    requires l < |t.vpc| && t.user < |t.vpc|
  {
    var less := if l < 0 then t.vpc else t.vpc[l := t.vpc[l] - 1];
    t.(vpc := less[t.user := less[t.user] + 1], u := t.u + 1, stored := if l < 0 then t.stored + 1 else t.stored,
       credits := t.credits - 1)
  }

  /** A used-up line of the user is closed and the first free one opened, if there is one. */
  function Put(per: nat, t: Tally, l: int): Option<Tally>
    requires l < |t.vpc| && t.user < |t.vpc|
  {
    var s := Place(t, l);
    if s.u != per then Some(s)
    else if s.free == [] then None
    else Some(s.(user := s.free[0], u := 0, free := s.free[1..]))
  }

  /** A page is copied to the collector's line. */
  function CopyOne(per: nat, t: Tally): Option<Tally>
    requires t.gc < |t.vpc|
  {
    var s := t.(vpc := t.vpc[t.gc := t.vpc[t.gc] + 1], k := t.k + 1);
    if s.k != per then Some(s)
    else if s.free == [] then None
    else Some(s.(gc := s.free[0], k := 0, free := s.free[1..]))
  }

  function Copies(per: nat, t: Tally, n: nat): Option<Tally> {
    if n == 0 then Some(t)
    else
      match Copies(per, t, n - 1)
      case None => None
      case Some(s) => if s.gc < |s.vpc| then CopyOne(per, s) else None
  }

  /** Line v is collected: its valid pages copied, the line freed, its invalid pages the next
      allowance. */
  function Gather(per: nat, t: Tally, v: nat): Option<Tally>
    requires v < |t.vpc| && t.vpc[v] >= 0
  {
    match Copies(per, t.(refill := per - t.vpc[v]), t.vpc[v])
    case None => None
    case Some(s) => if v < |s.vpc| then Some(s.(vpc := s.vpc[v := 0], free := s.free + [v])) else None
  }

  function Allow(t: Tally): Tally {
    t.(credits := t.credits + t.refill)
  }

  // ---- what the steps come to ----

  lemma {:induction false} TotalSet(a: seq<int>, i: nat, x: int)
    requires i < |a|
    ensures Total(a[i := x]) == Total(a) - a[i] + x
  {
    var n := |a| - 1;
    assert a[i := x][..n] == if i < n then a[..n][i := x] else a[..n];
    if i < n { TotalSet(a[..n], i, x); }
  }

  lemma DropFirst(free: seq<nat>)
    requires NoDup(free) && free != []
    ensures NoDup(free[1..]) && (forall l :: l in free[1..] <==> l in free && l != free[0])
  {
    assert forall i :: 0 <= i < |free[1..]| ==> free[1..][i] == free[i + 1];
    forall l | l in free && l != free[0] ensures l in free[1..] {
      var i :| 0 <= i < |free| && free[i] == l;
      assert free[1..][i - 1] == l;
    }
  }

  /** The line a page may leave: one that holds a valid page, or none. */
  predicate From(t: Tally, l: int) {
    l < |t.vpc| && (l >= 0 ==> t.vpc[l] > 0)
  }

  lemma PlaceOk(per: nat, t: Tally, l: int)
    requires TallyOk(per, t) && From(t, l)
    ensures var s := Place(t, l);
            && |s.vpc| == |t.vpc| && Total(s.vpc) == s.stored && (forall x :: 0 <= x < |s.vpc| ==> 0 <= s.vpc[x] <= per)
            && s.vpc[s.user] <= s.u && s.vpc[s.gc] <= s.k && forall x :: x in s.free ==> s.vpc[x] == 0
  {
    hide NoDup, Total;
    var less := if l < 0 then t.vpc else t.vpc[l := t.vpc[l] - 1];
    if l >= 0 { TotalSet(t.vpc, l, t.vpc[l] - 1); }
    TotalSet(less, t.user, less[t.user] + 1);
  }

  /** A write keeps the tally sound. */
  lemma PutOk(per: nat, t: Tally, l: int)
    requires TallyOk(per, t) && From(t, l)
    ensures Put(per, t, l).None? <==> t.u + 1 == per && t.free == []
    ensures Put(per, t, l).Some? ==> TallyOk(per, Put(per, t, l).value)
  {
    PlaceOk(per, t, l);
    hide Place, Total;
    assert Place(t, l).free == t.free && Place(t, l).user == t.user && Place(t, l).gc == t.gc
           && Place(t, l).u == t.u + 1 && Place(t, l).k == t.k by { PlaceKeeps(t, l); }
    if t.free != [] {
      DropFirst(t.free);
      assert t.free[0] in t.free;
    }
  }

  lemma PlaceKeeps(t: Tally, l: int)
    requires l < |t.vpc| && t.user < |t.vpc|
    ensures var s := Place(t, l);
            s.free == t.free && s.user == t.user && s.gc == t.gc && s.u == t.u + 1 && s.k == t.k
  {
  }

  /** n copies: they go to the collector's line, and what that cannot hold to the first free line. */
  lemma {:induction false} CopiesIs(per: nat, t: Tally, n: nat)
    requires TallyOk(per, t) && n < per
    ensures Copies(per, t, n) ==
            if t.k + n < per then Some(t.(vpc := t.vpc[t.gc := t.vpc[t.gc] + n], k := t.k + n))
            else if t.free == [] || t.free[0] >= |t.vpc| then None
            else Some(t.(vpc := t.vpc[t.gc := t.vpc[t.gc] + (per - t.k)][t.free[0] := t.k + n - per], gc := t.free[0],
                         k := t.k + n - per, free := t.free[1..]))
  {
    hide NoDup, Total;
    if n == 0 {
      assert t.vpc[t.gc := t.vpc[t.gc] + 0] == t.vpc;
    } else {
      CopiesIs(per, t, n - 1);
      var a := t.vpc[t.gc];
      if t.k + n <= per {
        assert t.vpc[t.gc := a + (n - 1)][t.gc := a + (n - 1) + 1] == t.vpc[t.gc := a + n];
      }
      if t.k + n >= per && t.free != [] {
        var full, f := t.vpc[t.gc := a + (per - t.k)], t.free[0];
        assert f in t.free;
        assert full[f := 0] == full;
        assert full[f := t.k + n - 1 - per][f := t.k + n - per] == full[f := t.k + n - per];
      }
    }
  }

  /** Copies can be made while the collector's line or a free one has room. */
  lemma {:induction false} CopiesSome(per: nat, t: Tally, n: nat)
    requires t.gc < |t.vpc| && t.k < per && n < per && (t.free != [] ==> t.free[0] < |t.vpc|)
    requires t.k + n < per || t.free != []
    ensures Copies(per, t, n).Some?
    ensures var s := Copies(per, t, n).value;
            |s.vpc| == |t.vpc| && s.gc < |s.vpc| && s.k == (if t.k + n < per then t.k + n else t.k + n - per)
            && (t.k + n < per ==> s.free == t.free)
  {
    if n > 0 { CopiesSome(per, t, n - 1); }
  }

  /** A copy that finds no line is not made up for. */
  lemma {:induction false} NoneStays(per: nat, t: Tally, m: nat, n: nat)
    requires m <= n && Copies(per, t, m).None?
    ensures Copies(per, t, n).None?
  {
    if m < n { NoneStays(per, t, m, n - 1); }
  }

  lemma {:induction false} CopiesStored(per: nat, t: Tally, n: nat, x: nat)
    ensures Copies(per, t.(stored := x), n) ==
            match Copies(per, t, n) case None => None case Some(s) => Some(s.(stored := x))
  {
    hide CopyOne;
    if n > 0 {
      CopiesStored(per, t, n - 1, x);
      match Copies(per, t, n - 1) {
        case None =>
        case Some(s) => if s.gc < |s.vpc| { CopyStored(per, s, x); }
      }
    }
  }

  lemma CopyStored(per: nat, t: Tally, x: nat)
    requires t.gc < |t.vpc|
    ensures CopyOne(per, t.(stored := x)) ==
            match CopyOne(per, t) case None => None case Some(s) => Some(s.(stored := x))
  {
  }

  /** What a collection comes to: the victim's pages fit the collector's line, or run over into the
      first free one, or there is none. */
  lemma GatherIs(per: nat, t: Tally, v: nat)
    requires TallyOk(per, t) && Closed(t, v) && t.vpc[v] < per
    ensures Gather(per, t, v).None? <==> t.k + t.vpc[v] >= per && t.free == []
    ensures t.k + t.vpc[v] < per ==>
              Gather(per, t, v) == Some(t.(vpc := t.vpc[t.gc := t.vpc[t.gc] + t.vpc[v]][v := 0], k := t.k + t.vpc[v],
                                           free := t.free + [v], refill := per - t.vpc[v]))
    ensures t.k + t.vpc[v] >= per && t.free != [] ==>
              t.free[0] < |t.vpc| &&
              Gather(per, t, v) == Some(t.(vpc := t.vpc[t.gc := t.vpc[t.gc] + (per - t.k)]
                                                    [t.free[0] := t.k + t.vpc[v] - per][v := 0],
                                           gc := t.free[0], k := t.k + t.vpc[v] - per, free := t.free[1..] + [v],
                                           refill := per - t.vpc[v]))
  {
    hide NoDup, Total, Copies;
    if t.free != [] { assert t.free[0] in t.free; }
    CopiesIs(per, t.(refill := per - t.vpc[v]), t.vpc[v]);
  }

  lemma AddLast(free: seq<nat>, v: nat)
    requires NoDup(free) && v !in free
    ensures NoDup(free + [v])
  {
  }

  /** Valid pages moved between lines, freeing v, keep the counts sound. */
  lemma MovedOk(per: nat, vpc: seq<int>, a: nat, x: int, f: nat, z: int, v: nat)
    requires a < |vpc| && f < |vpc| && v < |vpc| && a != f && a != v && f != v
    requires (forall l :: 0 <= l < |vpc| ==> 0 <= vpc[l] <= per) && 0 <= x && 0 <= z <= per && vpc[a] + x <= per
    requires vpc[f] == 0 && x + z == vpc[v]
    ensures var b := vpc[a := vpc[a] + x][f := z][v := 0];
            Total(b) == Total(vpc) && forall l :: 0 <= l < |vpc| ==> 0 <= b[l] <= per
  {
    hide Total;
    var b := vpc[a := vpc[a] + x];
    TotalSet(vpc, a, vpc[a] + x);
    TotalSet(b, f, z);
    TotalSet(b[f := z], v, 0);
  }

  lemma GatherFits(per: nat, t: Tally, v: nat)
    requires TallyOk(per, t) && Closed(t, v) && t.k + t.vpc[v] < per
    ensures TallyOk(per, t.(vpc := t.vpc[t.gc := t.vpc[t.gc] + t.vpc[v]][v := 0], k := t.k + t.vpc[v],
                            free := t.free + [v], refill := per - t.vpc[v]))
  {
    hide Total;
    TotalSet(t.vpc, t.gc, t.vpc[t.gc] + t.vpc[v]);
    TotalSet(t.vpc[t.gc := t.vpc[t.gc] + t.vpc[v]], v, 0);
  }

  lemma GatherCrosses(per: nat, t: Tally, v: nat)
    requires TallyOk(per, t) && Closed(t, v) && t.vpc[v] < per <= t.k + t.vpc[v] && t.free != []
    ensures t.free[0] < |t.vpc|
    ensures TallyOk(per, t.(vpc := t.vpc[t.gc := t.vpc[t.gc] + (per - t.k)][t.free[0] := t.k + t.vpc[v] - per][v := 0],
                            gc := t.free[0], k := t.k + t.vpc[v] - per, free := t.free[1..] + [v],
                            refill := per - t.vpc[v]))
  {
    hide NoDup, Total;
    var f := t.free[0];
    assert f in t.free;
    DropFirst(t.free);
    AddLast(t.free[1..], v);
    MovedOk(per, t.vpc, t.gc, per - t.k, f, t.k + t.vpc[v] - per, v);
  }

  /** A collection keeps the tally sound. */
  lemma GatherOk(per: nat, t: Tally, v: nat)
    requires TallyOk(per, t) && Closed(t, v) && t.vpc[v] < per && Gather(per, t, v).Some?
    ensures TallyOk(per, Gather(per, t, v).value)
  {
    GatherIs(per, t, v);
    hide TallyOk, Gather;
    if t.k + t.vpc[v] < per { GatherFits(per, t, v); } else { GatherCrosses(per, t, v); }
  }

  // ---- what a step changes, line by line ----

  /** Where the pointers stand, what the open lines hold, how many lines are free, and the credits. */
  ghost predicate Shape(t: Tally, u: nat, uv: int, k: nat, gv: int, f: nat, c: int, a: int) {
    && t.user < |t.vpc| && t.gc < |t.vpc| && t.u == u && t.vpc[t.user] == uv && t.k == k && t.vpc[t.gc] == gv
    && |t.free| == f && t.credits == c && t.refill == a
  }

  lemma PutIs(per: nat, t: Tally, l: int)
    requires TallyOk(per, t) && From(t, l) && -1 <= l && (t.u + 1 == per ==> t.free != [])
    ensures Put(per, t, l).Some?
    ensures var s, uv, gv := Put(per, t, l).value, t.vpc[t.user] + One(l != t.user), t.vpc[t.gc] - One(l == t.gc);
            && TallyOk(per, s) && |s.vpc| == |t.vpc| && s.stored == t.stored + One(l == -1)
            && (if t.u + 1 < per then Shape(s, t.u + 1, uv, t.k, gv, |t.free|, t.credits - 1, t.refill)
                else Shape(s, 0, 0, t.k, gv, |t.free| - 1, t.credits - 1, t.refill) && s.vpc[t.user] == uv)
            && (forall z: nat :: Closed(s, z) <==> Closed(t, z) || (t.u + 1 == per && z == t.user))
            && (forall z: nat :: Closed(t, z) ==> s.vpc[z] == t.vpc[z] - One(z == l))
  {
    PutOk(per, t, l);
    hide Total;
    if t.u + 1 == per {
      DropFirst(t.free);
      assert t.free[0] in t.free;
    }
  }

  lemma GatherShape(per: nat, t: Tally, v: nat)
    requires TallyOk(per, t) && Closed(t, v) && t.vpc[v] < per && (t.k + t.vpc[v] >= per ==> t.free != [])
    ensures Gather(per, t, v).Some?
    ensures var s, x := Gather(per, t, v).value, t.vpc[v];
            && TallyOk(per, s) && |s.vpc| == |t.vpc| && s.stored == t.stored
            && (if t.k + x < per then
                  Shape(s, t.u, t.vpc[t.user], t.k + x, t.vpc[t.gc] + x, |t.free| + 1, t.credits, per - x)
                else Shape(s, t.u, t.vpc[t.user], t.k + x - per, t.k + x - per, |t.free|, t.credits, per - x)
                     && s.vpc[t.gc] == t.vpc[t.gc] + (per - t.k))
            && (forall z: nat :: Closed(s, z) <==> (Closed(t, z) && z != v) || (t.k + x >= per && z == t.gc))
            && (forall z: nat :: Closed(t, z) && z != v ==> s.vpc[z] == t.vpc[z])
  {
    GatherIs(per, t, v);
    GatherOk(per, t, v);
    hide Total, NoDup, Gather;
    if t.k + t.vpc[v] >= per {
      DropKeeps(per, t);
      assert t.free[0] in t.free;
    }
  }

  lemma DropKeeps(per: nat, t: Tally)
    requires TallyOk(per, t) && t.free != []
    ensures forall l :: l in t.free[1..] <==> l in t.free && l != t.free[0]
  {
    DropFirst(t.free);
  }
}

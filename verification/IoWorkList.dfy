/** The work list of an I/O worker: requests ordered by target time in a doubly linked list of
    array indices, which shares its storage with the list of free entries. */
module IoWorkList {
  import opened Collections

  // ---- linked lists by index ----

  function PrevIn(l: seq<nat>, i: nat): nat {
    if 0 < i <= |l| then l[i - 1] else NIL
  }

  ghost predicate Within(l: seq<nat>, n: nat) {
    forall i :: 0 <= i < |l| ==> l[i] < n
  }

  /** Following next from first visits l and ends. */
  ghost predicate Forward(next: seq<nat>, l: seq<nat>) {
    forall i :: 0 <= i < |l| ==> l[i] < |next| && next[l[i]] == NextIn(l, i)
  }

  /** Following prev goes back, from any entry at or after position `from`. */
  ghost predicate Backward(prev: seq<nat>, l: seq<nat>, from: nat) {
    forall i :: from <= i < |l| ==> l[i] < |prev| && prev[l[i]] == PrevIn(l, i)
  }

  ghost predicate Ends(l: seq<nat>, first: nat, last: nat) {
    first == (if l == [] then NIL else l[0]) && (l != [] ==> last == l[|l| - 1])
  }

  /** Two lists hold every entry exactly once between them. */
  ghost predicate Partition(a: seq<nat>, f: seq<nat>, n: nat) {
    && NoDup(a) && NoDup(f) && Within(a, n) && Within(f, n)
    && (forall i, j :: 0 <= i < |a| && 0 <= j < |f| ==> a[i] != f[j])
    && (forall e :: 0 <= e < n ==> e in a || e in f)
  }

  /** Any entry ahead of another is due already or has no later target. */
  ghost predicate Ordered(target: seq<nat>, l: seq<nat>, latest: nat) {
    Within(l, |target|) && forall i, j :: 0 <= i < j < |l| ==> target[l[i]] <= latest || target[l[i]] <= target[l[j]]
  }

  // ---- inserting ----

  function Inserted(l: seq<nat>, k: nat, e: nat): (r: seq<nat>)
    requires k <= |l|
    ensures |r| == |l| + 1 && (forall i :: 0 <= i < |r| ==>
                                 r[i] == if i < k then l[i] else if i == k then e else l[i - 1])
  {
    l[..k] + [e] + l[k..]
  }

  /** The links after the entry goes in at k. */
  function NextWith(next: seq<nat>, l: seq<nat>, k: nat, e: nat): seq<nat>
    requires k <= |l| && e < |next|
  {
    var n := next[e := if k < |l| then l[k] else NIL];
    if k > 0 && l[k - 1] < |next| then n[l[k - 1] := e] else n
  }

  function PrevWith(prev: seq<nat>, l: seq<nat>, k: nat, e: nat): seq<nat>
    requires k <= |l| && e < |prev| && forall i :: 0 <= i < |l| ==> l[i] < |prev|
  {
    var p := prev[e := if k > 0 then l[k - 1] else NIL];
    if k < |l| then p[l[k] := e] else p
  }

  lemma InsertForwardAt(next: seq<nat>, l: seq<nat>, k: nat, e: nat, i: nat)
    requires Forward(next, l) && NoDup(l) && k <= |l| && e < |next| && e !in l && i <= |l|
    ensures var r, n := Inserted(l, k, e), NextWith(next, l, k, e); r[i] < |n| && n[r[i]] == NextIn(r, i)
  {
    hide Inserted;
    if i < k {
      ForwardBefore(next, l, k, e, i);
    } else if i > k {
      ForwardAfter(next, l, k, e, i);
    }
  }

  lemma ForwardBefore(next: seq<nat>, l: seq<nat>, k: nat, e: nat, i: nat)
    requires Forward(next, l) && NoDup(l) && k <= |l| && e < |next| && e !in l && i < k
    ensures var r, n := Inserted(l, k, e), NextWith(next, l, k, e); r[i] < |n| && n[r[i]] == NextIn(r, i)
  {
    hide Forward, NoDup;
    LinkAt(next, l, i);
    LinkAt(next, l, k - 1);
    if i < k - 1 { Distinct(l, i, k - 1); }
    var r := Inserted(l, k, e);
    assert r[i] == l[i] && r[i + 1] == if i == k - 1 then e else l[i + 1];
  }

  lemma LinkAt(next: seq<nat>, l: seq<nat>, i: nat)
    requires Forward(next, l) && i < |l|
    ensures l[i] in l && l[i] < |next| && next[l[i]] == NextIn(l, i)
  {
  }

  lemma Distinct(l: seq<nat>, i: nat, j: nat)
    requires NoDup(l) && i < j < |l|
    ensures l[i] != l[j]
  {
  }

  lemma ForwardAfter(next: seq<nat>, l: seq<nat>, k: nat, e: nat, i: nat)
    requires Forward(next, l) && NoDup(l) && k < i <= |l| && e < |next| && e !in l
    ensures var r, n := Inserted(l, k, e), NextWith(next, l, k, e); r[i] < |n| && n[r[i]] == NextIn(r, i)
  {
    hide Inserted, Forward, NoDup;
    LinkAt(next, l, i - 1);
    if k < |l| { LinkAt(next, l, k); }
    if k > 0 { Distinct(l, k - 1, i - 1); }
  }

  lemma InsertForward(next: seq<nat>, l: seq<nat>, k: nat, e: nat)
    requires Forward(next, l) && NoDup(l) && k <= |l| && e < |next| && e !in l
    ensures Forward(NextWith(next, l, k, e), Inserted(l, k, e))
  {
    forall i | 0 <= i < |l| + 1
      ensures Inserted(l, k, e)[i] < |next| && NextWith(next, l, k,
                                                        e)[Inserted(l, k, e)[i]] == NextIn(Inserted(l, k, e), i)
    {
      hide Forward, NoDup, Inserted;
      InsertForwardAt(next, l, k, e, i);
    }
  }

  lemma InsertBackwardAt(prev: seq<nat>, l: seq<nat>, k: nat, e: nat, i: nat)
    requires Backward(prev, l, 0) && NoDup(l) && k <= |l| && e < |prev| && e !in l && i <= |l|
    ensures var r, p := Inserted(l, k, e), PrevWith(prev, l, k, e); r[i] < |p| && p[r[i]] == PrevIn(r, i)
  {
    if k < |l| { assert l[k] in l; }
    if i < k {
      assert l[i] in l && prev[l[i]] == PrevIn(l, i);
    } else if i > k {
      assert l[i - 1] in l && prev[l[i - 1]] == PrevIn(l, i - 1);
    }
  }

  lemma InsertBackward(prev: seq<nat>, l: seq<nat>, k: nat, e: nat)
    requires Backward(prev, l, 0) && NoDup(l) && k <= |l| && e < |prev| && e !in l
    ensures Backward(PrevWith(prev, l, k, e), Inserted(l, k, e), 0)
  {
    forall i | 0 <= i < |l| + 1
      ensures Inserted(l, k, e)[i] < |prev| && PrevWith(prev, l, k,
                                                        e)[Inserted(l, k, e)[i]] == PrevIn(Inserted(l, k, e), i)
    {
      hide Backward, NoDup, Inserted;
      InsertBackwardAt(prev, l, k, e, i);
    }
  }

  lemma InsertPartition(a: seq<nat>, f: seq<nat>, n: nat, k: nat)
    requires Partition(a, f, n) && f != [] && k <= |a|
    ensures f[0] < n && f[0] !in a && Partition(Inserted(a, k, f[0]), f[1..], n)
  {
    var r, g := Inserted(a, k, f[0]), f[1..];
    assert forall i :: 0 <= i < |g| ==> g[i] == f[i + 1];
    forall e | 0 <= e < n ensures e in r || e in g {
      if e in a {
        var i :| 0 <= i < |a| && a[i] == e;
        assert r[if i < k then i else i + 1] == e;
      } else {
        var j :| 0 <= j < |f| && f[j] == e;
        if j == 0 { assert r[k] == e; } else { assert g[j - 1] == e; }
      }
    }
  }

  /** Where the scan from the tail stops: everything after is later than both the target and the
      clock, and the entry before, if any, is not. */
  ghost predicate InsertPoint(target: seq<nat>, l: seq<nat>, latest: nat, t: nat, k: nat) {
    && k <= |l| && Within(l, |target|)
    && (forall j :: k <= j < |l| ==> target[l[j]] > latest && target[l[j]] > t)
    && (k > 0 ==> target[l[k - 1]] <= latest || target[l[k - 1]] <= t)
  }

  lemma InsertOrderedAt(target: seq<nat>, l: seq<nat>, latest: nat, t: nat, k: nat, e: nat, i: nat, j: nat)
    requires Ordered(target, l, latest) && InsertPoint(target, l, latest, t, k) && e < |target| && e !in l
             && i < j <= |l|
    ensures var r, g := Inserted(l, k, e), target[e := t];
            r[i] < |g| && r[j] < |g| && (g[r[i]] <= latest || g[r[i]] <= g[r[j]])
  {
    var r, g := Inserted(l, k, e), target[e := t];
    if i != k { assert r[i] in l; }
    if j != k { assert r[j] in l; }
    if i < k - 1 && j == k { assert target[l[i]] <= latest || target[l[i]] <= target[l[k - 1]]; }
  }

  lemma InsertOrdered(target: seq<nat>, l: seq<nat>, latest: nat, t: nat, k: nat, e: nat)
    requires Ordered(target, l, latest) && InsertPoint(target, l, latest, t, k) && e < |target| && e !in l
    ensures Ordered(target[e := t], Inserted(l, k, e), latest)
  {
    var r, g := Inserted(l, k, e), target[e := t];
    assert Within(r, |g|) by { assert Within(l, |target|); }
    forall i, j | 0 <= i < j < |r| ensures g[r[i]] <= latest || g[r[i]] <= g[r[j]] {
      hide Ordered, InsertPoint, Inserted;
      InsertOrderedAt(target, l, latest, t, k, e, i, j);
    }
  }

  // ---- splicing off a prefix ----

  lemma ReclaimPartition(a: seq<nat>, f: seq<nat>, n: nat, m: nat)
    requires Partition(a, f, n) && m <= |a|
    ensures Partition(a[m..], f + a[..m], n)
  {
    var r, g := a[m..], f + a[..m];
    assert forall i :: 0 <= i < |r| ==> r[i] == a[i + m];
    assert forall i :: 0 <= i < |g| ==> g[i] == if i < |f| then f[i] else a[i - |f|];
    forall e | 0 <= e < n ensures e in r || e in g {
      if e in a {
        var i :| 0 <= i < |a| && a[i] == e;
        if i < m { assert g[|f| + i] == e; } else { assert r[i - m] == e; }
      } else {
        var j :| 0 <= j < |f| && f[j] == e;
        assert g[j] == e;
      }
    }
  }

  /** The links after the first m active entries join the free list. */
  function NextWithout(next: seq<nat>, a: seq<nat>, f: seq<nat>, m: nat): seq<nat>
    requires 0 < m <= |a| && f != [] && a[m - 1] < |next| && f[|f| - 1] < |next|
    ensures |NextWithout(next, a, f, m)| == |next|
  {
    next[a[m - 1] := NIL][f[|f| - 1] := a[0]]
  }

  function PrevWithout(prev: seq<nat>, a: seq<nat>, f: seq<nat>, m: nat): seq<nat>
    requires 0 < m <= |a| && f != [] && a[0] < |prev| && (m < |a| ==> a[m] < |prev|)
  {
    (if m < |a| then prev[a[m] := NIL] else prev)[a[0] := f[|f| - 1]]
  }

  lemma RestForward(next: seq<nat>, a: seq<nat>, f: seq<nat>, m: nat)
    requires Forward(next, a) && Partition(a, f, |next|) && 0 < m <= |a| && f != []
    ensures Forward(NextWithout(next, a, f, m), a[m..])
  {
    var r, n := a[m..], NextWithout(next, a, f, m);
    forall i | 0 <= i < |r| ensures r[i] < |n| && n[r[i]] == NextIn(r, i) {
      assert r[i] == a[i + m] && next[a[i + m]] == NextIn(a, i + m) && a[i + m] != a[m - 1] && a[i + m] != f[|f| - 1];
    }
  }

  lemma FreeEntryNext(next: seq<nat>, a: seq<nat>, f: seq<nat>, m: nat, i: nat)
    requires 0 < m <= |a| && i < |f| && f[i] < |next| && a[m - 1] < |next| && f[|f| - 1] < |next|
             && next[f[i]] == NextIn(f, i)
    requires f[i] != a[m - 1] && (i + 1 < |f| ==> f[i] != f[|f| - 1])
    ensures NextWithout(next, a, f, m)[f[i]] == NextIn(f + a[..m], i)
  {
  }

  lemma FreedEntryNext(next: seq<nat>, a: seq<nat>, f: seq<nat>, m: nat, j: nat)
    requires 0 < m <= |a| && f != [] && j < m && a[j] < |next| && a[m - 1] < |next| && f[|f| - 1] < |next|
             && next[a[j]] == NextIn(a, j)
    requires a[j] != f[|f| - 1] && (j + 1 < m ==> a[j] != a[m - 1])
    ensures NextWithout(next, a, f, m)[a[j]] == NextIn(f + a[..m], |f| + j)
  {
  }

  lemma FreedForwardAt(next: seq<nat>, a: seq<nat>, f: seq<nat>, m: nat, i: nat)
    requires Forward(next, a) && Forward(next, f) && Partition(a, f, |next|) && 0 < m <= |a| && f != [] && i < |f| + m
    ensures var g, n := f + a[..m], NextWithout(next, a, f, m); g[i] < |n| && n[g[i]] == NextIn(g, i)
  {
    hide NextIn, NextWithout;
    var j := i - |f|;
    if i < |f| {
      FreeEntryNext(next, a, f, m, i);
    } else {
      assert (f + a[..m])[i] == a[j];
      FreedEntryNext(next, a, f, m, j);
    }
  }

  lemma FreedForward(next: seq<nat>, a: seq<nat>, f: seq<nat>, m: nat)
    requires Forward(next, a) && Forward(next, f) && Partition(a, f, |next|) && 0 < m <= |a| && f != []
    ensures Forward(NextWithout(next, a, f, m), f + a[..m])
  {
    var g, n := f + a[..m], NextWithout(next, a, f, m);
    forall i | 0 <= i < |g| ensures g[i] < |n| && n[g[i]] == NextIn(g, i) {
      hide Forward, Partition, NextWithout;
      FreedForwardAt(next, a, f, m, i);
    }
  }

  lemma RestBackward(prev: seq<nat>, a: seq<nat>, f: seq<nat>, m: nat)
    requires Backward(prev, a, 0) && Partition(a, f, |prev|) && 0 < m <= |a| && f != []
    ensures Backward(PrevWithout(prev, a, f, m), a[m..], 0)
  {
    var r, p := a[m..], PrevWithout(prev, a, f, m);
    forall i | 0 <= i < |r| ensures r[i] < |p| && p[r[i]] == PrevIn(r, i) {
      assert r[i] == a[i + m] && prev[a[i + m]] == PrevIn(a, i + m) && a[i + m] != a[0];
      if i > 0 { assert a[m] != a[i + m] && r[i - 1] == a[i + m - 1]; }
    }
  }

  lemma FreedBackward(prev: seq<nat>, a: seq<nat>, f: seq<nat>, m: nat)
    requires Backward(prev, a, 0) && Backward(prev, f, 1) && Partition(a, f, |prev|) && 0 < m <= |a| && f != []
    ensures Backward(PrevWithout(prev, a, f, m), f + a[..m], 1)
  {
    var g, p := f + a[..m], PrevWithout(prev, a, f, m);
    forall i | 1 <= i < |g| ensures g[i] < |p| && p[g[i]] == PrevIn(g, i) {
      hide Backward, Partition, PrevWithout;
      if i < |f| { FreedFront(prev, a, f, m, i); } else { FreedBack(prev, a, f, m, i - |f|); }
    }
  }

  lemma FreedFront(prev: seq<nat>, a: seq<nat>, f: seq<nat>, m: nat, i: nat)
    requires Backward(prev, a, 0) && Backward(prev, f, 1) && Partition(a, f, |prev|) && 0 < m <= |a| && 1 <= i < |f|
    ensures var g, p := f + a[..m], PrevWithout(prev, a, f, m); g[i] < |p| && p[g[i]] == PrevIn(g, i)
  {
    hide NoDup;
    assert prev[f[i]] == PrevIn(f, i) && f[i] != a[0];
    if m < |a| { assert f[i] != a[m]; }
  }

  lemma FreedBack(prev: seq<nat>, a: seq<nat>, f: seq<nat>, m: nat, j: nat)
    requires Backward(prev, a, 0) && Backward(prev, f, 1) && Partition(a, f, |prev|) && j < m <= |a| && f != []
    ensures var g, p, i := f + a[..m], PrevWithout(prev, a, f, m), |f| + j; g[i] < |p| && p[g[i]] == PrevIn(g, i)
  {
    assert prev[a[j]] == PrevIn(a, j);
    if m < |a| { assert a[j] != a[m]; }
    if j > 0 { assert a[j] != a[0]; }
  }

  lemma OrderedSuffix(target: seq<nat>, l: seq<nat>, latest: nat, m: nat)
    requires Ordered(target, l, latest) && m <= |l|
    ensures Ordered(target, l[m..], latest)
  {
  }

  /** The clock only moves forward, and so keeps the order. */
  lemma OrderedLater(target: seq<nat>, l: seq<nat>, latest: nat, latest': nat)
    requires Ordered(target, l, latest) && latest <= latest'
    ensures Ordered(target, l, latest')
  {
  }

  /** The entries due are a prefix: nothing due waits behind something that is not. */
  lemma DueIsPrefix(target: seq<nat>, l: seq<nat>, latest: nat, i: nat, j: nat)
    requires Ordered(target, l, latest) && i < j < |l| && target[l[j]] <= latest
    ensures target[l[i]] <= latest
  {
  }

  // ---- what can be reclaimed ----

  /** The length of the longest prefix that is done: copied, completed and due. */
  function DonePrefix(l: seq<nat>, target: seq<nat>, copied: seq<bool>, completed: seq<bool>, latest: nat): (m: nat)
    ensures m <= |l|
  {
    if l != [] && l[0] < |target| && l[0] < |copied| && l[0] < |completed| && completed[l[0]] && copied[l[0]]
        && target[l[0]] <= latest
    then 1 + DonePrefix(l[1..], target, copied, completed, latest) else 0
  }

  ghost predicate Done(e: nat, target: seq<nat>, copied: seq<bool>, completed: seq<bool>, latest: nat) {
    e < |target| && e < |copied| && e < |completed| && completed[e] && copied[e] && target[e] <= latest
  }

  lemma {:induction false} DonePrefixIs(l: seq<nat>, target: seq<nat>, copied: seq<bool>, completed: seq<bool>,
                                        latest: nat)
    ensures var m := DonePrefix(l, target, copied, completed, latest);
            && (forall i :: 0 <= i < m ==> Done(l[i], target, copied, completed, latest))
            && (m < |l| ==> !Done(l[m], target, copied, completed, latest))
  {
    if l != [] && Done(l[0], target, copied, completed, latest) {
      DonePrefixIs(l[1..], target, copied, completed, latest);
      assert forall i :: 1 <= i < |l| ==> l[i] == l[1..][i - 1];
    }
  }

  /** Once every due entry has been copied and completed, what is reclaimed is exactly what is due. */
  lemma ReclaimsAllDue(l: seq<nat>, target: seq<nat>, copied: seq<bool>, completed: seq<bool>, latest: nat)
    requires Ordered(target, l, latest) && |copied| == |completed| == |target|
    requires forall i :: 0 <= i < |l| && target[l[i]] <= latest ==> copied[l[i]] && completed[l[i]]
    ensures forall i :: 0 <= i < |l| ==> (target[l[i]] <= latest <==>
                                          i < DonePrefix(l, target, copied, completed, latest))
  {
    var m := DonePrefix(l, target, copied, completed, latest);
    DonePrefixIs(l, target, copied, completed, latest);
    if m < |l| { NoneDueAfter(target, l, latest, m); }
    forall i | 0 <= i < m ensures target[l[i]] <= latest { assert Done(l[i], target, copied, completed, latest); }
  }

  lemma NoneDueAfter(target: seq<nat>, l: seq<nat>, latest: nat, m: nat)
    requires Ordered(target, l, latest) && m < |l| && target[l[m]] > latest
    ensures forall i :: m <= i < |l| ==> target[l[i]] > latest
  {
  }

  // ---- the life of a request ----

  /** A request from its enqueueing on: its entry, its target, how often it has been answered and
      when, and whether its entry has been reclaimed. */
  datatype Job = Job(entry: nat, target: nat, answers: nat, at: nat, freed: bool)

  /** An active entry stands for one request, answered once when the entry is completed. */
  ghost predicate EntryFor(e: nat, target: seq<nat>, completed: seq<bool>, jobs: seq<Job>, jobOf: seq<nat>) {
    && e < |jobOf| == |target| == |completed| && jobOf[e] < |jobs|
    && var b := jobs[jobOf[e]]; !b.freed && b.entry == e && b.target == target[e] && b.answers == One(completed[e])
  }

  /** A request is answered at most once, not before its target; its entry is reclaimed only after
      that, and stays active till then. */
  ghost predicate LifeOk(j: nat, act: seq<nat>, jobs: seq<Job>, jobOf: seq<nat>, latest: nat)
    requires j < |jobs|
  {
    var b := jobs[j];
    && b.answers <= 1 && (b.answers == 1 ==> b.target <= b.at <= latest)
    && (b.freed ==> b.answers == 1) && (!b.freed ==> b.entry in act && b.entry < |jobOf| && jobOf[b.entry] == j)
  }

  ghost predicate History(act: seq<nat>, target: seq<nat>, completed: seq<bool>, jobs: seq<Job>, jobOf: seq<nat>,
                          latest: nat) {
    && |jobOf| == |target| == |completed|
    && (forall i :: 0 <= i < |act| ==> EntryFor(act[i], target, completed, jobs, jobOf))
    && (forall j :: 0 <= j < |jobs| ==> LifeOk(j, act, jobs, jobOf, latest))
  }

  predicate CopiedFirst(copied: seq<bool>, completed: seq<bool>) {
    |copied| == |completed| && forall e :: 0 <= e < |completed| ==> completed[e] ==> copied[e]
  }

  /** Each request is as it was, or further on. */
  ghost predicate Further(was: seq<Job>, jobs: seq<Job>) {
    && |was| <= |jobs|
    && forall j :: 0 <= j < |was| ==> && jobs[j].entry == was[j].entry && jobs[j].target == was[j].target
                                      && was[j].answers <= jobs[j].answers && (was[j].freed ==> jobs[j].freed)
                                      && (was[j].answers == jobs[j].answers ==> jobs[j].at == was[j].at)
  }

  lemma EnqueueHistory(act: seq<nat>, target: seq<nat>, completed: seq<bool>, jobs: seq<Job>, jobOf: seq<nat>,
                       latest: nat,
                       e: nat, k: nat, t: nat)
    requires History(act, target, completed, jobs, jobOf, latest) && e < |target| && e !in act && k <= |act|
    ensures History(Inserted(act, k, e), target[e := t], completed[e := false], jobs + [Job(e, t, 0, 0, false)],
                    jobOf[e := |jobs|], latest)
  {
    var r, g, d := Inserted(act, k, e), target[e := t], completed[e := false];
    var js, of := jobs + [Job(e, t, 0, 0, false)], jobOf[e := |jobs|];
    forall i | 0 <= i < |r| ensures EntryFor(r[i], g, d, js, of) {
      if i != k {
        var x := if i < k then i else i - 1;
        assert act[x] == r[i] && r[i] in act && EntryFor(act[x], target, completed, jobs, jobOf);
      }
    }
    forall j | 0 <= j < |js| ensures LifeOk(j, r, js, of, latest) {
      if j < |jobs| {
        assert LifeOk(j, act, jobs, jobOf, latest);
        if !jobs[j].freed { InsertedHas(act, k, e, jobs[j].entry); }
      } else {
        assert r[k] == e;
      }
    }
  }

  lemma InsertedHas(l: seq<nat>, k: nat, e: nat, x: nat)
    requires k <= |l| && x in l
    ensures x in Inserted(l, k, e)
  {
    var i :| 0 <= i < |l| && l[i] == x;
    assert Inserted(l, k, e)[if i < k then i else i + 1] == x;
  }

  /** Answering the request of an active entry that is not completed. */
  function Answer(jobs: seq<Job>, j: nat, now: nat): (r: seq<Job>)
    requires j < |jobs|
    ensures |r| == |jobs|
  {
    jobs[j := jobs[j].(answers := jobs[j].answers + 1, at := now)]
  }

  lemma AnswerHistory(act: seq<nat>, target: seq<nat>, completed: seq<bool>, jobs: seq<Job>, jobOf: seq<nat>,
                      latest: nat, e: nat)
    requires History(act, target, completed, jobs, jobOf, latest) && e in act && e < |target| && !completed[e]
             && target[e] <= latest
    ensures jobOf[e] < |jobs| && History(act, target, completed[e := true], Answer(jobs, jobOf[e], latest), jobOf,
                                         latest)
    ensures Further(jobs, Answer(jobs, jobOf[e], latest))
  {
    var x :| 0 <= x < |act| && act[x] == e;
    assert EntryFor(act[x], target, completed, jobs, jobOf);
    var d, js := completed[e := true], Answer(jobs, jobOf[e], latest);
    forall i | 0 <= i < |act| ensures EntryFor(act[i], target, d, js, jobOf) {
      assert EntryFor(act[i], target, completed, jobs, jobOf);
    }
    forall j | 0 <= j < |js| ensures LifeOk(j, act, js, jobOf, latest) { assert LifeOk(j, act, jobs, jobOf, latest); }
  }

  lemma LaterHistory(act: seq<nat>, target: seq<nat>, completed: seq<bool>, jobs: seq<Job>, jobOf: seq<nat>,
                     latest: nat, now: nat)
    requires History(act, target, completed, jobs, jobOf, latest) && latest <= now
    ensures History(act, target, completed, jobs, jobOf, now)
  {
    forall j | 0 <= j < |jobs| ensures LifeOk(j, act, jobs, jobOf, now) { assert LifeOk(j, act, jobs, jobOf, latest); }
  }

  /** The entries of l are reclaimed. */
  ghost function Freed(jobs: seq<Job>, l: seq<nat>): (r: seq<Job>)
    ensures |r| == |jobs| && forall j :: 0 <= j < |r| ==> r[j] == jobs[j].(freed := jobs[j].freed || jobs[j].entry in l)
  {
    seq(|jobs|, j requires 0 <= j < |jobs| => jobs[j].(freed := jobs[j].freed || jobs[j].entry in l))
  }

  lemma FreedHistory(act: seq<nat>, target: seq<nat>, completed: seq<bool>, jobs: seq<Job>, jobOf: seq<nat>,
                     latest: nat, m: nat)
    requires History(act, target, completed, jobs, jobOf, latest) && NoDup(act) && m <= |act|
    requires forall i :: 0 <= i < m ==> act[i] < |completed| && completed[act[i]]
    ensures History(act[m..], target, completed, Freed(jobs, act[..m]), jobOf, latest)
            && Further(jobs, Freed(jobs, act[..m]))
  {
    var l, r, js := act[..m], act[m..], Freed(jobs, act[..m]);
    forall i | 0 <= i < |r| ensures EntryFor(r[i], target, completed, js, jobOf) {
      assert r[i] == act[i + m] && EntryFor(act[i + m], target, completed, jobs, jobOf);
      assert forall x :: 0 <= x < m ==> l[x] == act[x] != act[i + m];
    }
    forall j | 0 <= j < |js| ensures LifeOk(j, r, js, jobOf,
                                            latest) { FreedLife(act, target, completed, jobs, jobOf, latest, m, j); }
  }

  lemma FreedLife(act: seq<nat>, target: seq<nat>, completed: seq<bool>, jobs: seq<Job>, jobOf: seq<nat>, latest: nat,
                  m: nat, j: nat)
    requires History(act, target, completed, jobs, jobOf, latest) && m <= |act| && j < |jobs|
    requires forall i :: 0 <= i < m ==> act[i] < |completed| && completed[act[i]]
    ensures LifeOk(j, act[m..], Freed(jobs, act[..m]), jobOf, latest)
  {
    assert LifeOk(j, act, jobs, jobOf, latest);
    if !jobs[j].freed {
      var x :| 0 <= x < |act| && act[x] == jobs[j].entry;
      assert EntryFor(act[x], target, completed, jobs, jobOf);
      if x < m { assert act[..m][x] == act[x]; } else { assert act[m..][x - m] == act[x]; }
    }
  }

  /** Whatever has happened since, a request has been answered at most once, never before its
      target, and its entry reclaimed only after that; what is not reclaimed is still queued. */
  lemma AnsweredOnce(act: seq<nat>, target: seq<nat>, completed: seq<bool>, jobs: seq<Job>, jobOf: seq<nat>,
                     latest: nat, j: nat)
    requires History(act, target, completed, jobs, jobOf, latest) && j < |jobs|
    ensures jobs[j].answers <= 1 && (jobs[j].answers == 1 ==> jobs[j].target <= jobs[j].at <= latest)
    ensures jobs[j].freed ==> jobs[j].answers == 1
    ensures !jobs[j].freed ==> jobs[j].entry in act && jobs[j].entry < |completed|
                               && jobs[j].answers == One(completed[jobs[j].entry])
                                   && target[jobs[j].entry] == jobs[j].target
  {
    assert LifeOk(j, act, jobs, jobOf, latest);
    if !jobs[j].freed {
      var x :| 0 <= x < |act| && act[x] == jobs[j].entry;
      assert EntryFor(act[x], target, completed, jobs, jobOf);
    }
  }

  lemma SameJobs(a: seq<Job>)
    ensures Further(a, a)
  {
  }

  lemma {:induction false} FurtherOn(a: seq<Job>, b: seq<Job>, c: seq<Job>)
    requires Further(a, b) && Further(b, c)
    ensures Further(a, c)
  {
    forall j | 0 <= j < |a| ensures a[j].answers == c[j].answers ==> c[j].at == a[j].at {
      assert a[j].answers <= b[j].answers <= c[j].answers;
    }
  }

  // ---- the worker in memory ----

  class Worker {
    const n: nat
    const next: array<nat>
    const prev: array<nat>
    const target: array<nat>
    const copied: array<bool>
    const completed: array<bool>
    var freeSeq: nat
    var freeSeqEnd: nat
    var ioSeq: nat
    var ioSeqEnd: nat
    var latest: nat
    /** The active list in order of target, and the free list. */
    ghost var act: seq<nat>
    ghost var fre: seq<nat>
    /** Every request ever enqueued, and which one an entry was last used for. */
    ghost var jobs: seq<Job>
    ghost var jobOf: seq<nat>

    ghost predicate Sized() {
      && 0 < n < NIL && next.Length == prev.Length == target.Length == copied.Length == completed.Length == n
      && next != prev && next != target && prev != target && copied != completed
    }

    /** Both lists are linked from their heads to their ends, every entry is in exactly one, the
        free list is never empty, and the active list is ordered. */
    ghost predicate Valid()
      reads `freeSeq, `freeSeqEnd, `ioSeq, `ioSeqEnd, `latest, `act, `fre, next, prev, target
    {
      && Sized() && Partition(act, fre, n) && fre != []
      && Ends(act, ioSeq, ioSeqEnd) && Ends(fre, freeSeq, freeSeqEnd)
      && Forward(next[..], act) && Forward(next[..], fre) && Backward(prev[..], act, 0) && Backward(prev[..], fre, 1)
      && Ordered(target[..], act, latest)
    }

    /** Every request enqueued so far is accounted for, and none is answered before it is copied. */
    ghost predicate Recorded()
      reads `act, `jobs, `jobOf, `latest, target, copied, completed
    {
      History(act, target[..], completed[..], jobs, jobOf, latest) && CopiedFirst(copied[..], completed[..])
    }

    /** NVMEV_IO_WORKER_INIT for one worker: all entries free, in order. */
    constructor (entries: nat)
      requires 0 < entries < NIL
      ensures Valid() && n == entries && act == [] && latest == 0 && |fre| == entries && Recorded() && jobs == []
    {
      hide Partition, Forward, Backward;
      n := entries;
      next := new nat[entries](i => if i + 1 < entries then i + 1 else NIL);
      prev := new nat[entries](i => if 0 < i then i - 1 else NIL);
      target := new nat[entries](i => 0);
      copied := new bool[entries](i => false);
      completed := new bool[entries](i => false);
      freeSeq, freeSeqEnd, ioSeq, ioSeqEnd, latest := 0, entries - 1, NIL, NIL, 0;
      act, fre := [], seq(entries, i => i);
      jobs, jobOf := [], seq(entries, i => 0);
      new;
      assert forall i :: 0 <= i < entries ==> fre[i] == i;
      InitLists(next[..], prev[..], fre);
    }

    /** Valid, but for entry e, which is on neither list and has no links. */
    ghost predicate Open(e: nat)
      reads `freeSeq, `freeSeqEnd, `ioSeq, `ioSeqEnd, `latest, `act, `fre, next, prev, target
    {
      && Sized() && e < n && fre != [] && Partition(act, [e] + fre, n)
      && Ends(act, ioSeq, ioSeqEnd) && Ends(fre, freeSeq, freeSeqEnd)
      && Forward(next[..], act) && Forward(next[..], fre) && Backward(prev[..], act, 0) && Backward(prev[..], fre, 1)
      && Ordered(target[..], act, latest) && next[e] == prev[e] == NIL
    }

    /** __allocate_work_queue_entry and the fields of the request. It fails when one free entry is
        left, so the free list never empties. */
    method Allocate(t: nat, isInternal: bool) returns (ok: bool, e: nat)
      requires Valid()
      modifies `freeSeq, `fre, next, prev, target, copied, completed
      ensures (ok <==> old(|fre|) > 1) && (!ok ==> Valid() && fre == old(fre))
      ensures !ok ==> target[..] == old(target[..]) && copied[..] == old(copied[..])
                      && completed[..] == old(completed[..])
      ensures ok ==> Open(e) && e == old(fre)[0] && fre == old(fre)[1..] && target[..] == old(target[..])[e := t]
                     && copied[..] == old(copied[..])[e := isInternal]
                         && completed[..] == old(completed[..])[e := false]
    {
      hide Partition, Forward, Backward, Ordered;
      e := freeSeq;
      FreeAt(next[..], fre);
      if next[e] >= n { return false, e; }
      ok := true;
      ghost var x, y, z, f := next[..], prev[..], target[..], fre;
      freeSeq := next[e];
      target[e], completed[e], copied[e] := t, false, isInternal;
      prev[e], next[e] := NIL, NIL;
      fre := fre[1..];
      TakeFirst(x, y, z, act, f, n, latest, t);
      assert next[..] == x[e := NIL] && prev[..] == y[e := NIL] && target[..] == z[e := t] && [e] + fre == f;
      assert copied[..] == old(copied[..])[e := isInternal] && completed[..] == old(completed[..])[e := false];
    }

    /** The scan of __insert_req_sorted from the tail: the entry to insert after, or none. */
    method FindPlace(t: nat, ghost e: nat) returns (curr: nat, ghost k: nat)
      requires Open(e) && act != []
      ensures InsertPoint(target[..], act, latest, t, k) && curr == PrevIn(act, k)
    {
      hide Partition, Forward, Backward, Ordered;
      curr, k := ioSeqEnd, |act|;
      ActiveAt(e, 0);
      while curr != NIL
        invariant k <= |act| && curr == PrevIn(act, k)
        invariant forall j :: k <= j < |act| ==> target[act[j]] > latest && target[act[j]] > t
        decreases k
      {
        ActiveAt(e, k - 1);
        if target[curr] <= latest || target[curr] <= t { return; }
        curr := prev[curr];
        k := k - 1;
      }
    }

    lemma ActiveAt(e: nat, i: nat)
      requires Open(e)
      ensures Within(act, n) && (i < |act| ==> act[i] < n && prev[act[i]] == PrevIn(act, i)
                                               && next[act[i]] == NextIn(act, i))
    {
      if i < |act| { assert prev[..][act[i]] == PrevIn(act, i) && next[..][act[i]] == NextIn(act, i); }
    }

    /** __insert_req_sorted's links for entry e, its own links cleared, after curr. */
    method Link(e: nat, curr: nat, ghost k: nat)
      requires Sized() && e < n && k <= |act| && act != [] && e !in act && curr == PrevIn(act, k) && Within(act, n)
      requires Ends(act, ioSeq, ioSeqEnd) && Forward(next[..], act) && next[e] == prev[e] == NIL && NoDup(act)
      modifies next, prev, `ioSeq, `ioSeqEnd
      ensures next[..] == NextWith(old(next[..]), act, k, e) && prev[..] == PrevWith(old(prev[..]), act, k, e)
      ensures Ends(Inserted(act, k, e), ioSeq, ioSeqEnd)
    {
      hide Forward, NoDup;
      ghost var x, y := next[..], prev[..];
      assert k < |act| ==> act[k] in act;
      if curr == NIL {
        prev[ioSeq] := e;
        next[e] := ioSeq;
        ioSeq := e;
      } else {
        LinkAfter(e, curr, k);
      }
    }

    /** The entry goes in at the tail or between two others. */
    method LinkAfter(e: nat, curr: nat, ghost k: nat)
      requires Sized() && e < n && 0 < k <= |act| && e !in act && curr == act[k - 1] && Within(act, n)
      requires Ends(act, ioSeq, ioSeqEnd) && Forward(next[..], act) && next[e] == prev[e] == NIL && NoDup(act)
      modifies next, prev, `ioSeqEnd
      ensures next[..] == NextWith(old(next[..]), act, k, e) && prev[..] == PrevWith(old(prev[..]), act, k, e)
      ensures Ends(Inserted(act, k, e), ioSeq, ioSeqEnd)
    {
      hide Forward, NoDup;
      ForwardAt(next[..], act, k - 1);
      assert act[k - 1] in act && (k < |act| ==> act[k] in act);
      prev[e] := curr;
      if next[curr] == NIL {
        ioSeqEnd := e;
      } else {
        next[e] := next[curr];
        prev[next[e]] := e;
      }
      next[curr] := e;
    }

    /** __insert_req_sorted. */
    method Insert(e: nat, t: nat)
      requires Open(e) && target[e] == t
      modifies next, prev, `ioSeq, `ioSeqEnd, `act
      ensures Valid() && exists k :: 0 <= k <= old(|act|) && act == Inserted(old(act), k, e)
    {
      hide Partition, Forward, Backward, Ordered, Inserted, NextWith, PrevWith;
      OpenParts(act, fre, n, e);
      ghost var x, y, z, a := next[..], prev[..], target[..], act;
      ghost var k := 0;
      if ioSeq == NIL {
        ioSeq, ioSeqEnd := e, e;
        FirstEntry(x, y, e);
      } else {
        EndsIn(act, ioSeq, ioSeqEnd, n);
        var curr;
        curr, k := FindPlace(t, e);
        ForwardOf(x, act);
        Link(e, curr, k);
      }
      PlacedAt(x, y, z, a, fre, n, latest, t, k, e);
      act := Inserted(act, k, e);
    }

    /** __enqueue_io_req and schedule_internal_operation: the request goes onto the active list in an
        entry of its own, not yet answered, unless a single free entry is left. The other entries
        keep their order, their targets and their flags. */
    method Enqueue(t: nat, isInternal: bool) returns (ok: bool, ghost e: nat)
      requires Valid() && Recorded()
      modifies `freeSeq, `ioSeq, `ioSeqEnd, `act, `fre, `jobs, `jobOf, next, prev, target, copied, completed
      ensures Valid() && Recorded() && (ok <==> old(|fre|) > 1)
      ensures !ok ==> act == old(act) && fre == old(fre) && jobs == old(jobs)
                      && target[..] == old(target[..]) && copied[..] == old(copied[..])
                          && completed[..] == old(completed[..])
      ensures ok ==> e == old(fre)[0] < n && fre == old(fre)[1..] && jobs == old(jobs) + [Job(e, t, 0, 0, false)]
                     && (exists k :: 0 <= k <= old(|act|) && act == Inserted(old(act), k, e))
                     && target[..] == old(target[..])[e := t] && copied[..] == old(copied[..])[e := isInternal]
                     && completed[..] == old(completed[..])[e := false]
    {
      hide Partition, Forward, Backward, Ordered, Inserted, History, Ends;
      FirstFree();
      e := fre[0];
      var i;
      ok, i := Allocate(t, isInternal);
      if !ok { return; }
      Insert(i, t);
      ghost var k: nat :| k <= old(|act|) && act == Inserted(old(act), k, e);
      EnqueueHistory(old(act), old(target[..]), old(completed[..]), jobs, jobOf, latest, e, k, t);
      jobs, jobOf := jobs + [Job(e, t, 0, 0, false)], jobOf[e := |jobs|];
    }

    lemma FirstFree()
      requires Valid() && Recorded()
      ensures fre[0] < n && fre[0] !in act && |jobOf| == n
    {
      hide Forward, Backward, Ordered, Ends;
    }

    /** The worker's turn on an active entry at clock time now: copied, and completed once due. */
    method Serve(e: nat, now: nat) returns (answered: bool)
      requires Valid() && Recorded() && e in act && e < n && now >= latest
      modifies copied, completed, `latest, `jobs
      ensures Valid() && Recorded() && latest == now
      ensures answered <==> !old(completed[e]) && target[e] <= now
      ensures completed[e] == (old(completed[e]) || target[e] <= now) && copied[e]
      ensures forall x :: 0 <= x < n && x != e ==> completed[x] == old(completed[x]) && copied[x] == old(copied[x])
      ensures Further(old(jobs), jobs) && |jobs| == |old(jobs)|
      ensures if answered then jobOf[e] < |old(jobs)| && jobs == Answer(old(jobs), jobOf[e], now) else jobs == old(jobs)
    {
      hide Partition, Forward, Backward, Ordered, History, Answer;
      OrderedLater(target[..], act, latest, now);
      SameJobs(jobs);
      LaterHistory(act, target[..], completed[..], jobs, jobOf, latest, now);
      latest := now;
      answered := false;
      if completed[e] { return; }
      copied[e] := true;
      if target[e] <= now {
        ghost var was := completed[..];
        AnswerHistory(act, target[..], was, jobs, jobOf, now, e);
        completed[e] := true;
        assert completed[..] == was[e := true];
        jobs := Answer(jobs, jobOf[e], now);
        answered := true;
      }
    }

    /** One lap of the worker over its active list, the clock moving on as it goes: everything due
        when it began is copied and answered. */
    method Lap(start: nat)
      requires Valid() && Recorded() && start >= latest
      modifies copied, completed, `latest, `jobs
      ensures Valid() && Recorded() && Further(old(jobs), jobs) && |jobs| == |old(jobs)| && latest >= old(latest)
      ensures forall i :: 0 <= i < |act| && act[i] < n && target[act[i]] <= start ==>
                copied[act[i]] && completed[act[i]]
    {
      hide Partition, Forward, Backward, Ordered, History, Further, Ends;
      var curr, now := ioSeq, start;
      ghost var k := 0;
      SameJobs(jobs);
      ActiveBelow();
      FirstActive();
      while curr != NIL
        invariant Valid() && Recorded() && k <= |act| && curr == (if k < |act| then act[k] else NIL)
                  && now >= latest >= old(latest)
        invariant now >= start && Further(old(jobs), jobs) && |jobs| == |old(jobs)|
        invariant forall i :: 0 <= i < k && act[i] < n && target[act[i]] <= start ==>
                    copied[act[i]] && completed[act[i]]
        decreases |act| - k
      {
        assert act[k] in act;
        NextActive(k);
        ghost var was := jobs;
        var _ := Serve(curr, now);
        FurtherOn(old(jobs), was, jobs);
        curr := next[curr];
        k := k + 1;
        var later: nat :| now <= later;
        now := later;
      }
    }

    lemma FirstActive()
      requires Valid()
      ensures ioSeq == (if act == [] then NIL else act[0])
    {
      hide Partition, Forward, Backward, Ordered;
    }

    lemma NextActive(k: nat)
      requires Valid() && k < |act|
      ensures act[k] < n && next[act[k]] == NextIn(act, k)
    {
      hide Backward, Ordered;
      assert next[..][act[k]] == NextIn(act, k);
    }

    /** The scan of __reclaim_completed_reqs over the done prefix. */
    method ScanDone() returns (last: nat, ghost m: nat)
      requires Valid()
      ensures m == DonePrefix(act, target[..], copied[..], completed[..], latest)
      ensures last == PrevIn(act, m)
    {
      hide Partition, Backward, Ordered, DonePrefix;
      var curr := ioSeq;
      last, m := NIL, 0;
      ghost var d := DonePrefix(act, target[..], copied[..], completed[..], latest);
      while curr != NIL
        invariant m <= d && curr == (if m < |act| then act[m] else NIL) && last == PrevIn(act, m)
        decreases |act| - m
      {
        DoneAt(act, target[..], copied[..], completed[..], latest, m);
        ForwardAt(next[..], act, m);
        if !(completed[curr] && copied[curr] && target[curr] <= latest) { return; }
        last := curr;
        curr := next[curr];
        m := m + 1;
      }
    }

    /** __reclaim_completed_reqs for one worker: the longest done prefix of the active list moves to
        the end of the free list. */
    method Reclaim()
      requires Valid() && Recorded()
      modifies next, prev, `ioSeq, `freeSeqEnd, `act, `fre, `jobs
      ensures Valid() && Recorded() && Further(old(jobs), jobs)
      ensures var m := DonePrefix(old(act), target[..], copied[..], completed[..], latest);
              act == old(act)[m..] && fre == old(fre) + old(act)[..m] && jobs == Freed(old(jobs), old(act)[..m])
    {
      hide Partition, Forward, Backward, Ordered, DonePrefix, History, Further, Ends;
      var last;
      ghost var m;
      last, m := ScanDone();
      ghost var a, f, x, y := act, fre, next[..], prev[..];
      ActiveBelow();
      DonePrefixIs(act, target[..], copied[..], completed[..], latest);
      FreedHistory(act, target[..], completed[..], jobs, jobOf, latest, m);
      jobs := Freed(jobs, a[..m]);
      if last == NIL {
        assert a[0..] == a && f + a[..0] == f;
        return;
      }
      ForwardAt(x, a, m - 1);
      ReclaimPartition(a, f, n, m);
      RestForward(x, a, f, m);
      FreedForward(x, a, f, m);
      RestBackward(y, a, f, m);
      FreedBackward(y, a, f, m);
      OrderedSuffix(target[..], a, latest, m);
      Splice(last, m);
      act, fre := a[m..], f + a[..m];
    }

    lemma ActiveBelow()
      requires Valid()
      ensures Within(act, n) && Within(fre, n) && NoDup(act)
    {
    }

    /** The pointer updates of the splice. */
    method Splice(last: nat, ghost m: nat)
      requires Sized() && 0 < m <= |act| && fre != [] && Within(act, n) && Within(fre, n) && last == act[m - 1]
      requires Ends(act, ioSeq, ioSeqEnd) && Ends(fre, freeSeq, freeSeqEnd) && next[last] == NextIn(act, m - 1)
      modifies next, prev, `ioSeq, `freeSeqEnd
      ensures next[..] == NextWithout(old(next[..]), act, fre, m) && prev[..] == PrevWithout(old(prev[..]), act, fre, m)
      ensures Ends(act[m..], ioSeq, ioSeqEnd) && Ends(fre + act[..m], freeSeq, freeSeqEnd)
    {
      var first := ioSeq;
      ioSeq := next[last];
      if next[last] != NIL { prev[next[last]] := NIL; }
      next[last] := NIL;
      prev[first] := freeSeqEnd;
      next[freeSeqEnd] := first;
      freeSeqEnd := last;
    }
  }

  lemma DoneAt(l: seq<nat>, target: seq<nat>, copied: seq<bool>, completed: seq<bool>, latest: nat, m: nat)
    requires m <= DonePrefix(l, target, copied, completed, latest)
    requires m < |l| && l[m] < |target| && l[m] < |copied| && l[m] < |completed|
    ensures if completed[l[m]] && copied[l[m]] && target[l[m]] <= latest
            then m < DonePrefix(l, target, copied, completed, latest)
            else m == DonePrefix(l, target, copied, completed, latest)
  {
    DonePrefixIs(l, target, copied, completed, latest);
  }

  lemma ForwardAt(next: seq<nat>, l: seq<nat>, m: nat)
    requires Forward(next, l) && m < |l|
    ensures l[m] < |next| && next[l[m]] == NextIn(l, m)
  {
  }

  // ---- small facts about the lists ----

  lemma InitLists(next: seq<nat>, prev: seq<nat>, l: seq<nat>)
    requires |l| == |next| == |prev| < NIL && forall i :: 0 <= i < |l| ==> l[i] == i
    requires forall i :: 0 <= i < |l| ==> next[i] == (if i + 1 < |l| then i + 1 else NIL)
                                          && prev[i] == (if 0 < i then i - 1 else NIL)
    ensures Partition([], l, |l|) && Forward(next, l) && Backward(prev, l, 1) && Forward(next, [])
            && Backward(prev, [], 0)
  {
    forall e | 0 <= e < |l| ensures e in l { assert l[e] == e; }
  }

  lemma FreeAt(next: seq<nat>, f: seq<nat>)
    requires Forward(next, f) && f != []
    ensures f[0] < |next| && next[f[0]] == NextIn(f, 0) && (|f| > 1 ==> f[1] < |next|)
  {
  }

  /** Taking the first free entry and clearing its links disturbs neither list. */
  lemma TakeFirst(next: seq<nat>, prev: seq<nat>, target: seq<nat>, a: seq<nat>, f: seq<nat>, n: nat, latest: nat,
                  t: nat)
    requires |next| == |prev| == |target| == n && Partition(a, f, n) && |f| > 1 && Ordered(target, a, latest)
    requires Forward(next, a) && Forward(next, f) && Backward(prev, a, 0) && Backward(prev, f, 1)
    ensures f[0] < n && Forward(next[f[0] := NIL], a) && Forward(next[f[0] := NIL], f[1..])
    ensures Backward(prev[f[0] := NIL], a, 0) && Backward(prev[f[0] := NIL], f[1..], 1)
            && Ordered(target[f[0] := t], a, latest)
  {
    var g := f[1..];
    assert forall i :: 0 <= i < |g| ==> g[i] == f[i + 1];
    forall i | 0 <= i < |g| ensures g[i] < n && next[f[0] := NIL][g[i]] == NextIn(g, i) {
      assert next[f[i + 1]] == NextIn(f, i + 1) && f[i + 1] != f[0];
    }
    forall i | 1 <= i < |g| ensures g[i] < n && prev[f[0] := NIL][g[i]] == PrevIn(g, i) {
      assert prev[f[i + 1]] == PrevIn(f, i + 1) && f[i + 1] != f[0];
    }
  }

  lemma OpenParts(a: seq<nat>, f: seq<nat>, n: nat, e: nat)
    requires Partition(a, [e] + f, n)
    ensures NoDup(a) && Within(a, n) && e !in a
  {
    assert ([e] + f)[0] == e;
  }

  lemma EndsIn(a: seq<nat>, first: nat, last: nat, n: nat)
    requires Ends(a, first, last) && Within(a, n) && n < NIL && first != NIL
    ensures a != []
  {
  }

  lemma ForwardOf(next: seq<nat>, a: seq<nat>)
    requires Forward(next, a)
    ensures forall i :: 0 <= i < |a| ==> a[i] < |next|
  {
  }

  lemma FirstEntry(next: seq<nat>, prev: seq<nat>, e: nat)
    requires e < |next| && e < |prev| && next[e] == prev[e] == NIL
    ensures NextWith(next, [], 0, e) == next && PrevWith(prev, [], 0, e) == prev && Inserted([], 0, e) == [e]
  {
  }

  /** The entry linked in at its place: both lists are sound again. */
  lemma PlacedAt(next: seq<nat>, prev: seq<nat>, target: seq<nat>, a: seq<nat>, f: seq<nat>, n: nat, latest: nat,
                 t: nat, k: nat, e: nat)
    requires |next| == |prev| == |target| == n && e < n && Partition(a, [e] + f, n) && target[e] == t
             && InsertPoint(target, a, latest, t, k)
    requires Forward(next, a) && Forward(next, f) && Backward(prev, a, 0) && Backward(prev, f, 1)
             && Ordered(target, a, latest)
    ensures k <= |a| && (forall i :: 0 <= i < |a| ==> a[i] < n) && Partition(Inserted(a, k, e), f, n)
    ensures Forward(NextWith(next, a, k, e), Inserted(a, k, e)) && Forward(NextWith(next, a, k, e), f)
    ensures Backward(PrevWith(prev, a, k, e), Inserted(a, k, e), 0) && Backward(PrevWith(prev, a, k, e), f, 1)
    ensures Ordered(target, Inserted(a, k, e), latest)
  {
    OpenParts(a, f, n, e);
    InsertPartition(a, [e] + f, n, k);
    assert ([e] + f)[1..] == f && ([e] + f)[0] == e;
    InsertForward(next, a, k, e);
    InsertBackward(prev, a, k, e);
    InsertOrdered(target, a, latest, t, k, e);
    assert target[e := t] == target;
    OtherList(next, prev, a, f, n, k, e);
  }

  lemma OtherList(next: seq<nat>, prev: seq<nat>, a: seq<nat>, f: seq<nat>, n: nat, k: nat, e: nat)
    requires |next| == |prev| == n && e < n && Partition(a, [e] + f, n) && k <= |a|
    requires Forward(next, f) && Backward(prev, f, 1) && forall i :: 0 <= i < |a| ==> a[i] < n
    ensures Forward(NextWith(next, a, k, e), f) && Backward(PrevWith(prev, a, k, e), f, 1)
  {
    hide Forward, Backward, NextWith, PrevWith;
    var g := [e] + f;
    assert g[0] == e && forall j :: 0 <= j < |f| ==> g[j + 1] == f[j];
    forall j | 0 <= j < |f| ensures f[j] != e && (k > 0 ==> f[j] != a[k - 1]) && (k < |a| ==> f[j] != a[k]) {
      assert g[j + 1] == f[j];
    }
    SameLinks(next, prev, a, f, k, e);
  }

  lemma SameLinks(next: seq<nat>, prev: seq<nat>, a: seq<nat>, f: seq<nat>, k: nat, e: nat)
    requires |next| == |prev| && e < |next| && k <= |a| && forall i :: 0 <= i < |a| ==> a[i] < |next|
    requires Forward(next, f) && Backward(prev, f, 1)
    requires forall j :: 0 <= j < |f| ==> f[j] != e && (k > 0 ==> f[j] != a[k - 1]) && (k < |a| ==> f[j] != a[k])
    ensures Forward(NextWith(next, a, k, e), f) && Backward(PrevWith(prev, a, k, e), f, 1)
  {
  }
}

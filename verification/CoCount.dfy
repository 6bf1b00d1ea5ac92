/** Counting the distinct pages of a sealed window: adjacent runs and the probing hash table. */
module CoCount {
  import opened Collections
  import opened Radix
  import opened CoState
  import opened CoSort

  // ---- adjacent runs ----

  /** The number of maximal runs of equal tags. */
  function Runs(s: seq<Ent>): nat {
    if s == [] then 0
    else
      var n := |s| - 1;
      Runs(s[..n]) + (if n == 0 || s[n].tag != s[n - 1].tag then 1 else 0)
  }

  /** The pages asked for. */
  function Tags(s: seq<Ent>): set<nat> {
    if s == [] then {} else Tags(s[..|s| - 1]) + {s[|s| - 1].tag}
  }

  /** No page reappears after another page has come between. */
  predicate Grouped(s: seq<Ent>) {
    forall i, j, k :: 0 <= i < j < k < |s| && s[i].tag == s[k].tag ==> s[j].tag == s[i].tag
  }

  lemma {:induction false} TagsExact(s: seq<Ent>, t: nat)
    ensures t in Tags(s) <==> exists i :: 0 <= i < |s| && s[i].tag == t
  {
    if s != [] {
      var n := |s| - 1;
      TagsExact(s[..n], t);
      if exists i :: 0 <= i < |s| && s[i].tag == t {
        var i :| 0 <= i < |s| && s[i].tag == t;
        if i < n { assert s[..n][i].tag == t; }
      }
    }
  }

  lemma GroupedLast(s: seq<Ent>)
    requires |s| >= 2
    ensures var n := |s| - 1;
            Grouped(s) <==> Grouped(s[..n]) && (s[n].tag == s[n - 1].tag || s[n].tag !in Tags(s[..n]))
  {
    var n := |s| - 1;
    var t := s[..n];
    TagsExact(t, s[n].tag);
    if Grouped(s) && s[n].tag in Tags(t) {
      var i :| 0 <= i < |t| && t[i].tag == s[n].tag;
      assert s[n - 1].tag == s[i].tag;
    }
    if Grouped(t) && (s[n].tag == s[n - 1].tag || s[n].tag !in Tags(t)) {
      forall i, j, k | 0 <= i < j < k < |s| && s[i].tag == s[k].tag ensures s[j].tag == s[i].tag {
        assert t[i] == s[i] && t[j] == s[j];
        if k < n { assert t[k] == s[k]; }
      }
    }
  }

  /** Distinct pages never exceed runs, and equal them exactly when the window is grouped. */
  lemma {:induction false} RunsAndPages(s: seq<Ent>)
    ensures |Tags(s)| <= Runs(s) <= |s|
    ensures |Tags(s)| == Runs(s) <==> Grouped(s)
  {
    if |s| >= 2 {
      var n := |s| - 1;
      RunsAndPages(s[..n]);
      GroupedLast(s);
      TagsExact(s[..n], s[n - 1].tag);
      assert s[..n][n - 1] == s[n - 1];
    } else if |s| == 1 {
      assert s[..0] == [] && Tags(s) == {s[0].tag};
    }
  }

  lemma SortedGrouped(s: seq<Ent>)
    requires SortedByTag(s)
    ensures Grouped(s) && Runs(s) == |Tags(s)|
  {
    RunsAndPages(s);
  }

  /** Passing one maximal run counts one. */
  lemma {:induction false} RunsStep(s: seq<Ent>, i: nat, run: nat)
    requires run > 0 && i + run <= |s| && (i == 0 || s[i].tag != s[i - 1].tag)
    requires forall j :: i <= j < i + run ==> s[j].tag == s[i].tag
    ensures Runs(s[..i + run]) == Runs(s[..i]) + 1
  {
    var t := s[..i + run];
    assert t[..|t| - 1] == s[..i + run - 1];
    if run > 1 { RunsStep(s, i, run - 1); }
  }

  /** count_adjacent: one for every entry whose page differs from the one before it. */
  method CountAdjacent(a: array<Ent>, n: nat) returns (uniq: nat)
    requires n <= a.Length
    ensures uniq == Runs(a[..n])
  {
    uniq := 0;
    var i, prev := 0, 0xFFFF_FFFF_FFFF_FFFF;
    while i < n
      invariant i <= n && uniq == Runs(a[..i]) && (i > 0 ==> prev == a[i - 1].tag)
    {
      assert a[..i + 1][..i] == a[..i];
      if i == 0 || a[i].tag != prev { uniq := uniq + 1; }
      prev := a[i].tag;
      i := i + 1;
    }
  }

  // ---- the probing hash table ----

  const EMPTY: nat := 0xFFFF_FFFF_FFFF_FFFF

  /** The multiplicative hash of a tag, masked to the table. */
  function Hash(key: nat, size: nat): (h: nat)
    requires size > 0
    ensures h < size
  {
    key * 0x9e37_79b9_7f4a_7c15 % 0x1_0000_0000_0000_0000 / 0x100_0000_0000 % 0x1_0000_0000 % size
  }

  function Cell(key: nat, t: nat, size: nat): (c: nat)
    requires size > 0
    ensures c < size
  {
    (Hash(key, size) + t) % size
  }

  /** Key k sits t steps along its probe path and no cell before it is empty. */
  ghost predicate FoundAt(tab: seq<nat>, k: nat, t: nat) {
    |tab| > 0 && tab[Cell(k, t, |tab|)] == k && forall u :: 0 <= u < t ==> tab[Cell(k, u, |tab|)] != EMPTY
  }

  /** The table holds exactly the keys of `at`, each once, each reachable by probing. */
  ghost predicate TableOk(tab: seq<nat>, at: map<nat, nat>) {
    && |tab| > 0
    && (forall k :: k in at ==> k != EMPTY && FoundAt(tab, k, at[k]))
    && (forall c :: 0 <= c < |tab| && tab[c] != EMPTY ==> tab[c] in at && Cell(tab[c], at[tab[c]], |tab|) == c)
  }

  /** A probe that has met neither the key nor an empty cell for t steps. */
  ghost predicate Probed(tab: seq<nat>, k: nat, t: nat) {
    |tab| > 0 && forall u :: 0 <= u < t ==> tab[Cell(k, u, |tab|)] != EMPTY && tab[Cell(k, u, |tab|)] != k
  }

  lemma CellReached(k: nat, c: nat, size: nat) returns (t: nat)
    requires c < size
    ensures t < size && Cell(k, t, size) == c
  {
    hide Hash;
    var h := Hash(k, size);
    t := if c >= h then c - h else c + size - h;
    DivUnique(h + t, size, if c >= h then 0 else 1, c);
  }

  /** Distinct keys in distinct cells: a full table holds as many keys as cells. */
  lemma {:induction false} FullTable(tab: seq<nat>, at: map<nat, nat>, n: nat) returns (keys: set<nat>)
    requires TableOk(tab, at) && n <= |tab| && forall c :: 0 <= c < |tab| ==> tab[c] != EMPTY
    ensures keys <= at.Keys && |keys| == n
    ensures forall k :: k in keys ==> k in at && Cell(k, at[k], |tab|) < n
  {
    if n == 0 {
      keys := {};
    } else {
      var rest := FullTable(tab, at, n - 1);
      assert tab[n - 1] in at && Cell(tab[n - 1], at[tab[n - 1]], |tab|) == n - 1;
      keys := rest + {tab[n - 1]};
    }
  }

  lemma HasEmpty(tab: seq<nat>, at: map<nat, nat>)
    requires TableOk(tab, at) && |at| < |tab|
    ensures exists c :: 0 <= c < |tab| && tab[c] == EMPTY
  {
    assert |at.Keys| == |at|;
    if forall c :: 0 <= c < |tab| ==> tab[c] != EMPTY {
      var keys := FullTable(tab, at, |tab|);
      SubsetSize(keys, at.Keys);
    }
  }

  lemma StoredThere(tab: seq<nat>, at: map<nat, nat>, h: nat)
    requires TableOk(tab, at) && h < |tab| && tab[h] != EMPTY
    ensures tab[h] in at
  {
  }

  lemma ProbeOn(tab: seq<nat>, k: nat, t: nat)
    requires Probed(tab, k, t) && |tab| > 0 && tab[Cell(k, t, |tab|)] != EMPTY && tab[Cell(k, t, |tab|)] != k
    ensures Probed(tab, k, t + 1)
  {
    hide Cell;
  }

  lemma ProbeStarts(tab: seq<nat>, k: nat)
    requires |tab| > 0
    ensures Probed(tab, k, 0) && Hash(k, |tab|) == Cell(k, 0, |tab|)
  {
    hide Hash;
    DivUnique(Hash(k, |tab|), |tab|, 0, Hash(k, |tab|));
  }

  /** With fewer keys than cells a probe meets the key or an empty cell before going round. */
  lemma ProbeEnds(tab: seq<nat>, at: map<nat, nat>, k: nat, t: nat)
    requires TableOk(tab, at) && |at| < |tab| && Probed(tab, k, t)
    ensures t < |tab|
  {
    HasEmpty(tab, at);
    var c :| 0 <= c < |tab| && tab[c] == EMPTY;
    var u := CellReached(k, c, |tab|);
  }

  /** A probe for a stored key does not stop at an empty cell. */
  lemma StoredKeyMet(tab: seq<nat>, at: map<nat, nat>, k: nat, t: nat)
    requires TableOk(tab, at) && Probed(tab, k, t) && k in at
    ensures tab[Cell(k, t, |tab|)] != EMPTY
  {
    assert FoundAt(tab, k, at[k]);
  }

  /** Stopping at an empty cell means the key is new. */
  lemma NewKey(tab: seq<nat>, at: map<nat, nat>, k: nat, t: nat)
    requires TableOk(tab, at) && Probed(tab, k, t) && tab[Cell(k, t, |tab|)] == EMPTY && k != EMPTY
    ensures k !in at && TableOk(tab[Cell(k, t, |tab|) := k], at[k := t])
  {
    if k in at { StoredKeyMet(tab, at, k, t); }
    var c := Cell(k, t, |tab|);
    var tab', at' := tab[c := k], at[k := t];
    forall j | j in at' ensures j != EMPTY && FoundAt(tab', j, at'[j]) {
      if j != k { assert FoundAt(tab, j, at[j]); }
    }
    forall d | 0 <= d < |tab'| && tab'[d] != EMPTY ensures tab'[d] in at' && Cell(tab'[d], at'[tab'[d]], |tab'|) == d {
      if d != c { assert tab'[d] == tab[d] && tab[d] in at; }
    }
  }

  /** hash_unique: the number of distinct pages in the window, by linear probing in a table of
      more cells than the window has entries. */
  method HashUnique(win: array<Ent>, n: nat, htab: array<nat>) returns (uniq: nat)
    requires n <= win.Length && n < htab.Length
    requires forall i :: 0 <= i < n ==> win[i].tag < EMPTY
    modifies htab
    ensures uniq == |Tags(win[..n])|
  {
    hide Hash, TableOk, FoundAt;
    Clear(htab);
    uniq := 0;
    ghost var at: map<nat, nat> := map[];
    var i := 0;
    while i < n
      invariant i <= n && TableOk(htab[..], at) && at.Keys == Tags(win[..i]) && uniq == |at| <= i
    {
      var ins := Insert(htab, win[i].tag, at);
      assert win[..i + 1][..i] == win[..i];
      if ins.1 {
        uniq := uniq + 1;
        at := at[win[i].tag := ins.0];
      }
      i := i + 1;
    }
    assert |at.Keys| == |at|;
  }

  method Clear(htab: array<nat>)
    requires htab.Length > 0
    modifies htab
    ensures TableOk(htab[..], map[])
  {
    for c := 0 to htab.Length
      invariant forall d :: 0 <= d < c ==> htab[d] == EMPTY
    {
      htab[c] := EMPTY;
    }
  }

  /** One key: found, or stored at the first empty cell of its path. */
  method Insert(htab: array<nat>, key: nat, ghost at: map<nat, nat>) returns (r: (nat, bool))
    requires TableOk(htab[..], at) && |at| < htab.Length && key < EMPTY
    modifies htab
    ensures r.1 <==> key !in at
    ensures if r.1 then TableOk(htab[..], at[key := r.0]) else htab[..] == old(htab[..])
  {
    hide Hash, TableOk, Probed, Cell;
    var t, h := 0, Hash(key, htab.Length);
    ProbeStarts(htab[..], key);
    while htab[h] != EMPTY
      invariant h == Cell(key, t, htab.Length) && Probed(htab[..], key, t) && htab[..] == old(htab[..])
      decreases htab.Length - t
    {
      ProbeEnds(htab[..], at, key, t);
      if htab[h] == key {
        StoredThere(htab[..], at, h);
        return (t, false);
      }
      ProbeOn(htab[..], key, t);
      NextCell(key, t, htab.Length);
      h := (h + 1) % htab.Length;
      t := t + 1;
    }
    NewKey(htab[..], at, key, t);
    htab[h] := key;
    r := (t, true);
  }

  lemma NextMod(a: nat, size: nat)
    requires size > 0
    ensures (a % size + 1) % size == (a + 1) % size
  {
    var q, r := DivMod(a, size);
    if r + 1 < size {
      DivUnique(a + 1, size, q, r + 1);
      DivUnique(r + 1, size, 0, r + 1);
    } else {
      DivUnique(a + 1, size, q + 1, 0);
      DivUnique(r + 1, size, 1, 0);
    }
  }

  lemma NextCell(key: nat, t: nat, size: nat)
    requires size > 0
    ensures (Cell(key, t, size) + 1) % size == Cell(key, t + 1, size)
  {
    hide Hash;
    NextMod(Hash(key, size) + t, size);
  }
}

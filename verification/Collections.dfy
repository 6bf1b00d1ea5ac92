/** Sets, sequences and index-linked lists of numbers, shared by the tables, queues and pools. */
module Collections {

  /** The end of an index-linked list. */
  const NIL: nat := 0xFFFF_FFFF

  /** What the i-th entry of a list points to. */
  function NextIn(l: seq<nat>, i: nat): nat {
    if i + 1 < |l| then l[i + 1] else NIL
  }

  function One(b: bool): nat {
    if b then 1 else 0
  }

  ghost predicate NoDup(l: seq<nat>) {
    forall i, j :: 0 <= i < j < |l| ==> l[i] != l[j]
  }

  ghost function Below(n: nat): (r: set<nat>)
    ensures |r| == n && forall x: nat :: x in r <==> x < n
  {
    if n == 0 then {} else
      var r := Below(n - 1);
      assert n - 1 !in r;
      r + {n - 1}
  }

  lemma {:induction false} SubsetSize<T>(a: set<T>, b: set<T>)
    requires a <= b
    ensures |a| <= |b|
  {
    assert b == a + (b - a);
  }

  ghost function Elems(l: seq<nat>): (r: set<nat>)
    ensures forall x :: x in r <==> x in l
    ensures NoDup(l) ==> |r| == |l|
  {
    if l == [] then {}
    else
      assert NoDup(l) ==> l[|l| - 1] !in l[..|l| - 1];
      assert l == l[..|l| - 1] + [l[|l| - 1]];
      Elems(l[..|l| - 1]) + {l[|l| - 1]}
  }

  /** Distinct numbers below n that leave one out are fewer than n. */
  lemma NoDupFits(l: seq<nat>, s: nat, n: nat)
    requires NoDup(l) && s < n && s !in l && forall i :: 0 <= i < |l| ==> l[i] < n
    ensures |l| < n
  {
    var all := Below(n);
    var ls := Elems(l);
    assert ls <= all - {s};
    SubsetSize(ls, all - {s});
  }
}

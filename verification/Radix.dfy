/** Small facts of nonlinear arithmetic used by the address and ring computations. */
module Radix {

  lemma NonNegative(a: int, n: nat)
    requires 0 < n && 0 <= a * n
    ensures 0 <= a
  {
  }

  lemma MulAssoc(a: nat, b: nat, c: nat)
    ensures (a * b) * c == a * (b * c)
  {
  }

  lemma SumTimes(r: nat, c: nat, f: nat)
    ensures (r + c) * f == r * f + c * f
  {
  }

  lemma {:induction false} MulMono(a: nat, b: nat, n: nat)
    ensures a <= b ==> a * n <= b * n
    ensures a < b ==> a * n + n <= b * n
    decreases b
  {
    if a < b {
      MulMono(a, b - 1, n);
      OneMore(b - 1, n);
    }
  }

  lemma OneMore(a: nat, n: nat)
    ensures (a + 1) * n == a * n + n
  {
  }

  lemma ProductPositive(a: int, b: int)
    requires a > 0 && b > 0
    ensures a * b > 0
  {
  }

  /** Quotient and remainder are unique. */
  lemma DivUnique(a: nat, n: nat, q: nat, r: nat)
    requires n > 0 && a == n * q + r && r < n
    ensures a / n == q && a % n == r
  {
    assert a == (a / n) * n + a % n;
    RadixInjective(a / n, a % n, q, r, n);
  }

  lemma DivMod(a: nat, n: nat) returns (q: nat, r: nat)
    requires n > 0
    ensures q == a / n && r == a % n && r < n && a == n * q + r
  {
    q, r := a / n, a % n;
  }

  /** a*n+b with b below n determines a and b. */
  lemma RadixInjective(a: nat, b: nat, c: nat, d: nat, n: nat)
    requires b < n && d < n && a * n + b == c * n + d
    ensures a == c && b == d
  {
    MulMono(a, c, n);
    MulMono(c, a, n);
  }

  lemma RadixBound(a: nat, b: nat, m: nat, n: nat)
    requires a < m && b < n
    ensures a * n + b < m * n
  {
    MulMono(a, m, n);
  }

  function Horner(a: nat, b: nat, nb: nat, c: nat, nc: nat, d: nat, nd: nat): nat {
    ((a * nb + b) * nc + c) * nd + d
  }

  /** What one more of a digit adds. */
  lemma HornerSteps(a: nat, b: nat, nb: nat, c: nat, nc: nat, d: nat, nd: nat)
    ensures Horner(a, b, nb, c + 1, nc, d, nd) == Horner(a, b, nb, c, nc, d, nd) + nd
    ensures Horner(a, b + 1, nb, c, nc, d, nd) == Horner(a, b, nb, c, nc, d, nd) + nc * nd
    ensures Horner(a + 1, b, nb, c, nc, d, nd) == Horner(a, b, nb, c, nc, d, nd) + nb * nc * nd
  {
    var x := a * nb + b;
    SumTimes(x * nc + c, 1, nd);
    SumTimes(x, 1, nc);
    SumTimes(x * nc + c, nc, nd);
    SumTimes(a, 1, nb);
    SumTimes(x, nb, nc);
    SumTimes(x * nc + c, nb * nc, nd);
  }

  /** A four-digit mixed-radix number is below the product of its radices and determines
      its digits. */
  lemma HornerBound(a: nat, na: nat, b: nat, nb: nat, c: nat, nc: nat, d: nat, nd: nat)
    requires a < na && b < nb && c < nc && d < nd
    ensures Horner(a, b, nb, c, nc, d, nd) < na * nb * nc * nd
  {
    RadixBound(a, b, na, nb);
    RadixBound(a * nb + b, c, na * nb, nc);
    RadixBound((a * nb + b) * nc + c, d, na * nb * nc, nd);
  }

  lemma Radix2Injective(x: nat, x': nat, c: nat, c': nat, nc: nat, d: nat, d': nat, nd: nat)
    requires c < nc && c' < nc && d < nd && d' < nd
    requires (x * nc + c) * nd + d == (x' * nc + c') * nd + d'
    ensures x == x' && c == c' && d == d'
  {
    RadixInjective(x * nc + c, d, x' * nc + c', d', nd);
    RadixInjective(x, c, x', c', nc);
  }

  lemma HornerInjective(a: nat, a': nat, b: nat, b': nat, nb: nat, c: nat, c': nat, nc: nat, d: nat, d': nat, nd: nat)
    requires b < nb && b' < nb && c < nc && c' < nc && d < nd && d' < nd
    requires Horner(a, b, nb, c, nc, d, nd) == Horner(a', b', nb, c', nc, d', nd)
    ensures a == a' && b == b' && c == c' && d == d'
  {
    Radix2Injective(a * nb + b, a' * nb + b', c, c', nc, d, d', nd);
    RadixInjective(a, b, a', b', nb);
  }

  /** Positions less than a lap apart in the same cell are the same. */
  lemma SameCell(a: nat, b: nat, qd: nat)
    requires qd > 0 && a <= b < a + qd && a % qd == b % qd
    ensures a == b
  {
    var qa, ra := DivMod(a, qd);
    var qb, rb := DivMod(b, qd);
    MulMono(qa, qb, qd);
    MulMono(qb, qa, qd);
  }

  lemma DivMono(a: nat, b: nat, n: nat)
    requires n > 0 && a <= b
    ensures a / n <= b / n
  {
    var q, r := DivMod(a, n);
    var q', r' := DivMod(b, n);
    MulMono(q' + 1, q, n);
  }
}

/** Definitions shared by the other modules. */
module Basics {

  datatype Option<+X> = None | Some(value: X)

  ghost predicate Distinct<X>(xs: seq<X>) {
    forall i, j :: 0 <= i < j < |xs| ==> xs[i] != xs[j]
  }

  ghost predicate Increasing(xs: seq<nat>) {
    forall i, j :: 0 <= i < j < |xs| ==> xs[i] < xs[j]
  }

  /** `xs[idxs]`: the elements at some positions. */
  function Pick<T>(xs: seq<T>, idxs: seq<nat>): (r: seq<T>)
    requires forall i :: 0 <= i < |idxs| ==> idxs[i] < |xs|
    ensures |r| == |idxs|
  {
    seq(|idxs|, i requires 0 <= i < |idxs| => xs[idxs[i]])
  }

  // ----- products and quotients

  lemma {:induction false} Difference(a: int, b: int, q: int)
    ensures a * q == b * q + (a - b) * q
  {
  }

  lemma {:induction false} AtLeastOnce(n: nat, q: nat)
    requires n > 0
    ensures n * q >= q
  {
    Difference(n, 1, q);
    assert (n - 1) * q >= 0;
  }

  lemma {:induction false} Ordered(a: int, b: int, m: nat)
    ensures a < b ==> a * m + m <= b * m
  {
    Difference(b, a, m);
    if a < b {
      AtLeastOnce(b - a, m);
    }
  }

  /** Quotients come before remainders. */
  lemma {:induction false} QuotientOrder(a: nat, b: nat, q: nat, r: nat, m: nat)
    requires b < m && r < m
    ensures a * m + b < q * m + r <==> a < q || (a == q && b < r)
  {
    Ordered(a, q, m);
    Ordered(q, a, m);
  }

  lemma {:induction false} Remainder(n: nat, m: nat, q: nat, r: nat)
    requires r < m && n == q * m + r
    ensures n % m == r && n / m == q
  {
    assert n == (n / m) * m + n % m;
    QuotientOrder(n / m, n % m, q, r, m);
    QuotientOrder(q, r, n / m, n % m, m);
  }
}

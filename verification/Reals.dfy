/** A few facts of real arithmetic that the solver needs one at a time, on quotients and products. */
module Reals {

  lemma {:induction false} ScaleOrder(x: real, y: real, b: real)
    requires b > 0.0
    ensures x < y <==> x * b < y * b
  {
    if x < y {
      assert (y - x) * b > 0.0;
    } else {
      assert (x - y) * b >= 0.0;
    }
  }

  lemma {:induction false} DivideTimes(a: real, b: real)
    requires b > 0.0
    ensures (a / b) * b == a
  {
  }

  lemma {:induction false} DivideBetween(lo: real, a: real, hi: real, b: real)
    requires b > 0.0 && lo * b < a < hi * b
    ensures lo < a / b < hi
  {
    DivideTimes(a, b);
    ScaleOrder(lo, a / b, b);
    ScaleOrder(a / b, hi, b);
  }
}

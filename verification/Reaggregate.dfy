/** Reaggregating losses by fewer tags. */
module Reaggregate {
  // `reagg_idxs` is a projection in mixed radix.

  import opened Basics
  import opened Aggregate
  import opened Losses

  // ----- mixed radix

  function Prod(shape: seq<nat>): nat {
    if shape == [] then 1 else shape[0] * Prod(shape[1..])
  }

  ghost predicate InShape(idx: seq<nat>, shape: seq<nat>) {
    |idx| == |shape| && forall d :: 0 <= d < |shape| ==> idx[d] < shape[d]
  }

  /** The flat index of a tuple, the last coordinate running fastest. */
  function Ravel(idx: seq<nat>, shape: seq<nat>): nat
    requires |idx| == |shape|
  {
    if shape == [] then 0 else idx[0] * Prod(shape[1..]) + Ravel(idx[1..], shape[1..])
  }

  function Unravel(n: nat, shape: seq<nat>): (idx: seq<nat>)
    requires n < Prod(shape)
    ensures |idx| == |shape|
    decreases |shape|
  {
    if shape == [] then []
    else
      var r := Prod(shape[1..]);
      Digit(n, shape[0], r);
      [n / r] + Unravel(n % r, shape[1..])
  }

  lemma {:induction false} Digit(n: nat, k: nat, r: nat)
    requires n < k * r
    ensures r > 0 && n / r < k && n % r < r
  {
    Divide(n, k, r);
  }

  lemma {:induction false} Divide(n: nat, k: nat, r: nat)
    requires n < k * r
    ensures r > 0 && n / r < k && n == (n / r) * r + n % r && n % r < r
  {
    assert r == 0 ==> k * r == 0;
    Less(n / r, k, r, n % r);
  }

  /** a * r + b with b < r, compared with k * r. */
  lemma {:induction false} Less(a: nat, k: nat, r: nat, b: nat)
    requires r > 0 ==> b < r
    ensures r > 0 ==> (a * r + b < k * r <==> a < k)
  {
    assert a < k ==> (k - a - 1) * r >= 0;
    assert a >= k ==> (a - k) * r >= 0;
    assert k * r == a * r + (k - a) * r;
    assert (k - a) * r == (k - a - 1) * r + r;
  }

  lemma {:induction false} Quotient(a: nat, r: nat, b: nat)
    requires b < r
    ensures (a * r + b) / r == a && (a * r + b) % r == b
  {
    var n := a * r + b;
    assert n == (n / r) * r + n % r;
    Less(n / r, a + 1, r, n % r);
    Less(a, n / r + 1, r, b);
    assert (a + 1) * r == a * r + r;
    assert (n / r + 1) * r == (n / r) * r + r;
  }

  lemma {:induction false} UnravelStep(n: nat, shape: seq<nat>)
    requires shape != [] && n < Prod(shape)
    ensures var r := Prod(shape[1..]);
      && r > 0 && n / r < shape[0] && n % r < r && n == (n / r) * r + n % r
      && Unravel(n, shape) == [n / r] + Unravel(n % r, shape[1..])
  {
    Divide(n, shape[0], Prod(shape[1..]));
  }

  lemma {:induction false} UnravelNothing(n: nat)
    requires n < Prod([])
    ensures Unravel(n, []) == [] && Ravel([], []) == n
  {
  }

  lemma {:induction false} UnravelFacts(n: nat, shape: seq<nat>)
    requires n < Prod(shape)
    ensures InShape(Unravel(n, shape), shape) && Ravel(Unravel(n, shape), shape) == n
    decreases |shape|
  {
    hide Unravel, Prod, Ravel;
    if shape == [] {
      UnravelNothing(n);
    } else {
      UnravelStep(n, shape);
      var r := Prod(shape[1..]);
      UnravelFacts(n % r, shape[1..]);
      RavelCons(n / r, Unravel(n % r, shape[1..]), shape);
    }
  }

  lemma {:induction false} RavelCons(a: nat, tail: seq<nat>, shape: seq<nat>)
    requires shape != [] && a < shape[0] && InShape(tail, shape[1..])
    ensures InShape([a] + tail, shape)
    ensures Ravel([a] + tail, shape) == a * Prod(shape[1..]) + Ravel(tail, shape[1..])
  {
    assert ([a] + tail)[1..] == tail;
  }

  /** Ravel and Unravel are inverse: flat indices and tuples correspond one to one. */
  lemma {:induction false} RavelFacts(idx: seq<nat>, shape: seq<nat>)
    requires InShape(idx, shape)
    ensures Ravel(idx, shape) < Prod(shape) && Unravel(Ravel(idx, shape), shape) == idx
  {
    if shape != [] {
      var r, b := Prod(shape[1..]), Ravel(idx[1..], shape[1..]);
      RavelFacts(idx[1..], shape[1..]);
      Less(idx[0], shape[0], r, b);
      Quotient(idx[0], r, b);
      assert idx == [idx[0]] + idx[1..];
    }
  }

  // ----- projections

  /** The elements at the kept positions. */
  function Project<X>(xs: seq<X>, keep: seq<bool>): seq<X>
    requires |xs| == |keep|
  {
    if xs == [] then []
    else if keep[0] then [xs[0]] + Project(xs[1..], keep[1..])
    else Project(xs[1..], keep[1..])
  }

  function Dropped(shape: seq<nat>, keep: seq<bool>): seq<nat>
    requires |shape| == |keep|
  {
    Project(shape, seq(|keep|, d requires 0 <= d < |keep| => !keep[d]))
  }

  lemma {:induction false} ProjectInShape(idx: seq<nat>, shape: seq<nat>, keep: seq<bool>)
    requires InShape(idx, shape) && |shape| == |keep|
    ensures InShape(Project(idx, keep), Project(shape, keep))
  {
    if shape != [] {
      ProjectInShape(idx[1..], shape[1..], keep[1..]);
    }
  }

  lemma {:induction false} ProjectLength<X, Y>(a: seq<X>, b: seq<Y>, keep: seq<bool>)
    requires |a| == |b| == |keep|
    ensures |Project(a, keep)| == |Project(b, keep)|
  {
    if a != [] {
      ProjectLength(a[1..], b[1..], keep[1..]);
    }
  }

  /** The flat index of the projection of a tuple given by its flat index. */
  function Target(c: nat, shape: seq<nat>, keep: seq<bool>): nat
    requires |shape| == |keep| && c < Prod(shape)
  {
    UnravelFacts(c, shape);
    ProjectLength(Unravel(c, shape), shape, keep);
    Ravel(Project(Unravel(c, shape), keep), Project(shape, keep))
  }

  lemma {:induction false} TargetFacts(c: nat, shape: seq<nat>, keep: seq<bool>)
    requires |shape| == |keep| && c < Prod(shape)
    ensures var p := Project(shape, keep);
      Target(c, shape, keep) < Prod(p) && Unravel(Target(c, shape, keep), p) == Project(Unravel(c, shape), keep)
  {
    UnravelFacts(c, shape);
    ProjectInShape(Unravel(c, shape), shape, keep);
    RavelFacts(Project(Unravel(c, shape), keep), Project(shape, keep));
  }

  // ----- reagg_idxs

  /** `itertools.product` of ranges. */
  function Product(shape: seq<nat>): seq<seq<nat>> {
    if shape == [] then [[]] else Prefixed(shape[0], Product(shape[1..]))
  }

  function Prefixed(n: nat, tails: seq<seq<nat>>): seq<seq<nat>> {
    if n == 0 then [] else Prefixed(n - 1, tails) + seq(|tails|, i requires 0 <= i < |tails| => [n - 1] + tails[i])
  }

  lemma {:induction false} PrefixedLength(n: nat, tails: seq<seq<nat>>)
    ensures |Prefixed(n, tails)| == n * |tails|
  {
    if n > 0 {
      PrefixedLength(n - 1, tails);
    }
  }

  lemma {:induction false} PrefixedAt(n: nat, tails: seq<seq<nat>>, a: nat, b: nat)
    requires a < n && b < |tails|
    ensures 0 <= a * |tails| + b < |Prefixed(n, tails)|
    ensures Prefixed(n, tails)[a * |tails| + b] == [a] + tails[b]
  {
    PrefixedLength(n, tails);
    PrefixedLength(n - 1, tails);
    Less(a, n, |tails|, b);
    Less(a, n - 1, |tails|, b);
    if a < n - 1 {
      PrefixedAt(n - 1, tails, a, b);
    }
  }

  /** The i-th tuple of the product is the one with flat index i. */
  lemma {:induction false} ProductAt(shape: seq<nat>)
    ensures |Product(shape)| == Prod(shape)
    ensures forall i: nat :: i < Prod(shape) ==> Product(shape)[i] == Unravel(i, shape)
  {
    if shape != [] {
      ProductAt(shape[1..]);
      PrefixedLength(shape[0], Product(shape[1..]));
      forall i: nat | i < Prod(shape) ensures Product(shape)[i] == Unravel(i, shape) {
        ProductStep(i, shape);
      }
    }
  }

  lemma {:induction false} ProductStep(i: nat, shape: seq<nat>)
    requires shape != [] && i < Prod(shape) == |Product(shape)|
    requires |Product(shape[1..])| == Prod(shape[1..])
    requires forall k: nat :: k < Prod(shape[1..]) ==> Product(shape[1..])[k] == Unravel(k, shape[1..])
    ensures Product(shape)[i] == Unravel(i, shape)
  {
    hide Prefixed;
    var tails := Product(shape[1..]);
    Divide(i, shape[0], |tails|);
    var a, b := i / |tails|, i % |tails|;
    PrefixedAt(shape[0], tails, a, b);
    assert Unravel(i, shape) == [a] + Unravel(b, shape[1..]);
  }

  /** Which of n tags are among the chosen ones. */
  function Chosen(n: nat, sel: seq<nat>): (keep: seq<bool>)
    ensures |keep| == n
  {
    seq(n, d => d in sel)
  }

  /** `reagg_idxs`: for each tuple of coordinates of the chosen tags, in the order of the product,
      write its number in all the cells that have these coordinates. */
  method ReaggIdxs(shape: seq<nat>, sel: seq<nat>) returns (arr: array<nat>)
    ensures arr.Length == Prod(shape)
    ensures forall c: nat :: c < arr.Length ==> arr[c] == Target(c, shape, Chosen(|shape|, sel))
  {
    var keep := Chosen(|shape|, sel);
    var T := Prod(shape);
    arr := new nat[T](c => c);
    var kept := Project(shape, keep);
    var idxs := Product(kept);
    ProductAt(kept);
    forall c: nat | c < T
      ensures Target(c, shape, keep) < |idxs| && Project(Unravel(c, shape), keep) == idxs[Target(c, shape, keep)]
    {
      TargetFacts(c, shape, keep);
    }
    for i := 0 to |idxs|
      invariant forall c: nat :: c < T && Target(c, shape, keep) < i ==> arr[c] == Target(c, shape, keep)
    {
      forall c: nat | c < T ensures Project(Unravel(c, shape), keep) == idxs[i] <==> Target(c, shape, keep) == i {
        UnravelFacts(i, kept);
      }
      forall c: nat | c < T && Project(Unravel(c, shape), keep) == idxs[i] {
        arr[c] := i;
      }
    }
  }

  // ----- every target has the same number of preimages

  function Shift(r: seq<nat>, k: nat): seq<nat> {
    seq(|r|, i requires 0 <= i < |r| => r[i] + k)
  }

  function Blocks(n: nat, r: seq<nat>, step: nat): seq<nat> {
    if n == 0 then [] else Blocks(n - 1, r, step) + Shift(r, (n - 1) * step)
  }

  /** All the targets, built dimension by dimension. */
  function Targets(shape: seq<nat>, keep: seq<bool>): seq<nat>
    requires |shape| == |keep|
  {
    if shape == [] then [0]
    else Blocks(shape[0], Targets(shape[1..], keep[1..]), if keep[0] then Prod(Project(shape[1..], keep[1..])) else 0)
  }

  lemma {:induction false} BlocksLength(n: nat, r: seq<nat>, step: nat)
    ensures |Blocks(n, r, step)| == n * |r|
  {
    if n > 0 {
      BlocksLength(n - 1, r, step);
    }
  }

  lemma {:induction false} BlocksAt(n: nat, r: seq<nat>, step: nat, a: nat, b: nat)
    requires a < n && b < |r|
    ensures 0 <= a * |r| + b < |Blocks(n, r, step)|
    ensures Blocks(n, r, step)[a * |r| + b] == r[b] + a * step
  {
    BlocksLength(n, r, step);
    BlocksLength(n - 1, r, step);
    Less(a, n, |r|, b);
    Less(a, n - 1, |r|, b);
    if a < n - 1 {
      BlocksAt(n - 1, r, step, a, b);
    }
  }

  lemma {:induction false} TargetStep(c: nat, shape: seq<nat>, keep: seq<bool>)
    requires |shape| == |keep| > 0 && c < Prod(shape)
    ensures var r := Prod(shape[1..]);
      && r > 0 && c % r < r
      && Target(c, shape, keep) == Target(c % r, shape[1..], keep[1..]) +
           (if keep[0] then (c / r) * Prod(Project(shape[1..], keep[1..])) else 0)
  {
    var r := Prod(shape[1..]);
    Divide(c, shape[0], r);
    var m := Unravel(c, shape);
    assert m == [c / r] + Unravel(c % r, shape[1..]);
    assert m[1..] == Unravel(c % r, shape[1..]);
    UnravelFacts(c, shape);
    UnravelFacts(c % r, shape[1..]);
    ProjectLength(m[1..], shape[1..], keep[1..]);
    var p, q := Project(m, keep), Project(shape, keep);
    if keep[0] {
      assert p[1..] == Project(m[1..], keep[1..]) && q[1..] == Project(shape[1..], keep[1..]);
    }
  }

  lemma {:induction false} TargetsAt(shape: seq<nat>, keep: seq<bool>)
    requires |shape| == |keep|
    ensures |Targets(shape, keep)| == Prod(shape)
    ensures forall c: nat :: c < Prod(shape) ==> Targets(shape, keep)[c] == Target(c, shape, keep)
  {
    if shape != [] {
      var r := Targets(shape[1..], keep[1..]);
      var step := if keep[0] then Prod(Project(shape[1..], keep[1..])) else 0;
      TargetsAt(shape[1..], keep[1..]);
      BlocksLength(shape[0], r, step);
      forall c: nat | c < Prod(shape) ensures Targets(shape, keep)[c] == Target(c, shape, keep) {
        TargetsStep(c, shape, keep);
      }
    }
  }

  lemma {:induction false} TargetsStep(c: nat, shape: seq<nat>, keep: seq<bool>)
    requires |shape| == |keep| > 0 && c < Prod(shape) == |Targets(shape, keep)|
    requires |Targets(shape[1..], keep[1..])| == Prod(shape[1..])
    requires forall k: nat :: k < Prod(shape[1..]) ==>
      Targets(shape[1..], keep[1..])[k] == Target(k, shape[1..], keep[1..])
    ensures Targets(shape, keep)[c] == Target(c, shape, keep)
  {
    hide Blocks, Target;
    var r := Targets(shape[1..], keep[1..]);
    var step := if keep[0] then Prod(Project(shape[1..], keep[1..])) else 0;
    Divide(c, shape[0], |r|);
    var a, b := c / |r|, c % |r|;
    BlocksAt(shape[0], r, step, a, b);
    assert Targets(shape, keep)[c] == r[b] + a * step;
    hide Targets, Prod, Project;
    TargetStep(c, shape, keep);
  }

  function Count(xs: seq<nat>, j: nat): nat {
    if xs == [] then 0 else Count(xs[..|xs| - 1], j) + if xs[|xs| - 1] == j then 1 else 0
  }

  lemma {:induction false} CountAppend(a: seq<nat>, b: seq<nat>, j: nat)
    ensures Count(a + b, j) == Count(a, j) + Count(b, j)
  {
    if b == [] {
      assert a + b == a;
    } else {
      assert (a + b)[..|a + b| - 1] == a + b[..|b| - 1];
      CountAppend(a, b[..|b| - 1], j);
    }
  }

  lemma {:induction false} CountShift(r: seq<nat>, k: nat, j: nat)
    ensures Count(Shift(r, k), j) == if j >= k then Count(r, j - k) else 0
  {
    if r != [] {
      var n := |r| - 1;
      assert Shift(r, k)[..n] == Shift(r[..n], k);
      CountShift(r[..n], k, j);
    }
  }

  lemma {:induction false} CountNone(r: seq<nat>, q: nat, j: nat)
    requires forall i :: 0 <= i < |r| ==> r[i] < q
    requires j >= q
    ensures Count(r, j) == 0
  {
    if r != [] {
      CountNone(r[..|r| - 1], q, j);
    }
  }

  lemma {:induction false} CountRepeated(n: nat, r: seq<nat>, j: nat)
    ensures Count(Blocks(n, r, 0), j) == n * Count(r, j)
  {
    if n > 0 {
      CountRepeated(n - 1, r, j);
      assert Shift(r, (n - 1) * 0) == r;
      CountAppend(Blocks(n - 1, r, 0), r, j);
      assert n * Count(r, j) == (n - 1) * Count(r, j) + Count(r, j);
    }
  }

  /** The number a * q + b, seen from the block k * q: before it, in it or after it. */
  lemma {:induction false} Position(a: nat, q: nat, b: nat, k: nat)
    requires b < q
    ensures a < k ==> a * q + b < k * q
    ensures a == k ==> a * q + b - k * q == b
    ensures a > k ==> a * q + b - k * q >= q
  {
    Less(a, k, q, b);
    Difference(a, k, q);
    if a > k {
      AtLeastOnce(a - k, q);
    }
  }

  lemma {:induction false} CountStacked(n: nat, r: seq<nat>, q: nat, a: nat, b: nat)
    requires b < q && forall i :: 0 <= i < |r| ==> r[i] < q
    ensures Count(Blocks(n, r, q), a * q + b) == if a < n then Count(r, b) else 0
  {
    hide Count;
    if n > 0 {
      CountStacked(n - 1, r, q, a, b);
      var j, k := a * q + b, (n - 1) * q;
      CountAppend(Blocks(n - 1, r, q), Shift(r, k), j);
      CountShift(r, k, j);
      Position(a, q, b, n - 1);
      if a > n - 1 {
        CountNone(r, q, j - k);
      }
    } else {
      assert Blocks(n, r, q) == [];
      CountEmpty(a * q + b);
    }
  }

  lemma {:induction false} CountEmpty(j: nat)
    ensures Count([], j) == 0
  {
  }

  lemma {:induction false} DroppedStep(shape: seq<nat>, keep: seq<bool>)
    requires |shape| == |keep| > 0
    ensures Dropped(shape, keep) ==
      if keep[0] then Dropped(shape[1..], keep[1..]) else [shape[0]] + Dropped(shape[1..], keep[1..])
  {
    var not := seq(|keep|, d requires 0 <= d < |keep| => !keep[d]);
    var not' := seq(|keep[1..]|, d requires 0 <= d < |keep[1..]| => !keep[1..][d]);
    assert not[1..] == not';
  }

  /** Every target has as many preimages as there are tuples of dropped coordinates. */
  lemma {:induction false} EqualPreimages(shape: seq<nat>, keep: seq<bool>, j: nat)
    requires |shape| == |keep| && j < Prod(Project(shape, keep))
    ensures Count(Targets(shape, keep), j) == Prod(Dropped(shape, keep))
  {
    if shape == [] {
      assert Dropped(shape, keep) == [];
    } else if keep[0] {
      PreimagesKept(shape, keep, j);
      EqualPreimages(shape[1..], keep[1..], j % Prod(Project(shape[1..], keep[1..])));
    } else {
      PreimagesDropped(shape, keep, j);
      EqualPreimages(shape[1..], keep[1..], j);
    }
  }

  lemma {:induction false} PreimagesKept(shape: seq<nat>, keep: seq<bool>, j: nat)
    requires |shape| == |keep| > 0 && keep[0] && j < Prod(Project(shape, keep))
    ensures var q := Prod(Project(shape[1..], keep[1..]));
      && q > 0 && j % q < q
      && Count(Targets(shape, keep), j) == Count(Targets(shape[1..], keep[1..]), j % q)
      && Dropped(shape, keep) == Dropped(shape[1..], keep[1..])
  {
    hide Count, Blocks, Dropped;
    var rest, krest := shape[1..], keep[1..];
    var r, q := Targets(rest, krest), Prod(Project(rest, krest));
    DroppedStep(shape, keep);
    assert Project(shape, keep)[1..] == Project(rest, krest);
    Divide(j, shape[0], q);
    TargetsBelow(rest, krest);
    CountStacked(shape[0], r, q, j / q, j % q);
  }

  lemma {:induction false} PreimagesDropped(shape: seq<nat>, keep: seq<bool>, j: nat)
    requires |shape| == |keep| > 0 && !keep[0]
    ensures Project(shape, keep) == Project(shape[1..], keep[1..])
    ensures Count(Targets(shape, keep), j) == shape[0] * Count(Targets(shape[1..], keep[1..]), j)
    ensures Prod(Dropped(shape, keep)) == shape[0] * Prod(Dropped(shape[1..], keep[1..]))
  {
    hide Count, Blocks, Dropped;
    DroppedStep(shape, keep);
    CountRepeated(shape[0], Targets(shape[1..], keep[1..]), j);
    assert Dropped(shape, keep)[1..] == Dropped(shape[1..], keep[1..]);
  }

  lemma {:induction false} TargetsBelow(shape: seq<nat>, keep: seq<bool>)
    requires |shape| == |keep|
    ensures forall i :: 0 <= i < |Targets(shape, keep)| ==> Targets(shape, keep)[i] < Prod(Project(shape, keep))
  {
    TargetsAt(shape, keep);
    forall c: nat | c < Prod(shape) ensures Target(c, shape, keep) < Prod(Project(shape, keep)) {
      TargetFacts(c, shape, keep);
    }
  }

  lemma {:induction false} CountPositive(xs: seq<nat>, j: nat)
    ensures Count(xs, j) > 0 <==> j in xs
  {
    if xs != [] {
      CountPositive(xs[..|xs| - 1], j);
      assert xs == xs[..|xs| - 1] + [xs[|xs| - 1]];
    }
  }

  /** The projection is onto exactly when no dropped tag is without values (or there is
      nothing to reach). */
  lemma {:induction false} OntoIff(shape: seq<nat>, keep: seq<bool>)
    requires |shape| == |keep|
    ensures (forall j: nat :: j < Prod(Project(shape, keep)) ==> j in Targets(shape, keep)) <==>
            Prod(Project(shape, keep)) == 0 || Prod(Dropped(shape, keep)) > 0
  {
    forall j: nat | j < Prod(Project(shape, keep))
      ensures j in Targets(shape, keep) <==> Prod(Dropped(shape, keep)) > 0
    {
      EqualPreimages(shape, keep, j);
      CountPositive(Targets(shape, keep), j);
    }
    if Prod(Project(shape, keep)) > 0 {
      assert 0 in Targets(shape, keep) <==> Prod(Dropped(shape, keep)) > 0;
    }
  }

  /** A dropped tag without values: two indices to reach, and no cell. */
  lemma {:induction false} OntoWitness()
    ensures Targets([2, 0], [true, false]) == [] && Prod(Project([2, 0], [true, false])) == 2
  {
    assert [2, 0][1..] == [0] && [0][1..] == [] && [true, false][1..] == [false] && [false][1..] == [];
    assert Targets([0], [false]) == [];
    BlocksLength(2, [], Prod(Project([0], [false])));
    assert Project([2, 0], [true, false]) == [2] && [2][1..] == [];
  }

  // ----- two steps are one

  ghost predicate Within(inner: seq<bool>, outer: seq<bool>) {
    |inner| == |outer| && forall d :: 0 <= d < |outer| ==> (inner[d] ==> outer[d])
  }

  lemma {:induction false} ProjectTwice<X>(xs: seq<X>, outer: seq<bool>, inner: seq<bool>)
    requires |xs| == |outer| && Within(inner, outer)
    ensures |Project(xs, outer)| == |Project(inner, outer)|
    ensures Project(Project(xs, outer), Project(inner, outer)) == Project(xs, inner)
  {
    ProjectLength(xs, inner, outer);
    if xs != [] {
      ProjectTwice(xs[1..], outer[1..], inner[1..]);
      ProjectLength(xs[1..], inner[1..], outer[1..]);
      if outer[0] {
        assert Project(xs, outer)[1..] == Project(xs[1..], outer[1..]);
        assert Project(inner, outer)[1..] == Project(inner[1..], outer[1..]);
      }
    }
  }

  /** Projecting on some tags and then on a subset of them is projecting on the subset. */
  lemma {:induction false} TwoStepsAreOne(c: nat, shape: seq<nat>, outer: seq<bool>, inner: seq<bool>)
    requires |shape| == |outer| && Within(inner, outer) && c < Prod(shape)
    ensures |Project(shape, outer)| == |Project(inner, outer)|
    ensures Target(c, shape, outer) < Prod(Project(shape, outer))
    ensures Target(Target(c, shape, outer), Project(shape, outer), Project(inner, outer)) == Target(c, shape, inner)
  {
    TargetFacts(c, shape, outer);
    UnravelFacts(c, shape);
    ProjectTwice(shape, outer, inner);
    ProjectTwice(Unravel(c, shape), outer, inner);
  }

  // ----- the reaggregated event loss table

  /** `concatenate([reagg_idxs, [K]])`: the index after the tags is the one of the total. */
  function Idxs(shape: seq<nat>, keep: seq<bool>, K: nat): seq<nat>
    requires |shape| == |keep|
  {
    Targets(shape, keep) + [K]
  }

  ghost predicate InTable(t: seq<LossRow>, n: nat) {
    forall i :: 0 <= i < |t| ==> t[i].aggId < n
  }

  function Renumber(t: seq<LossRow>, idxs: seq<nat>): seq<LossRow>
    requires forall i :: 0 <= i < |t| ==> t[i].aggId < |idxs|
  {
    seq(|t|, i requires 0 <= i < |t| => t[i].(aggId := idxs[t[i].aggId]))
  }

  datatype Key = Key(eventId: nat, lossId: nat, aggId: nat)

  function RowKeys(t: seq<LossRow>): (k: seq<Key>)
    ensures |k| == |t|
  {
    seq(|t|, i requires 0 <= i < |t| => Key(t[i].eventId, t[i].lossId, t[i].aggId))
  }

  function RowValues(t: seq<LossRow>): (v: seq<Pair>)
    ensures |v| == |t|
  {
    seq(|t|, i requires 0 <= i < |t| => t[i].value)
  }

  /** `groupby(['event_id', 'loss_id', 'agg_id']).sum()`. */
  function GroupBySum(t: seq<LossRow>): seq<LossRow> {
    var keys := RowKeys(t);
    var u := Unique(keys);
    seq(|u|, i requires 0 <= i < |u| =>
      LossRow(u[i].eventId, u[i].aggId, u[i].lossId, KeySum(keys, RowValues(t), u[i])))
  }

  function Reagg(t: seq<LossRow>, shape: seq<nat>, keep: seq<bool>, K: nat): seq<LossRow>
    requires |shape| == |keep| && InTable(t, Prod(shape) + 1)
  {
    TargetsAt(shape, keep);
    GroupBySum(Renumber(t, Idxs(shape, keep, K)))
  }

  function KeyIn(li: nat, q: (nat, nat) -> bool): Key -> bool {
    (k: Key) => k.lossId == li && q(k.eventId, k.aggId)
  }

  lemma {:induction false} TotalByKeys(t: seq<LossRow>, li: nat, q: (nat, nat) -> bool)
    ensures TableTotal(t, li, q) == Total(RowKeys(t), RowValues(t), KeyIn(li, q))
  {
    if t == [] {
    } else {
      var n := |t| - 1;
      assert t == t[..n] + [t[n]];
      TableTotalAppend(t[..n], [t[n]], li, q);
      assert [t[n]][1..] == [];
      TotalByKeys(t[..n], li, q);
      assert RowKeys(t)[..n] == RowKeys(t[..n]) && RowValues(t)[..n] == RowValues(t[..n]);
    }
  }

  lemma {:induction false} GroupRows(u: seq<Key>, keys: seq<Key>, values: seq<Pair>, li: nat, q: (nat, nat) -> bool)
    requires |keys| == |values|
    ensures TableTotal(seq(|u|, i requires 0 <= i < |u| =>
      LossRow(u[i].eventId, u[i].aggId, u[i].lossId, KeySum(keys, values, u[i]))), li, q)
         == GroupTotal(u, keys, values, KeyIn(li, q))
  {
    var t := seq(|u|, i requires 0 <= i < |u| =>
      LossRow(u[i].eventId, u[i].aggId, u[i].lossId, KeySum(keys, values, u[i])));
    if u != [] {
      var n := |u| - 1;
      var v := u[..n];
      var t' := seq(|v|, i requires 0 <= i < |v| =>
        LossRow(v[i].eventId, v[i].aggId, v[i].lossId, KeySum(keys, values, v[i])));
      GroupRows(v, keys, values, li, q);
      assert t == t' + [t[n]];
      TableTotalAppend(t', [t[n]], li, q);
      assert [t[n]][1..] == [];
    }
  }

  /** Grouping and summing conserves every total. */
  lemma {:induction false} GroupByConserves(t: seq<LossRow>, li: nat, q: (nat, nat) -> bool)
    ensures TableTotal(GroupBySum(t), li, q) == TableTotal(t, li, q)
  {
    var keys, values := RowKeys(t), RowValues(t);
    TotalByKeys(t, li, q);
    GroupRows(Unique(keys), keys, values, li, q);
    GroupingConserves(Unique(keys), keys, values, KeyIn(li, q));
  }

  // ----- one row for each event, loss type and key

  ghost predicate HasId(t: seq<LossRow>, r: LossRow) {
    exists i :: 0 <= i < |t| && SameId(t[i], r)
  }

  lemma {:induction false} KeyOfRow(t: seq<LossRow>, r: LossRow)
    ensures Key(r.eventId, r.lossId, r.aggId) in RowKeys(t) <==> HasId(t, r)
  {
    var k := Key(r.eventId, r.lossId, r.aggId);
    assert forall i :: 0 <= i < |t| ==> RowKeys(t)[i] == Key(t[i].eventId, t[i].lossId, t[i].aggId);
    if i :| 0 <= i < |t| && SameId(t[i], r) {
      assert RowKeys(t)[i] == k;
    }
  }

  lemma {:induction false} KeySumOfRow(t: seq<LossRow>, e: nat, li: nat, a: nat)
    ensures KeySum(RowKeys(t), RowValues(t), Key(e, li, a)) == TableTotal(t, li, At(e, a))
  {
    var p := (k: Key) => k == Key(e, li, a);
    TotalByKeys(t, li, At(e, a));
    KeySumIsTotal(RowKeys(t), RowValues(t), Key(e, li, a), p);
    forall i | 0 <= i < |t| ensures p(RowKeys(t)[i]) <==> KeyIn(li, At(e, a))(RowKeys(t)[i]) {
      var k := RowKeys(t)[i];
      assert KeyIn(li, At(e, a))(k) <==> k.lossId == li && At(e, a)(k.eventId, k.aggId);
      assert At(e, a)(k.eventId, k.aggId) <==> k.eventId == e && k.aggId == a;
    }
    TotalCongruence(RowKeys(t), RowKeys(t), RowValues(t), p, KeyIn(li, At(e, a)));
  }

  /** A row of the grouped table: what there is for its event, loss type and key. */
  ghost predicate IsGroup(r: LossRow, t: seq<LossRow>) {
    HasId(t, r) && r.value == TableTotal(t, r.lossId, At(r.eventId, r.aggId))
  }

  lemma {:induction false} GroupedRow(t: seq<LossRow>, i: nat)
    requires i < |GroupBySum(t)|
    ensures IsGroup(GroupBySum(t)[i], t)
    ensures var r := GroupBySum(t)[i]; Unique(RowKeys(t))[i] == Key(r.eventId, r.lossId, r.aggId)
  {
    hide TableTotal, KeySum, Unique, HasId;
    var r := GroupBySum(t)[i];
    KeyOfRow(t, r);
    KeySumOfRow(t, r.eventId, r.lossId, r.aggId);
  }

  /** The group-by-sum has one row for each event, loss type and key that has some row, with the total
      of these, and no other row. */
  lemma {:induction false} GroupBySumRows(t: seq<LossRow>)
    ensures NoDuplicates(GroupBySum(t))
    ensures forall r :: r in GroupBySum(t) <==> IsGroup(r, t)
  {
    hide TableTotal, KeySum, HasId, IsGroup, GroupBySum;
    var u, g := Unique(RowKeys(t)), GroupBySum(t);
    hide Unique;
    GroupsLength(t);
    forall i | 0 <= i < |g|
      ensures IsGroup(g[i], t) && u[i] == Key(g[i].eventId, g[i].lossId, g[i].aggId)
    {
      GroupedRow(t, i);
    }
    forall r ensures r in g <==> IsGroup(r, t) {
      if IsGroup(r, t) {
        var i := GroupOf(t, r);
      }
    }
  }

  lemma {:induction false} GroupsLength(t: seq<LossRow>)
    ensures |GroupBySum(t)| == |Unique(RowKeys(t))|
  {
  }

  lemma {:induction false} GroupOf(t: seq<LossRow>, r: LossRow) returns (i: nat)
    requires IsGroup(r, t)
    ensures i < |GroupBySum(t)| && GroupBySum(t)[i] == r
  {
    hide TableTotal, KeySum, HasId;
    KeyOfRow(t, r);
    KeySumOfRow(t, r.eventId, r.lossId, r.aggId);
    var keys := RowKeys(t);
    var k := Key(r.eventId, r.lossId, r.aggId);
    var j :| 0 <= j < |keys| && keys[j] == k;
    assert k in Unique(keys);
    i :| 0 <= i < |Unique(keys)| && Unique(keys)[i] == k;
  }

  lemma {:induction false} RenumberTotal(
    t: seq<LossRow>, idxs: seq<nat>, li: nat, q: (nat, nat) -> bool, p: (nat, nat) -> bool)
    requires InTable(t, |idxs|)
    requires forall e: nat, k: nat :: k < |idxs| ==> (p(e, k) <==> q(e, idxs[k]))
    ensures TableTotal(Renumber(t, idxs), li, q) == TableTotal(t, li, p)
  {
    if t != [] {
      assert Renumber(t, idxs)[1..] == Renumber(t[1..], idxs);
      RenumberTotal(t[1..], idxs, li, q, p);
    }
  }

  /** Each total of the new table is the total of the old one over the preimage. */
  lemma {:induction false} ReaggTotal(
    t: seq<LossRow>, shape: seq<nat>, keep: seq<bool>, K: nat, li: nat, q: (nat, nat) -> bool, p: (nat, nat) -> bool)
    requires |shape| == |keep| && InTable(t, Prod(shape) + 1)
    requires forall e: nat, k: nat :: k < Prod(shape) ==> (p(e, k) <==> q(e, Target(k, shape, keep)))
    requires forall e: nat :: p(e, Prod(shape)) <==> q(e, K)
    ensures TableTotal(Reagg(t, shape, keep, K), li, q) == TableTotal(t, li, p)
  {
    hide Targets, Target, Prod, GroupBySum, Renumber, TableTotal;
    TargetsAt(shape, keep);
    var idxs := Idxs(shape, keep, K);
    RenumberTotal(t, idxs, li, q, p);
    GroupByConserves(Renumber(t, idxs), li, q);
  }

  /** Where a row goes: the flat index of the projection of its tuple, and the total to the total. */
  function NewIndex(k: nat, shape: seq<nat>, keep: seq<bool>, K: nat): nat
    requires |shape| == |keep| && k <= Prod(shape)
  {
    if k < Prod(shape) then Target(k, shape, keep) else K
  }

  function GoesTo(e: nat, a: nat, shape: seq<nat>, keep: seq<bool>, K: nat): (nat, nat) -> bool
    requires |shape| == |keep|
  {
    (e': nat, k: nat) => e' == e && k <= Prod(shape) && NewIndex(k, shape, keep, K) == a
  }

  /** Some row goes to the place of r. */
  ghost predicate Reached(t: seq<LossRow>, r: LossRow, shape: seq<nat>, keep: seq<bool>, K: nat)
    requires |shape| == |keep| && InTable(t, Prod(shape) + 1)
  {
    exists i :: 0 <= i < |t| &&
      t[i].eventId == r.eventId && t[i].lossId == r.lossId && NewIndex(t[i].aggId, shape, keep, K) == r.aggId
  }

  lemma {:induction false} RenumberedId(t: seq<LossRow>, r: LossRow, shape: seq<nat>, keep: seq<bool>, K: nat)
    requires |shape| == |keep| && InTable(t, Prod(shape) + 1)
    ensures InTable(t, |Idxs(shape, keep, K)|)
    ensures HasId(Renumber(t, Idxs(shape, keep, K)), r) <==> Reached(t, r, shape, keep, K)
  {
    hide Targets, Target, Prod;
    TargetsAt(shape, keep);
    var moved := Renumber(t, Idxs(shape, keep, K));
    assert forall i :: 0 <= i < |t| ==> moved[i].aggId == NewIndex(t[i].aggId, shape, keep, K);
    if i :| 0 <= i < |moved| && SameId(moved[i], r) {
      assert t[i].eventId == r.eventId;
    }
    if Reached(t, r, shape, keep, K) {
      var i :| 0 <= i < |t| && t[i].eventId == r.eventId && t[i].lossId == r.lossId
               && NewIndex(t[i].aggId, shape, keep, K) == r.aggId;
      assert SameId(moved[i], r);
    }
  }

  /** Reaggregating leaves one row for each event, loss type and new index that some row of the old
      table goes to, with the total of the rows that go there, and no other row. */
  lemma {:induction false} ReaggRows(t: seq<LossRow>, shape: seq<nat>, keep: seq<bool>, K: nat)
    requires |shape| == |keep| && InTable(t, Prod(shape) + 1)
    ensures NoDuplicates(Reagg(t, shape, keep, K))
    ensures forall r :: r in Reagg(t, shape, keep, K) <==>
      Reached(t, r, shape, keep, K) && r.value == TableTotal(t, r.lossId, GoesTo(r.eventId, r.aggId, shape, keep, K))
  {
    hide Targets, Target, Prod, GroupBySum, TableTotal, Reached, HasId, Renumber, Idxs;
    TargetsAt(shape, keep);
    IdxsLength(shape, keep, K);
    var idxs := Idxs(shape, keep, K);
    GroupBySumRows(Renumber(t, idxs));
    forall r ensures r in Reagg(t, shape, keep, K) <==>
      Reached(t, r, shape, keep, K) && r.value == TableTotal(t, r.lossId, GoesTo(r.eventId, r.aggId, shape, keep, K))
    {
      RenumberedId(t, r, shape, keep, K);
      RenumberedTotal(t, shape, keep, K, r.lossId, r.eventId, r.aggId);
    }
  }

  lemma {:induction false} IdxsLength(shape: seq<nat>, keep: seq<bool>, K: nat)
    requires |shape| == |keep|
    ensures |Idxs(shape, keep, K)| == Prod(shape) + 1
  {
    TargetsAt(shape, keep);
  }

  lemma {:induction false} RenumberedTotal(
    t: seq<LossRow>, shape: seq<nat>, keep: seq<bool>, K: nat, li: nat, e: nat, a: nat)
    requires |shape| == |keep| && InTable(t, Prod(shape) + 1)
    ensures InTable(t, |Idxs(shape, keep, K)|)
    ensures TableTotal(Renumber(t, Idxs(shape, keep, K)), li, At(e, a)) ==
            TableTotal(t, li, GoesTo(e, a, shape, keep, K))
  {
    hide Targets, Target, Prod, Renumber, TableTotal;
    TargetsAt(shape, keep);
    var idxs := Idxs(shape, keep, K);
    forall e': nat, k: nat | k < |idxs| ensures GoesTo(e, a, shape, keep, K)(e', k) <==> At(e, a)(e', idxs[k]) {
      assert idxs[k] == NewIndex(k, shape, keep, K);
    }
    RenumberTotal(t, idxs, li, At(e, a), GoesTo(e, a, shape, keep, K));
  }

  function TagsOf(e: nat, n: nat): (nat, nat) -> bool {
    (e': nat, k: nat) => e' == e && k < n
  }

  function TotalOf(e: nat, n: nat): (nat, nat) -> bool {
    (e': nat, k: nat) => e' == e && k == n
  }

  /** For a full product of tags, reaggregating conserves for each event and loss type both
      the sum over the tags and the total. */
  lemma {:induction false} ReaggConserves(t: seq<LossRow>, shape: seq<nat>, keep: seq<bool>, K: nat, li: nat, e: nat)
    requires |shape| == |keep| && InTable(t, Prod(shape) + 1)
    requires K == Prod(Project(shape, keep))
    ensures TableTotal(Reagg(t, shape, keep, K), li, TagsOf(e, K)) == TableTotal(t, li, TagsOf(e, Prod(shape)))
    ensures TableTotal(Reagg(t, shape, keep, K), li, TotalOf(e, K)) == TableTotal(t, li, TotalOf(e, Prod(shape)))
  {
    hide Reagg, TableTotal;
    forall k: nat | k < Prod(shape) ensures Target(k, shape, keep) < K {
      TargetFacts(k, shape, keep);
    }
    ReaggTotal(t, shape, keep, K, li, TagsOf(e, K), TagsOf(e, Prod(shape)));
    ReaggTotal(t, shape, keep, K, li, TotalOf(e, K), TotalOf(e, Prod(shape)));
  }

  /** The row of the total is kept apart from the tags, if there is room for these below K. */
  lemma {:induction false} TotalApart(t: seq<LossRow>, shape: seq<nat>, keep: seq<bool>, K: nat, li: nat, e: nat)
    requires |shape| == |keep| && InTable(t, Prod(shape) + 1)
    requires Prod(shape) > 0 ==> K >= Prod(Project(shape, keep))
    ensures TableTotal(Reagg(t, shape, keep, K), li, TotalOf(e, K)) == TableTotal(t, li, TotalOf(e, Prod(shape)))
  {
    hide Reagg, TableTotal;
    forall k: nat | k < Prod(shape) ensures Target(k, shape, keep) != K {
      TargetFacts(k, shape, keep);
    }
    ReaggTotal(t, shape, keep, K, li, TotalOf(e, K), TotalOf(e, Prod(shape)));
  }

  /** From the asset losses to the reaggregated table: when the assets are aggregated by one
      family of tags that is a full product, the sum over the new tags is the new total. */
  lemma {:induction false} ReaggregatedTagsSumToTotal(
    s: Setup, outputs: seq<Output>, shape: seq<nat>, keep: seq<bool>, li: nat)
    requires s.Valid() && ValidOutputs(s, outputs) && li < s.L
    requires |s.aggids| == 1 && |shape| == |keep| && s.K == Prod(shape)
    ensures InTable(LossTable(s, outputs), Prod(shape) + 1)
    ensures var K := Prod(Project(shape, keep));
      var t := Reagg(LossTable(s, outputs), shape, keep, K);
      TableTotal(t, li, (e: nat, k: nat) => k < K) == TableTotal(t, li, (e: nat, k: nat) => k == K)
  {
    hide Reagg, TableTotal, LossTable;
    var K, t := Prod(Project(shape, keep)), LossTable(s, outputs);
    LossTableInRange(s, outputs);
    forall k: nat | k < Prod(shape) ensures Target(k, shape, keep) < K {
      TargetFacts(k, shape, keep);
    }
    ReaggTotal(t, shape, keep, K, li, (e: nat, k: nat) => k < K, BelowK(s));
    ReaggTotal(t, shape, keep, K, li, (e: nat, k: nat) => k == K, UnderK(s, AllEvents()));
    FamiliesTimesTotal(s, outputs, li);
    var x := TableTotal(t, li, UnderK(s, AllEvents()));
    assert Times(1, x) == x;
  }
}

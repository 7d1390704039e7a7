/** Reducing results with an associative and commutative operation, in any order of arrival. */
module Folds {
  import opened Tasks

  ghost predicate CommutativeMonoid<V(!new)>(op: (V, V) -> V, unit: V) {
    && (forall a, b :: op(a, b) == op(b, a))
    && (forall a, b, c :: op(op(a, b), c) == op(a, op(b, c)))
    && (forall a :: op(a, unit) == a)
  }

  /** Combining outcomes: an exception absorbs everything. */
  function Join<V>(op: (V, V) -> V, a: Outcome<V>, b: Outcome<V>): Outcome<V> {
    if a.Value? && b.Value? then Value(op(a.v, b.v)) else Raised
  }

  /** The sequential reference: combine g(x) for all x, from left to right. */
  function FoldBy<X, V>(s: seq<X>, g: X -> Outcome<V>, op: (V, V) -> V, unit: V): Outcome<V> {
    if s == [] then Value(unit) else Join(op, g(s[0]), FoldBy(s[1..], g, op, unit))
  }

  lemma {:induction false} FoldAppend<X, V(!new)>(a: seq<X>, b: seq<X>, g: X -> Outcome<V>, op: (V, V) -> V, unit: V)
    requires CommutativeMonoid(op, unit)
    ensures FoldBy(a + b, g, op, unit) == Join(op, FoldBy(a, g, op, unit), FoldBy(b, g, op, unit))
  {
    hide CommutativeMonoid, Join;
    JoinLaws(op, unit);
    if a == [] {
      assert a + b == b;
    } else {
      assert (a + b)[1..] == a[1..] + b;
      FoldAppend(a[1..], b, g, op, unit);
    }
  }

  lemma {:induction false} JoinAssociates<V(!new)>(
    op: (V, V) -> V, unit: V, a: Outcome<V>, b: Outcome<V>, c: Outcome<V>)
    requires CommutativeMonoid(op, unit)
    ensures Join(op, Join(op, a, b), c) == Join(op, a, Join(op, b, c))
    ensures Join(op, a, b) == Join(op, b, a)
    ensures Join(op, a, Value(unit)) == a
  {
    if a.Value? && b.Value? && c.Value? {
      assert op(op(a.v, b.v), c.v) == op(a.v, op(b.v, c.v));
    }
  }

  lemma {:induction false} JoinLaws<V(!new)>(op: (V, V) -> V, unit: V)
    requires CommutativeMonoid(op, unit)
    ensures forall a, b :: Join(op, a, b) == Join(op, b, a)
    ensures forall a, b, c :: Join(op, Join(op, a, b), c) == Join(op, a, Join(op, b, c))
    ensures forall a :: Join(op, a, Value(unit)) == a
  {
    hide CommutativeMonoid, Join;
    forall a, b ensures Join(op, a, b) == Join(op, b, a) {
      JoinAssociates(op, unit, a, b, b);
    }
    forall a, b, c ensures Join(op, Join(op, a, b), c) == Join(op, a, Join(op, b, c)) {
      JoinAssociates(op, unit, a, b, c);
    }
    forall a ensures Join(op, a, Value(unit)) == a {
      JoinAssociates(op, unit, a, a, a);
    }
  }

  lemma {:induction false} RemoveAt<X>(s: seq<X>, i: nat, m: multiset<X>)
    requires i < |s| && multiset(s) == multiset{s[i]} + m
    ensures multiset(s[..i] + s[i + 1..]) == m
  {
    assert s == s[..i] + ([s[i]] + s[i + 1..]);
    var p := multiset(s[..i]) + multiset(s[i + 1..]);
    assert multiset(s) == multiset{s[i]} + p;
    assert p == multiset(s) - multiset{s[i]} == m;
  }

  /** Any element can be combined first. */
  lemma {:induction false} FoldExtract<X, V(!new)>(s: seq<X>, i: nat, g: X -> Outcome<V>, op: (V, V) -> V, unit: V)
    requires CommutativeMonoid(op, unit) && i < |s|
    ensures FoldBy(s, g, op, unit) == Join(op, g(s[i]), FoldBy(s[..i] + s[i + 1..], g, op, unit))
  {
    hide CommutativeMonoid, Join;
    JoinLaws(op, unit);
    var left, right := s[..i], s[i + 1..];
    assert s == left + s[i..] && s[i..][0] == s[i] && s[i..][1..] == right;
    FoldAppend(left, s[i..], g, op, unit);
    FoldAppend(left, right, g, op, unit);
  }

  /** The fold does not depend on the order. */
  lemma {:induction false} FoldPermutation<X, V(!new)>(
    a: seq<X>, b: seq<X>, g: X -> Outcome<V>, op: (V, V) -> V, unit: V)
    requires CommutativeMonoid(op, unit)
    requires multiset(a) == multiset(b)
    ensures FoldBy(a, g, op, unit) == FoldBy(b, g, op, unit)
  {
    hide CommutativeMonoid, Join;
    if a == [] {
      assert |multiset(b)| == 0;
    } else {
      assert a == [a[0]] + a[1..];
      assert a[0] in multiset(b);
      var i :| 0 <= i < |b| && b[i] == a[0];
      RemoveAt(b, i, multiset(a[1..]));
      FoldExtract(b, i, g, op, unit);
      FoldPermutation(a[1..], b[..i] + b[i + 1..], g, op, unit);
    }
  }

  // ----- reduce

  /** `acc = agg(acc, result)` for each result in order of arrival; an exception is raised. */
  function FoldLeft<A, V>(results: seq<Outcome<V>>, agg: (A, V) -> A, acc: A): (r: Outcome<A>)
    ensures r.Raised? <==> exists i :: 0 <= i < |results| && results[i].Raised?
  {
    if results == [] then Value(acc)
    else if results[0].Raised? then Raised
    else FoldLeft(results[1..], agg, agg(acc, results[0].v))
  }

  /** Each result is given to the function together with what the ones before have made. */
  lemma {:induction false} FoldLeftSnoc<A, V>(results: seq<Outcome<V>>, x: Outcome<V>, agg: (A, V) -> A, acc: A)
    ensures FoldLeft([], agg, acc) == Value(acc)
    ensures var r := FoldLeft(results, agg, acc);
      FoldLeft(results + [x], agg, acc) == if r.Raised? || x.Raised? then Raised else Value(agg(r.v, x.v))
  {
    if results == [] {
      assert results + [x] == [x] && [x][1..] == [];
    } else {
      assert (results + [x])[1..] == results[1..] + [x];
      if results[0].Value? {
        FoldLeftSnoc(results[1..], x, agg, agg(acc, results[0].v));
      }
    }
  }

  lemma {:induction false} LeftIsJoin<V(!new)>(results: seq<Outcome<V>>, op: (V, V) -> V, unit: V, acc: V)
    requires CommutativeMonoid(op, unit)
    ensures FoldLeft(results, op, acc) == Join(op, Value(acc), FoldBy(results, o => o, op, unit))
  {
    hide CommutativeMonoid;
    if results == [] {
      JoinAssociates(op, unit, Value(acc), Value(acc), Value(acc));
    } else {
      var rest := FoldBy(results[1..], o => o, op, unit);
      if results[0].Value? {
        LeftIsJoin(results[1..], op, unit, op(acc, results[0].v));
        JoinAssociates(op, unit, Value(acc), results[0], rest);
      }
    }
  }

  /** With a commutative monoid accumulating is combining, in whatever order. */
  lemma {:induction false} LeftIsFold<V(!new)>(results: seq<Outcome<V>>, op: (V, V) -> V, unit: V)
    requires CommutativeMonoid(op, unit)
    ensures FoldLeft(results, op, unit) == FoldBy(results, o => o, op, unit)
  {
    hide CommutativeMonoid, Join;
    LeftIsJoin(results, op, unit, unit);
    JoinAssociates(op, unit, FoldBy(results, o => o, op, unit), Value(unit), Value(unit));
  }

  /** `IterResult.reduce`, with any function and any start. */
  method Reduce<A, V>(results: seq<Outcome<V>>, agg: (A, V) -> A, start: A) returns (r: Outcome<A>)
    ensures r == FoldLeft(results, agg, start)
  {
    var acc := start;
    var i := 0;
    while i < |results|
      invariant 0 <= i <= |results|
      invariant FoldLeft(results[i..], agg, acc) == FoldLeft(results, agg, start)
    {
      if results[i].Raised? {
        return Raised;
      }
      acc := agg(acc, results[i].v);
      i := i + 1;
    }
    r := Value(acc);
  }
}

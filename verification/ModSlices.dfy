/** Selecting every m-th element, `elements[idxs % m == i]`, as both the task splitting and the
    tiling of the sites do. */
module ModSlices {
  import opened Basics

  function ModSlice<T>(s: seq<T>, m: nat, i: nat): seq<T>
    requires m > 0
  {
    if s == [] then []
    else
      var n := |s| - 1;
      if n % m == i then ModSlice(s[..n], m, i) + [s[n]] else ModSlice(s[..n], m, i)
  }

  function Concat<T>(ss: seq<seq<T>>): seq<T> {
    if ss == [] then [] else ss[0] + Concat(ss[1..])
  }

  lemma {:induction false} ConcatAppend<T>(a: seq<seq<T>>, b: seq<seq<T>>)
    ensures Concat(a + b) == Concat(a) + Concat(b)
  {
    if a == [] {
      assert a + b == b;
    } else {
      assert (a + b)[1..] == a[1..] + b;
      ConcatAppend(a[1..], b);
    }
  }

  /** The first k slices. */
  function FirstSlices<T>(s: seq<T>, m: nat, k: nat): (r: seq<seq<T>>)
    requires m > 0
    ensures |r| == k && forall i :: 0 <= i < k ==> r[i] == ModSlice(s, m, i)
  {
    if k == 0 then [] else FirstSlices(s, m, k - 1) + [ModSlice(s, m, k - 1)]
  }

  lemma {:induction false} ConcatFirst<T>(s: seq<T>, m: nat, k: nat)
    requires m > 0 && k > 0
    ensures Concat(FirstSlices(s, m, k)) == Concat(FirstSlices(s, m, k - 1)) + ModSlice(s, m, k - 1)
  {
    var x := ModSlice(s, m, k - 1);
    ConcatAppend(FirstSlices(s, m, k - 1), [x]);
    assert [x][1..] == [];
    assert Concat([x]) == x;
  }

  /** One more element goes to exactly one slice. */
  lemma {:induction false} FirstSlicesGrow<T>(s: seq<T>, x: T, m: nat, k: nat)
    requires m > 0
    ensures multiset(Concat(FirstSlices(s + [x], m, k))) ==
            multiset(Concat(FirstSlices(s, m, k))) + (if |s| % m < k then multiset{x} else multiset{})
  {
    hide Concat, FirstSlices, ModSlice;
    if k == 0 {
      NoSlices(s, m);
      NoSlices(s + [x], m);
    } else {
      FirstSlicesGrow(s, x, m, k - 1);
      ConcatFirst(s, m, k);
      ConcatFirst(s + [x], m, k);
      ModSliceGrow(s, x, m, k - 1);
    }
  }

  lemma {:induction false} ModSliceGrow<T>(s: seq<T>, x: T, m: nat, i: nat)
    requires m > 0
    ensures ModSlice(s + [x], m, i) == if |s| % m == i then ModSlice(s, m, i) + [x] else ModSlice(s, m, i)
  {
    assert (s + [x])[..|s|] == s;
  }

  lemma {:induction false} NoSlices<T>(s: seq<T>, m: nat)
    requires m > 0
    ensures Concat(FirstSlices(s, m, 0)) == []
  {
  }

  lemma {:induction false} FirstSlicesEmpty<T>(m: nat, k: nat)
    requires m > 0
    ensures Concat(FirstSlices<T>([], m, k)) == []
  {
    if k > 0 {
      FirstSlicesEmpty<T>(m, k - 1);
      ConcatFirst<T>([], m, k);
    }
  }

  /** The m slices together are a permutation of the sequence. */
  lemma {:induction false} SlicesPermute<T>(s: seq<T>, m: nat)
    requires m > 0
    ensures multiset(Concat(FirstSlices(s, m, m))) == multiset(s)
  {
    if s == [] {
      FirstSlicesEmpty<T>(m, m);
    } else {
      var n := |s| - 1;
      SlicesPermute(s[..n], m);
      FirstSlicesGrow(s[..n], s[n], m, m);
      assert s == s[..n] + [s[n]];
    }
  }

  lemma {:induction false} SliceNonEmpty<T>(s: seq<T>, m: nat, i: nat)
    requires i < m && i < |s|
    ensures ModSlice(s, m, i) != []
  {
    if |s| - 1 > i {
      SliceNonEmpty(s[..|s| - 1], m, i);
    }
  }

  /** The slice i of n elements has k of them. */
  ghost predicate SliceLength(n: nat, m: nat, i: nat, k: nat) {
    n <= k * m + i < n + m
  }

  lemma {:induction false} NextLength(n: nat, m: nat, i: nat, k: nat)
    requires i < m && SliceLength(n, m, i, k)
    ensures SliceLength(n + 1, m, i, if n % m == i then k + 1 else k)
    ensures n % m == i ==> n / m == k
  {
    if n == k * m + i {
      Remainder(n, m, k, i);
      Difference(k + 1, k, m);
    } else {
      SameOnly(n, m, i, k);
    }
  }

  lemma {:induction false} SameOnly(n: nat, m: nat, i: nat, k: nat)
    requires i < m && SliceLength(n, m, i, k) && n != k * m + i
    ensures n % m != i
  {
    var q := n / m;
    assert n == q * m + n % m;
    Ordered(k, q, m);
    Ordered(q, k, m);
  }

  lemma {:induction false} SliceLengthIs<T>(s: seq<T>, m: nat, i: nat)
    requires i < m
    ensures SliceLength(|s|, m, i, |ModSlice(s, m, i)|)
  {
    if s != [] {
      SliceLengthIs(s[..|s| - 1], m, i);
      NextLength(|s| - 1, m, i, |ModSlice(s[..|s| - 1], m, i)|);
    }
  }

  /** Element j is in slice j % m, at position j / m. */
  lemma {:induction false} ElementAt<T>(s: seq<T>, m: nat, j: nat)
    requires m > 0 && j < |s|
    ensures j % m < m && j / m < |ModSlice(s, m, j % m)| && ModSlice(s, m, j % m)[j / m] == s[j]
  {
    var n := |s| - 1;
    if j < n {
      ElementAt(s[..n], m, j);
    } else {
      SliceLengthIs(s[..n], m, j % m);
      NextLength(n, m, j % m, |ModSlice(s[..n], m, j % m)|);
    }
  }

  /** Position q of slice i has element q * m + i. */
  lemma {:induction false} SliceAt<T>(s: seq<T>, m: nat, i: nat, q: nat)
    requires i < m && q < |ModSlice(s, m, i)|
    ensures q * m + i < |s| && ModSlice(s, m, i)[q] == s[q * m + i]
  {
    SliceLengthIs(s, m, i);
    Ordered(q, |ModSlice(s, m, i)|, m);
    Remainder(q * m + i, m, q, i);
    ElementAt(s, m, q * m + i);
  }
}

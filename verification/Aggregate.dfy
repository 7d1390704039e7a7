/** Grouping rows by key and summing their values, and the accumulator of the sums. The facts
    here do not depend on what the keys and the rows mean. */
module Aggregate {
  import opened Basics

  /** A row of values: the columns 'variance' and 'loss'. */
  datatype Pair = Pair(variance: real, loss: real) {
    function Plus(p: Pair): Pair {
      Pair(variance + p.variance, loss + p.loss)
    }
  }

  const ZERO := Pair(0.0, 0.0)

  /** The sum of the values under the keys that satisfy p. */
  function Total<K>(keys: seq<K>, values: seq<Pair>, p: K -> bool): Pair
    requires |keys| == |values|
  {
    if keys == [] then ZERO
    else
      var n := |keys| - 1;
      var t := Total(keys[..n], values[..n], p);
      if p(keys[n]) then t.Plus(values[n]) else t
  }

  /** The sum of the values under one key. */
  function KeySum<K(==)>(keys: seq<K>, values: seq<Pair>, k: K): Pair
    requires |keys| == |values|
  {
    if keys == [] then ZERO
    else
      var n := |keys| - 1;
      var t := KeySum(keys[..n], values[..n], k);
      if keys[n] == k then t.Plus(values[n]) else t
  }

  /** The sum of the group sums of the groups that satisfy p. */
  function GroupTotal<K(==)>(groups: seq<K>, keys: seq<K>, values: seq<Pair>, p: K -> bool): Pair
    requires |keys| == |values|
  {
    if groups == [] then ZERO
    else
      var n := |groups| - 1;
      var t := GroupTotal(groups[..n], keys, values, p);
      if p(groups[n]) then t.Plus(KeySum(keys, values, groups[n])) else t
  }

  lemma {:induction false} GroupTotalEmpty<K>(groups: seq<K>, p: K -> bool)
    ensures GroupTotal(groups, [], [], p) == ZERO
  {
    if groups != [] {
      GroupTotalEmpty(groups[..|groups| - 1], p);
    }
  }

  /** One more row goes to one group. */
  lemma {:induction false} GroupTotalGrow<K>(groups: seq<K>, keys: seq<K>, values: seq<Pair>, p: K -> bool)
    requires |keys| == |values| > 0 && Distinct(groups)
    ensures var n := |keys| - 1;
      var t := GroupTotal(groups, keys[..n], values[..n], p);
      GroupTotal(groups, keys, values, p) == if keys[n] in groups && p(keys[n]) then t.Plus(values[n]) else t
  {
    if groups != [] {
      var g := |groups| - 1;
      GroupTotalGrow(groups[..g], keys, values, p);
      assert groups == groups[..g] + [groups[g]];
    }
  }

  /** Summing group by group loses nothing, if the groups are distinct and cover the keys. */
  lemma {:induction false} GroupingConserves<K>(groups: seq<K>, keys: seq<K>, values: seq<Pair>, p: K -> bool)
    requires |keys| == |values| && Distinct(groups)
    requires forall i :: 0 <= i < |keys| ==> keys[i] in groups
    ensures GroupTotal(groups, keys, values, p) == Total(keys, values, p)
  {
    if keys == [] {
      GroupTotalEmpty(groups, p);
    } else {
      var n := |keys| - 1;
      GroupingConserves(groups, keys[..n], values[..n], p);
      GroupTotalGrow(groups, keys, values, p);
    }
  }

  /** The distinct keys, in order of appearance. */
  function Unique<K(==)>(keys: seq<K>): (u: seq<K>)
    ensures Distinct(u) && (forall i :: 0 <= i < |u| ==> u[i] in keys) && (forall i :: 0 <= i < |keys| ==> keys[i] in u)
  {
    if keys == [] then []
    else
      var n := |keys| - 1;
      var u := Unique(keys[..n]);
      assert keys == keys[..n] + [keys[n]];
      if keys[n] in u then u else u + [keys[n]]
  }

  lemma {:induction false} TotalAppend<K>(a: seq<K>, va: seq<Pair>, b: seq<K>, vb: seq<Pair>, p: K -> bool)
    requires |a| == |va| && |b| == |vb|
    ensures Total(a + b, va + vb, p) == Total(a, va, p).Plus(Total(b, vb, p))
  {
    if b == [] {
      assert a + b == a && va + vb == va;
    } else {
      var n := |b| - 1;
      assert (a + b)[..|a + b| - 1] == a + b[..n] && (va + vb)[..|a + b| - 1] == va + vb[..n];
      TotalAppend(a, va, b[..n], vb[..n], p);
    }
  }

  lemma {:induction false} KeySumAppend<K>(a: seq<K>, va: seq<Pair>, b: seq<K>, vb: seq<Pair>, k: K)
    requires |a| == |va| && |b| == |vb|
    ensures KeySum(a + b, va + vb, k) == KeySum(a, va, k).Plus(KeySum(b, vb, k))
  {
    if b == [] {
      assert a + b == a && va + vb == va;
    } else {
      var n := |b| - 1;
      assert (a + b)[..|a + b| - 1] == a + b[..n] && (va + vb)[..|a + b| - 1] == va + vb[..n];
      KeySumAppend(a, va, b[..n], vb[..n], k);
    }
  }

  /** Renaming the keys: only which rows are selected matters. */
  lemma {:induction false} TotalCongruence<K, K'>(a: seq<K>, b: seq<K'>, values: seq<Pair>, p: K -> bool, q: K' -> bool)
    requires |a| == |b| == |values|
    requires forall i :: 0 <= i < |a| ==> (p(a[i]) <==> q(b[i]))
    ensures Total(a, values, p) == Total(b, values, q)
  {
    if a != [] {
      var n := |a| - 1;
      TotalCongruence(a[..n], b[..n], values[..n], p, q);
    }
  }

  /** The sum under a key is the sum under the predicate that selects only it. */
  lemma {:induction false} KeySumIsTotal<K>(keys: seq<K>, values: seq<Pair>, k: K, p: K -> bool)
    requires |keys| == |values| && forall i :: 0 <= i < |keys| ==> (p(keys[i]) <==> keys[i] == k)
    ensures KeySum(keys, values, k) == Total(keys, values, p)
  {
    if keys != [] {
      var n := |keys| - 1;
      KeySumIsTotal(keys[..n], values[..n], k, p);
    }
  }

  // ----- fast_agg and fast_agg2 of baselib

  /** `fast_agg`: fill an array of M sums, one column of the values after the other. */
  method FastAgg(indices: seq<nat>, values: seq<Pair>, M: nat) returns (res: array<Pair>)
    requires |indices| == |values| && forall i :: 0 <= i < |indices| ==> indices[i] < M
    ensures fresh(res) && res.Length == M
    ensures forall k: nat :: k < M ==> res[k] == KeySum(indices, values, k)
  {
    res := new Pair[M](_ => ZERO);
    var i := 0;
    while i < |values|
      invariant 0 <= i <= |values|
      invariant forall k: nat :: k < M ==> res[k].variance == KeySum(indices[..i], values[..i], k).variance
      invariant forall k :: 0 <= k < M ==> res[k].loss == 0.0
    {
      assert indices[..i + 1][..i] == indices[..i] && values[..i + 1][..i] == values[..i];
      var k := indices[i];
      res[k] := Pair(res[k].variance + values[i].variance, res[k].loss);
      i := i + 1;
    }
    assert indices[..i] == indices && values[..i] == values;
    i := 0;
    while i < |values|
      invariant 0 <= i <= |values|
      invariant forall k: nat :: k < M ==> res[k].variance == KeySum(indices, values, k).variance
      invariant forall k: nat :: k < M ==> res[k].loss == KeySum(indices[..i], values[..i], k).loss
    {
      assert indices[..i + 1][..i] == indices[..i] && values[..i + 1][..i] == values[..i];
      var k := indices[i];
      res[k] := Pair(res[k].variance, res[k].loss + values[i].loss);
      i := i + 1;
    }
    assert indices[..i] == indices && values[..i] == values;
  }

  function IndexOf<K(==)>(k: K, u: seq<K>): nat
    requires k in u
    ensures IndexOf(k, u) < |u| && u[IndexOf(k, u)] == k
  {
    if u[0] == k then 0 else 1 + IndexOf(k, u[1..])
  }

  /** The inverse of Unique: the position of each key among the unique ones. */
  function Inverse<K(==)>(keys: seq<K>, u: seq<K>): seq<nat>
    requires forall i :: 0 <= i < |keys| ==> keys[i] in u
  {
    seq(|keys|, i requires 0 <= i < |keys| => IndexOf(keys[i], u))
  }

  /** The group sums of the rows. */
  function GroupSums<K(==)>(groups: seq<K>, keys: seq<K>, values: seq<Pair>): seq<Pair>
    requires |keys| == |values|
  {
    seq(|groups|, i requires 0 <= i < |groups| => KeySum(keys, values, groups[i]))
  }

  method FastAgg2<K(==)>(keys: seq<K>, values: seq<Pair>) returns (uniq: seq<K>, sums: seq<Pair>)
    requires |keys| == |values|
    ensures uniq == Unique(keys) && sums == GroupSums(uniq, keys, values)
  {
    uniq := Unique(keys);
    var res := FastAgg(Inverse(keys, uniq), values, |uniq|);
    sums := res[..];
    forall i: nat | i < |uniq| ensures sums[i] == KeySum(keys, values, uniq[i]) {
      InverseSum(keys, values, uniq, i);
    }
  }

  lemma {:induction false} InverseSum<K>(keys: seq<K>, values: seq<Pair>, u: seq<K>, i: nat)
    requires |keys| == |values| && Distinct(u) && i < |u|
    requires forall j :: 0 <= j < |keys| ==> keys[j] in u
    ensures KeySum(Inverse(keys, u), values, i) == KeySum(keys, values, u[i])
  {
    if keys != [] {
      var n := |keys| - 1;
      InverseSum(keys[..n], values[..n], u, i);
      assert Inverse(keys, u)[..n] == Inverse(keys[..n], u);
      assert IndexOf(keys[n], u) == i <==> keys[n] == u[i];
    }
  }

  // ----- the accumulator: an ordered dictionary from keys to one Pair per loss type

  datatype Entry = Entry(key: nat, vals: seq<Pair>)

  ghost predicate ValidAcc(acc: seq<Entry>, L: nat) {
    && (forall i, j :: 0 <= i < j < |acc| ==> acc[i].key != acc[j].key)
    && (forall i :: 0 <= i < |acc| ==> |acc[i].vals| == L)
  }

  function Zeros(L: nat): seq<Pair> {
    seq(L, _ => ZERO)
  }

  /** `acc[key][li] += v`, the missing key getting an array of zeros first. */
  function AddAt(acc: seq<Entry>, L: nat, key: nat, li: nat, v: Pair): seq<Entry>
    requires li < L && forall i :: 0 <= i < |acc| ==> |acc[i].vals| == L
  {
    if acc == [] then [Entry(key, Zeros(L)[li := ZERO.Plus(v)])]
    else if acc[0].key == key then [Entry(key, acc[0].vals[li := acc[0].vals[li].Plus(v)])] + acc[1..]
    else [acc[0]] + AddAt(acc[1..], L, key, li, v)
  }

  function AccTotal(acc: seq<Entry>, L: nat, li: nat, p: nat -> bool): Pair
    requires li < L && forall i :: 0 <= i < |acc| ==> |acc[i].vals| == L
  {
    if acc == [] then ZERO
    else
      var t := AccTotal(acc[1..], L, li, p);
      if p(acc[0].key) then acc[0].vals[li].Plus(t) else t
  }

  lemma {:induction false} ConsValid(e: Entry, rest: seq<Entry>, L: nat)
    requires ValidAcc(rest, L) && |e.vals| == L && forall d :: d in rest ==> d.key != e.key
    ensures ValidAcc([e] + rest, L)
  {
    var r := [e] + rest;
    assert forall i :: 1 <= i < |r| ==> r[i] == rest[i - 1];
    assert forall i :: 0 <= i < |rest| ==> rest[i] in rest;
  }

  lemma {:induction false} TailValid(acc: seq<Entry>, L: nat)
    requires ValidAcc(acc, L) && acc != []
    ensures ValidAcc(acc[1..], L) && |acc[0].vals| == L
    ensures forall d :: d in acc[1..] ==> d.key != acc[0].key && d in acc
  {
  }

  lemma {:induction false} AddAtFacts(acc: seq<Entry>, L: nat, key: nat, li: nat, v: Pair)
    requires li < L && ValidAcc(acc, L)
    ensures ValidAcc(AddAt(acc, L, key, li, v), L)
    ensures forall e :: e in AddAt(acc, L, key, li, v) ==> e.key == key || exists d :: d in acc && d.key == e.key
  {
    ValidLengths(acc, L);
    hide ValidAcc;
    if acc == [] {
      NoEntries(L);
      ConsValid(Entry(key, Zeros(L)[li := ZERO.Plus(v)]), [], L);
    } else {
      TailValid(acc, L);
      if acc[0].key == key {
        ConsValid(Entry(key, acc[0].vals[li := acc[0].vals[li].Plus(v)]), acc[1..], L);
      } else {
        AddAtFacts(acc[1..], L, key, li, v);
        ConsValid(acc[0], AddAt(acc[1..], L, key, li, v), L);
      }
    }
  }

  lemma {:induction false} NoEntries(L: nat)
    ensures ValidAcc([], L)
  {
  }

  lemma {:induction false} ValidLengths(acc: seq<Entry>, L: nat)
    requires ValidAcc(acc, L)
    ensures forall i :: 0 <= i < |acc| ==> |acc[i].vals| == L
  {
  }

  lemma {:induction false} AddAtTotal(acc: seq<Entry>, L: nat, key: nat, li: nat, v: Pair, lj: nat, p: nat -> bool)
    requires li < L && lj < L && ValidAcc(acc, L)
    ensures ValidAcc(AddAt(acc, L, key, li, v), L)
    ensures AccTotal(AddAt(acc, L, key, li, v), L, lj, p) ==
            if lj == li && p(key) then AccTotal(acc, L, lj, p).Plus(v) else AccTotal(acc, L, lj, p)
  {
    AddAtFacts(acc, L, key, li, v);
    assert ValidAcc(AddAt(acc, L, key, li, v), L);
    hide ValidAcc;
    AddAtCell(acc, L, key, li, v, lj, p);
  }

  lemma {:induction false} TotalCons(e: Entry, acc: seq<Entry>, L: nat, li: nat, p: nat -> bool)
    requires li < L && |e.vals| == L && forall i :: 0 <= i < |acc| ==> |acc[i].vals| == L
    ensures var t := AccTotal(acc, L, li, p);
      AccTotal([e] + acc, L, li, p) == if p(e.key) then e.vals[li].Plus(t) else t
  {
    assert ([e] + acc)[1..] == acc;
  }

  lemma {:induction false} AddAtCell(acc: seq<Entry>, L: nat, key: nat, li: nat, v: Pair, lj: nat, p: nat -> bool)
    requires li < L && lj < L && forall i :: 0 <= i < |acc| ==> |acc[i].vals| == L
    ensures var r := AddAt(acc, L, key, li, v);
      && (forall i :: 0 <= i < |r| ==> |r[i].vals| == L)
      && AccTotal(r, L, lj, p) ==
           if lj == li && p(key) then AccTotal(acc, L, lj, p).Plus(v) else AccTotal(acc, L, lj, p)
  {
    if acc == [] {
      var e := Entry(key, Zeros(L)[li := ZERO.Plus(v)]);
      TotalCons(e, [], L, lj, p);
      assert [e] + [] == [e];
    } else {
      var rest := acc[1..];
      assert acc == [acc[0]] + rest;
      TotalCons(acc[0], rest, L, lj, p);
      if acc[0].key == key {
        TotalCons(Entry(key, acc[0].vals[li := acc[0].vals[li].Plus(v)]), rest, L, lj, p);
      } else {
        AddAtCell(rest, L, key, li, v, lj, p);
        TotalCons(acc[0], AddAt(rest, L, key, li, v), L, lj, p);
      }
    }
  }

}

/** The counting sort of `split_array`. */
module CountingSort {
  // It fills each bucket from its end, in place, and then reads it backwards.

  import opened Basics
  import K = Kernels

  /** The values whose index is k, in their original order. */
  function Select<T>(vals: seq<T>, indices: seq<nat>, k: nat): seq<T>
    requires |vals| == |indices|
  {
    if vals == [] then []
    else
      var n := |vals| - 1;
      if indices[n] == k then Select(vals[..n], indices[..n], k) + [vals[n]] else Select(vals[..n], indices[..n], k)
  }

  lemma {:induction false} SelectAppend<T>(a: seq<T>, ia: seq<nat>, b: seq<T>, ib: seq<nat>, k: nat)
    requires |a| == |ia| && |b| == |ib|
    ensures Select(a + b, ia + ib, k) == Select(a, ia, k) + Select(b, ib, k)
  {
    if b == [] {
      assert a + b == a && ia + ib == ia;
    } else {
      var n := |b| - 1;
      assert (a + b)[..|a + b| - 1] == a + b[..n] && (ia + ib)[..|a + b| - 1] == ia + ib[..n];
      SelectAppend(a, ia, b[..n], ib[..n], k);
    }
  }

  /** Value i is in the group of its index, after the values with that index before it. */
  lemma {:induction false} SelectAt<T>(vals: seq<T>, indices: seq<nat>, i: nat)
    requires |vals| == |indices| && i < |vals|
    ensures var g, p := Select(vals, indices, indices[i]), |Select(vals[..i], indices[..i], indices[i])|;
      p < |g| && g[p] == vals[i]
  {
    var k := indices[i];
    assert vals == vals[..i + 1] + vals[i + 1..] && indices == indices[..i + 1] + indices[i + 1..];
    SelectAppend(vals[..i + 1], indices[..i + 1], vals[i + 1..], indices[i + 1..], k);
    assert vals[..i + 1][..i] == vals[..i] && indices[..i + 1][..i] == indices[..i];
  }

  function Count(indices: seq<nat>, k: nat): nat {
    if indices == [] then 0
    else
      var n := |indices| - 1;
      Count(indices[..n], k) + if indices[n] == k then 1 else 0
  }

  /** `counts` is the histogram of the indices, all of which are in range. */
  ghost predicate Histogram(indices: seq<nat>, counts: seq<nat>) {
    && (forall k :: 0 <= k < |counts| ==> counts[k] == Count(indices, k))
    && (forall i :: 0 <= i < |indices| ==> indices[i] < |counts|)
  }

  /** The start of bucket k: the sum of the counts before it. */
  function Start(counts: seq<nat>, k: nat): nat
    requires k <= |counts|
  {
    if k == 0 then 0 else Start(counts, k - 1) + counts[k - 1]
  }

  lemma {:induction false} StartMonotone(counts: seq<nat>, a: nat, b: nat)
    requires a <= b <= |counts|
    ensures Start(counts, a) <= Start(counts, b)
  {
    if a < b {
      StartMonotone(counts, a, b - 1);
    }
  }

  lemma {:induction false} SelectLength<T>(vals: seq<T>, indices: seq<nat>, k: nat)
    requires |vals| == |indices|
    ensures |Select(vals, indices, k)| == Count(indices, k)
  {
    if vals != [] {
      SelectLength(vals[..|vals| - 1], indices[..|vals| - 1], k);
    }
  }

  lemma {:induction false} CountMonotone(indices: seq<nat>, p: nat, k: nat)
    requires p <= |indices|
    ensures Count(indices[..p], k) <= Count(indices, k)
  {
    if p == |indices| {
      assert indices[..p] == indices;
    } else {
      var front := indices[..|indices| - 1];
      assert front[..p] == indices[..p];
      CountMonotone(front, p, k);
    }
  }

  ghost function Counts(indices: seq<nat>, m: nat): seq<nat> {
    seq(m, k requires 0 <= k < m => Count(indices, k))
  }

  lemma {:induction false} StartSame(a: seq<nat>, b: seq<nat>, k: nat)
    requires k <= |a| && k <= |b| && forall i :: 0 <= i < k ==> a[i] == b[i]
    ensures Start(a, k) == Start(b, k)
  {
    if k > 0 {
      StartSame(a, b, k - 1);
    }
  }

  lemma {:induction false} StartBump(a: seq<nat>, b: seq<nat>, x: nat, k: nat)
    requires k <= |a| == |b|
    requires forall i :: 0 <= i < |a| ==> b[i] == a[i] + if i == x then 1 else 0
    ensures Start(b, k) == Start(a, k) + if x < k then 1 else 0
  {
    if k > 0 {
      StartBump(a, b, x, k - 1);
    }
  }

  /** The buckets have room for all the indices. */
  lemma {:induction false} TotalCount(indices: seq<nat>, m: nat)
    requires forall i :: 0 <= i < |indices| ==> indices[i] < m
    ensures Start(Counts(indices, m), m) == |indices|
  {
    if indices == [] {
      EmptyCount(m, m);
    } else {
      var n := |indices| - 1;
      TotalCount(indices[..n], m);
      StartBump(Counts(indices[..n], m), Counts(indices, m), indices[n], m);
    }
  }

  lemma {:induction false} EmptyCount(m: nat, k: nat)
    requires k <= m
    ensures Start(Counts([], m), k) == 0
  {
    if k > 0 {
      EmptyCount(m, k - 1);
    }
  }

  lemma {:induction false} BucketsFit(indices: seq<nat>, counts: seq<nat>)
    requires Histogram(indices, counts)
    ensures Start(counts, |counts|) == |indices|
  {
    TotalCount(indices, |counts|);
    StartSame(counts, Counts(indices, |counts|), |counts|);
  }

  /** The last |sel| places of bucket k hold `sel`, backwards. */
  ghost predicate Filled(out: seq<int>, counts: seq<nat>, k: nat, sel: seq<int>)
    requires k < |counts|
  {
    && |sel| <= counts[k] && Start(counts, k + 1) <= |out|
    && forall j :: 0 <= j < |sel| ==> out[Start(counts, k + 1) - 1 - j] == sel[j]
  }

  lemma {:induction false} FillOther(out: seq<int>, counts: seq<nat>, k: nat, sel: seq<int>, b: nat, pos: nat, v: int)
    requires k < |counts| && b < |counts| && b != k && pos < |out|
    requires Start(counts, b) <= pos < Start(counts, b + 1)
    requires Filled(out, counts, k, sel)
    ensures Filled(out[pos := v], counts, k, sel)
  {
    if k < b {
      StartMonotone(counts, k + 1, b);
    } else {
      StartMonotone(counts, b + 1, k);
    }
  }

  ghost predicate AllFilled(out: seq<int>, counts: seq<nat>, vals: seq<int>, indices: seq<nat>)
    requires |vals| == |indices|
  {
    forall k :: 0 <= k < |counts| ==> Filled(out, counts, k, Select(vals, indices, k))
  }

  /** Writing the next value just below what its bucket holds. */
  lemma {:induction false} FillNext(out: seq<int>, counts: seq<nat>, vals: seq<int>, indices: seq<nat>, p: nat)
    requires |vals| == |indices| == |out| && p < |vals| && Histogram(indices, counts)
    requires AllFilled(out, counts, vals[..p], indices[..p])
    ensures var k := indices[p];
      var pos := Start(counts, k + 1) - Count(indices[..p], k) - 1;
      && Start(counts, k) <= pos < |out|
      && AllFilled(out[pos := vals[p]], counts, vals[..p + 1], indices[..p + 1])
  {
    hide Histogram, Filled;
    var b := indices[p];
    PositionFree(counts, indices, p);
    var pos := Start(counts, b + 1) - Count(indices[..p], b) - 1;
    var out', vals', indices' := out[pos := vals[p]], vals[..p + 1], indices[..p + 1];
    forall k | 0 <= k < |counts| ensures Filled(out', counts, k, Select(vals', indices', k)) {
      assert vals'[..p] == vals[..p] && indices'[..p] == indices[..p];
      var sel := Select(vals[..p], indices[..p], k);
      SelectLength(vals[..p], indices[..p], k);
      if k == b {
        FillSame(out, counts, k, sel, vals[p]);
      } else {
        FillOther(out, counts, k, sel, b, pos, vals[p]);
      }
    }
  }

  lemma {:induction false} FillSame(out: seq<int>, counts: seq<nat>, k: nat, sel: seq<int>, v: int)
    requires k < |counts| && Filled(out, counts, k, sel) && |sel| < counts[k]
    ensures Filled(out[Start(counts, k + 1) - |sel| - 1 := v], counts, k, sel + [v])
  {
  }

  lemma {:induction false} PositionFree(counts: seq<nat>, indices: seq<nat>, p: nat)
    requires p < |indices| && Histogram(indices, counts)
    ensures var k := indices[p];
      && k < |counts| && Count(indices[..p], k) < counts[k]
      && Start(counts, k) <= Start(counts, k + 1) - Count(indices[..p], k) - 1 < Start(counts, k + 1) <= |indices|
  {
    var k := indices[p];
    CountMonotone(indices, p + 1, k);
    assert indices[..p + 1][..p] == indices[..p];
    BucketsFit(indices, counts);
    StartMonotone(counts, k + 1, |counts|);
  }

  /** The kernel `_split`: `cumcounts` goes from the bucket ends down to the bucket starts. */
  method FillBuckets(vals: seq<int>, indices: seq<nat>, counts: seq<nat>, cumcounts: array<int>)
    returns (out: array<int>)
    requires |vals| == |indices| && |counts| <= |vals|
    requires Histogram(indices, counts)
    requires cumcounts.Length == |counts|
    requires forall k :: 0 <= k < |counts| ==> cumcounts[k] == Start(counts, k + 1)
    modifies cumcounts
    ensures fresh(out) && out.Length == |vals|
    ensures AllFilled(out[..], counts, vals, indices)
    ensures forall k :: 0 <= k < |counts| ==> cumcounts[k] == Start(counts, k)
  {
    hide AllFilled, Histogram;
    out := new int[|vals|](_ => 0);
    var p := 0;
    FillNothing(out[..], counts, indices);
    while p < |vals|
      invariant 0 <= p <= |vals|
      invariant AllFilled(out[..], counts, vals[..p], indices[..p])
      invariant forall k :: 0 <= k < |counts| ==> cumcounts[k] == Start(counts, k + 1) - Count(indices[..p], k)
    {
      PositionFree(counts, indices, p);
      FillNext(out[..], counts, vals, indices, p);
      var idx := indices[p];
      cumcounts[idx] := cumcounts[idx] - 1;
      ghost var before := out[..];
      out[cumcounts[idx]] := vals[p];
      assert out[..] == before[cumcounts[idx] := vals[p]];
      assert indices[..p + 1][..p] == indices[..p];
      p := p + 1;
    }
    assert vals[..p] == vals && indices[..p] == indices;
    EndsAtStarts(indices, counts);
  }

  lemma {:induction false} EndsAtStarts(indices: seq<nat>, counts: seq<nat>)
    requires Histogram(indices, counts)
    ensures forall k :: 0 <= k < |counts| ==> Start(counts, k + 1) - Count(indices, k) == Start(counts, k)
  {
  }

  lemma {:induction false} FillNothing(out: seq<int>, counts: seq<nat>, indices: seq<nat>)
    requires Histogram(indices, counts) && |out| == |indices|
    ensures AllFilled(out, counts, [], [])
  {
    BucketsFit(indices, counts);
    forall k | 0 <= k < |counts| ensures Filled(out, counts, k, Select<int>([], [], k)) {
      StartMonotone(counts, k + 1, |counts|);
    }
  }

  function Reverse<T>(s: seq<T>): seq<T> {
    if s == [] then [] else Reverse(s[1..]) + [s[0]]
  }

  lemma {:induction false} ReverseAt<T>(s: seq<T>, j: nat)
    requires j < |s|
    ensures |Reverse(s)| == |s| && Reverse(s)[j] == s[|s| - 1 - j]
  {
    if |s| > 1 {
      ReverseAt(s[1..], if j < |s| - 1 then j else 0);
    }
  }

  lemma {:induction false} BucketBackwards(out: seq<int>, counts: seq<nat>, k: nat, sel: seq<int>)
    requires k < |counts| && Filled(out, counts, k, sel) && |sel| == counts[k]
    ensures Reverse(out[Start(counts, k)..Start(counts, k) + counts[k]]) == sel
  {
    var b := out[Start(counts, k)..Start(counts, k) + counts[k]];
    var r := Reverse(b);
    if |b| > 0 {
      ReverseAt(b, 0);
    }
    forall j | 0 <= j < |b| ensures r[j] == sel[j] {
      ReverseAt(b, j);
    }
  }

  lemma {:induction false} GroupBack(out: seq<int>, counts: seq<nat>, vals: seq<int>, indices: seq<nat>, k: nat)
    requires |vals| == |indices| == |out| && Histogram(indices, counts)
    requires AllFilled(out, counts, vals, indices) && k < |counts|
    ensures Start(counts, k) + counts[k] == Start(counts, k + 1) <= |out|
    ensures Reverse(out[Start(counts, k)..Start(counts, k) + counts[k]]) == Select(vals, indices, k)
  {
    hide Filled;
    BucketsFit(indices, counts);
    StartMonotone(counts, k + 1, |counts|);
    SelectLength(vals, indices, k);
    BucketBackwards(out, counts, k, Select(vals, indices, k));
  }

  /** `split_array` with counts: None when its assertion on the number of counts fails. Group
      k is the subsequence of the values with index k. */
  method SplitArray(vals: seq<int>, indices: seq<nat>, counts: seq<nat>) returns (r: Option<seq<seq<int>>>)
    requires |vals| == |indices| && Histogram(indices, counts)
    ensures r.None? <==> |counts| > |vals|
    ensures r.Some? ==> |r.value| == |counts|
    ensures r.Some? ==> forall k :: 0 <= k < |counts| ==> r.value[k] == Select(vals, indices, k)
  {
    hide Histogram, AllFilled, Select, Reverse;
    if |counts| > |vals| {
      return None;
    }
    var cumcounts := new int[|counts|](k requires 0 <= k < |counts| => Start(counts, k + 1));
    var out := FillBuckets(vals, indices, counts, cumcounts);
    var groups: seq<seq<int>> := [];
    var k := 0;
    while k < |counts|
      invariant 0 <= k <= |counts| == cumcounts.Length
      invariant |groups| == k
      invariant forall i :: 0 <= i < k ==> groups[i] == Select(vals, indices, i)
      invariant AllFilled(out[..], counts, vals, indices)
      invariant forall i :: 0 <= i < |counts| ==> cumcounts[i] == Start(counts, i)
    {
      GroupBack(out[..], counts, vals, indices, k);
      var s1, s2 := cumcounts[k], cumcounts[k] + counts[k];
      assert out[..][s1..s2] == out[s1..s2];
      groups := groups + [Reverse(out[s1..s2])];
      k := k + 1;
    }
    r := Some(groups);
  }

  // ----- the groups are a permutation of the array

  function FirstGroups<T>(vals: seq<T>, indices: seq<nat>, k: nat): seq<T>
    requires |vals| == |indices|
  {
    if k == 0 then [] else FirstGroups(vals, indices, k - 1) + Select(vals, indices, k - 1)
  }

  lemma {:induction false} GroupsGrow<T>(vals: seq<T>, indices: seq<nat>, k: nat)
    requires |vals| == |indices| > 0
    ensures var n := |vals| - 1;
      multiset(FirstGroups(vals, indices, k)) ==
      multiset(FirstGroups(vals[..n], indices[..n], k)) + (if indices[n] < k then multiset{vals[n]} else multiset{})
  {
    if k > 0 {
      GroupsGrow(vals, indices, k - 1);
    }
  }

  lemma {:induction false} NoGroups<T>(k: nat)
    ensures FirstGroups<T>([], [], k) == []
  {
    if k > 0 {
      NoGroups<T>(k - 1);
    }
  }

  /** No value is lost or duplicated: the groups, one after the other, permute the array. */
  lemma {:induction false} GroupsPermute<T>(vals: seq<T>, indices: seq<nat>, m: nat)
    requires |vals| == |indices| && forall i :: 0 <= i < |indices| ==> indices[i] < m
    ensures multiset(FirstGroups(vals, indices, m)) == multiset(vals)
  {
    hide FirstGroups;
    if vals == [] {
      NoGroups<T>(m);
    } else {
      var n := |vals| - 1;
      assert forall i :: 0 <= i < n ==> indices[..n][i] == indices[i];
      GroupsPermute(vals[..n], indices[..n], m);
      GroupsGrow(vals, indices, m);
      assert vals == vals[..n] + [vals[n]];
    }
  }

  lemma {:induction false} ReversePermutes<T>(s: seq<T>)
    ensures multiset(Reverse(s)) == multiset(s)
  {
    if s != [] {
      ReversePermutes(s[1..]);
      assert s == [s[0]] + s[1..];
    }
  }

  lemma {:induction false} BucketsPermute(out: seq<int>, counts: seq<nat>, vals: seq<int>, indices: seq<nat>, k: nat)
    requires |vals| == |indices| == |out| && Histogram(indices, counts) && AllFilled(out, counts, vals, indices)
    requires k <= |counts| && Start(counts, k) <= |out|
    ensures multiset(out[..Start(counts, k)]) == multiset(FirstGroups(vals, indices, k))
  {
    hide AllFilled, Histogram, Select, Reverse;
    if k > 0 {
      BucketsPermute(out, counts, vals, indices, k - 1);
      GroupBack(out, counts, vals, indices, k - 1);
      var bucket := out[Start(counts, k - 1)..Start(counts, k)];
      ReversePermutes(bucket);
      assert out[..Start(counts, k)] == out[..Start(counts, k - 1)] + bucket;
    }
  }

  /** The array filled by the kernel is a permutation of its input. */
  lemma {:induction false} OutPermutes(out: seq<int>, counts: seq<nat>, vals: seq<int>, indices: seq<nat>)
    requires |vals| == |indices| == |out| && Histogram(indices, counts) && AllFilled(out, counts, vals, indices)
    ensures multiset(out) == multiset(vals)
  {
    BucketsFit(indices, counts);
    BucketsPermute(out, counts, vals, indices, |counts|);
    assert out[..|out|] == out;
    GroupsPermute(vals, indices, |counts|);
  }

  // ----- without counts

  /** The groups are the slices of the values at the maximal runs of the indices. */
  ghost predicate CutAtRuns(vals: seq<int>, indices: seq<int>, runs: seq<K.Run>, groups: seq<seq<int>>) {
    && K.RunsUpTo(indices, runs, |indices|)
    && |groups| == |runs|
    && forall k :: 0 <= k < |runs| ==>
         runs[k].start <= runs[k].stop <= |vals| && groups[k] == vals[runs[k].start..runs[k].stop]
  }

  method SplitOrdered(vals: seq<int>, indices: seq<int>) returns (groups: seq<seq<int>>)
    requires |vals| == |indices| > 0
    ensures exists runs: seq<K.Run> :: CutAtRuns(vals, indices, runs, groups)
  {
    var runs := K.IdxStartStop(indices);
    groups := [];
    for k := 0 to |runs|
      invariant |groups| == k
      invariant forall i :: 0 <= i < k ==> groups[i] == vals[runs[i].start..runs[i].stop]
    {
      groups := groups + [vals[runs[k].start..runs[k].stop]];
    }
    assert CutAtRuns(vals, indices, runs, groups);
  }

  lemma {:induction false} SelectRange<T>(vals: seq<T>, indices: seq<nat>, k: nat, lo: nat, hi: nat)
    requires |vals| == |indices| && lo <= hi <= |vals|
    requires forall i :: 0 <= i < |indices| ==> (indices[i] == k <==> lo <= i < hi)
    ensures Select(vals, indices, k) == vals[lo..hi]
  {
    if vals != [] {
      var n := |vals| - 1;
      if n < hi {
        if lo <= n {
          SelectRange(vals[..n], indices[..n], k, lo, n);
          assert vals[lo..hi] == vals[..n][lo..n] + [vals[n]];
        } else {
          SelectRange(vals[..n], indices[..n], k, n, n);
        }
      } else {
        SelectRange(vals[..n], indices[..n], k, lo, hi);
        assert vals[..n][lo..hi] == vals[lo..hi];
      }
    }
  }

  /** With ordered indices, each run holds exactly the values with its index, so the two
      ways of splitting agree. */
  lemma {:induction false} OrderedGroups(
    vals: seq<int>, indices: seq<nat>, runs: seq<K.Run>, groups: seq<seq<int>>, k: nat)
    requires |vals| == |indices| && CutAtRuns(vals, indices, runs, groups) && k < |runs|
    requires forall i, j :: 0 <= i < j < |indices| ==> indices[i] <= indices[j]
    ensures runs[k].val >= 0 && groups[k] == Select(vals, indices, runs[k].val)
  {
    var r := runs[k];
    assert k > 0 ==> indices[r.start - 1] != indices[r.start] by {
      assert k > 0 ==> runs[k - 1].stop == runs[k - 1 + 1].start;
    }
    assert k < |runs| - 1 ==> runs[k + 1].start == r.stop && r.stop < |indices|;
    assert k < |runs| - 1 ==> indices[r.stop - 1] != indices[r.stop];
    forall i | 0 <= i < |indices| ensures indices[i] == r.val <==> r.start <= i < r.stop {
      assert i < r.start ==> indices[i] <= indices[r.start - 1] < indices[r.start];
      assert i >= r.stop ==> indices[r.stop - 1] < indices[r.stop] <= indices[i];
    }
    SelectRange(vals, indices, r.val, r.start, r.stop);
  }
}

/** Array kernels: detecting the runs of equal values and cutting slices that do not break a run. */
module Kernels {
  // ----- runs

  datatype Run = Run(val: int, start: nat, stop: nat)

  ghost predicate Constant(s: seq<int>, lo: nat, hi: nat)
    requires lo <= hi <= |s|
  {
    forall i :: lo <= i < hi ==> s[i] == s[lo]
  }

  /** The runs tile [0, n), each is constant, and consecutive runs have different values. */
  ghost predicate RunsUpTo(s: seq<int>, runs: seq<Run>, n: nat)
    requires n <= |s|
  {
    && (forall k :: 0 <= k < |runs| ==>
          runs[k].start < runs[k].stop <= n && s[runs[k].start] == runs[k].val
            && Constant(s, runs[k].start, runs[k].stop))
    && (forall k :: 0 <= k < |runs| - 1 ==> runs[k].stop == runs[k + 1].start && runs[k].val != runs[k + 1].val)
    && (if runs == [] then n == 0 else runs[0].start == 0 && runs[|runs| - 1].stop == n)
  }

  /** The maximal constant runs of a non-empty array. */
  method IdxStartStop(s: seq<int>) returns (out: seq<Run>)
    requires s != []
    ensures RunsUpTo(s, out, |s|)
  {
    hide RunsUpTo;
    out := [];
    NoRuns(s);
    var start, i, prev := 0, 0, s[0];
    while i + 1 < |s|
      invariant 0 <= start <= i < |s|
      invariant prev == s[i]
      invariant Constant(s, start, i + 1)
      invariant RunsUpTo(s, out, start)
      invariant out != [] ==> out[|out| - 1].val != s[start]
    {
      i := i + 1;
      if s[i] != prev {
        RunsAppend(s, out, start, i);
        out := out + [Run(prev, start, i)];
        start := i;
      }
      prev := s[i];
    }
    RunsAppend(s, out, start, i + 1);
    out := out + [Run(prev, start, i + 1)];
  }

  lemma {:induction false} NoRuns(s: seq<int>)
    ensures RunsUpTo(s, [], 0)
  {
  }

  lemma {:induction false} RunsAppend(s: seq<int>, runs: seq<Run>, start: nat, stop: nat)
    requires start < stop <= |s| && RunsUpTo(s, runs, start) && Constant(s, start, stop)
    requires runs != [] ==> runs[|runs| - 1].val != s[start]
    ensures RunsUpTo(s, runs + [Run(s[start], start, stop)], stop)
  {
    hide Constant;
    var r := runs + [Run(s[start], start, stop)];
    assert forall k :: 0 <= k < |runs| ==> r[k] == runs[k];
  }

  lemma {:induction false} RunsAgree(s: seq<int>, a: seq<Run>, b: seq<Run>, k: nat)
    requires RunsUpTo(s, a, |s|) && RunsUpTo(s, b, |s|) && s != []
    requires k <= |a| && k <= |b|
    ensures a[..k] == b[..k]
  {
    if k > 0 {
      RunsAgree(s, a, b, k - 1);
      var x, y := a[k - 1], b[k - 1];
      assert k > 1 ==> a[k - 2] == a[..k - 1][k - 2] == b[..k - 1][k - 2] == b[k - 2];
      assert x.start == y.start && x.val == y.val;
      RunsEndTogether(s, a, b, k - 1);
      assert a[..k] == a[..k - 1] + [x] && b[..k] == b[..k - 1] + [y];
    }
  }

  lemma {:induction false} RunsEndTogether(s: seq<int>, a: seq<Run>, b: seq<Run>, k: nat)
    requires RunsUpTo(s, a, |s|) && RunsUpTo(s, b, |s|)
    requires k < |a| && k < |b| && a[k].start == b[k].start
    ensures a[k].stop == b[k].stop
  {
    assert a[k].stop < |s| ==> k + 1 < |a| && s[a[k].stop] == a[k + 1].val != s[a[k].start];
    assert b[k].stop < |s| ==> k + 1 < |b| && s[b[k].stop] == b[k + 1].val != s[b[k].start];
  }

  /** There is only one list of maximal runs, so the specification determines the result. */
  lemma {:induction false} RunsUnique(s: seq<int>, a: seq<Run>, b: seq<Run>)
    requires RunsUpTo(s, a, |s|) && RunsUpTo(s, b, |s|) && s != []
    ensures a == b
  {
    var k := if |a| < |b| then |a| else |b|;
    RunsAgree(s, a, b, k);
    assert a[k - 1] == a[..k][k - 1] == b[..k][k - 1] == b[k - 1];
    LastRunEnds(s, a, k - 1);
    LastRunEnds(s, b, k - 1);
    assert a == a[..|a|] && b == b[..|b|];
  }

  lemma {:induction false} LastRunEnds(s: seq<int>, runs: seq<Run>, k: nat)
    requires RunsUpTo(s, runs, |s|) && k < |runs|
    ensures runs[k].stop == |s| <==> k == |runs| - 1
  {
    if k + 1 < |runs| {
      assert runs[k].stop == runs[k + 1].start;
    }
  }

  // ----- split_slices

  datatype Slice = Slice(start: nat, stop: nat)

  ghost predicate Tiling(slices: seq<Slice>, n: nat) {
    && (forall k :: 0 <= k < |slices| ==> slices[k].start < slices[k].stop)
    && (forall k :: 0 <= k < |slices| - 1 ==> slices[k].stop == slices[k + 1].start)
    && (if slices == [] then n == 0 else slices[0].start == 0 && slices[|slices| - 1].stop == n)
  }

  /** No constant stretch is longer than m. */
  ghost predicate RunsAtMost(s: seq<int>, m: nat) {
    forall i, j :: 0 <= i <= j <= |s| && Constant(s, i, j) ==> j - i <= m
  }

  /** A slice that ends before the array does: it ends where the value changes, it is long
      enough, and it could not have ended at an earlier change of value. */
  ghost predicate Cut(s: seq<int>, c: Slice, size: nat) {
    && 0 < c.start + 1 <= c.stop < |s|
    && s[c.stop - 1] != s[c.stop]
    && LongEnough(c.start, c.stop, size)
    && NoEarlierCut(s, c.start, c.stop, size)
  }

  /** The first slice counts one item more than it holds. */
  predicate LongEnough(start: nat, stop: nat, size: nat) {
    stop - start + (if start == 0 then 1 else 0) >= size
  }

  ghost predicate NoEarlierCut(s: seq<int>, start: nat, stop: nat, size: nat)
    requires stop <= |s|
  {
    forall i :: start < i < stop && s[i - 1] != s[i] ==> !LongEnough(start, i, size)
  }

  ghost predicate Cuts(s: seq<int>, slices: seq<Slice>, size: nat) {
    forall k :: 0 <= k < |slices| ==> Cut(s, slices[k], size)
  }

  method SplitSlices(s: seq<int>, size: nat) returns (out: seq<Slice>)
    requires s != []
    ensures IsSplit(s, size, out)
  {
    hide Tiling, Cuts;
    out := [];
    NoCuts(s, size);
    var start, i, prev, totsize := 0, 0, s[0], 1;
    while i + 1 < |s|
      invariant 0 <= start <= i < |s|
      invariant prev == s[i]
      invariant totsize == i - start + (if start == 0 then 1 else 0)
      invariant Tiling(out, start) && (out != [] ==> start > 0)
      invariant Cuts(s, out, size)
      invariant NoEarlierCut(s, start, i + 1, size)
    {
      i := i + 1;
      totsize := totsize + 1;
      if s[i] != prev && totsize >= size {
        assert Cut(s, Slice(start, i), size);
        SlicesAppend(s, out, size, start, i);
        out := out + [Slice(start, i)];
        totsize := 0;
        start := i;
      }
      prev := s[i];
    }
    TilingAppend(out, start, i + 1);
    out := out + [Slice(start, i + 1)];
    assert out[..|out| - 1] + [Slice(start, i + 1)] == out;
  }

  lemma {:induction false} NoCuts(s: seq<int>, size: nat)
    ensures Tiling([], 0) && Cuts(s, [], size)
  {
  }

  lemma {:induction false} TilingAppend(slices: seq<Slice>, start: nat, stop: nat)
    requires Tiling(slices, start) && start < stop
    ensures Tiling(slices + [Slice(start, stop)], stop)
  {
    var r := slices + [Slice(start, stop)];
    assert forall k :: 0 <= k < |slices| ==> r[k] == slices[k];
  }

  lemma {:induction false} SlicesAppend(s: seq<int>, slices: seq<Slice>, size: nat, start: nat, stop: nat)
    requires Tiling(slices, start) && start < stop && Cuts(s, slices, size) && Cut(s, Slice(start, stop), size)
    ensures Tiling(slices + [Slice(start, stop)], stop)
    ensures Cuts(s, slices + [Slice(start, stop)], size)
  {
    hide Cut;
    TilingAppend(slices, start, stop);
    var r := slices + [Slice(start, stop)];
    assert forall k :: 0 <= k < |slices| ==> r[k] == slices[k];
  }

  /** What SplitSlices returns. */
  ghost predicate IsSplit(s: seq<int>, size: nat, out: seq<Slice>) {
    && s != [] && out != [] && Tiling(out, |s|)
    && Cuts(s, out[..|out| - 1], size)
    && NoEarlierCut(s, out[|out| - 1].start, |s|, size)
  }

  lemma {:induction false} SliceBounds(slices: seq<Slice>, n: nat, k: nat)
    requires Tiling(slices, n) && k < |slices|
    ensures 0 <= slices[k].start < slices[k].stop <= n
    ensures slices[k].start == 0 <==> k == 0
    decreases |slices| - k
  {
    if k + 1 < |slices| {
      SliceBounds(slices, n, k + 1);
    }
    StartPositive(slices, n, k);
  }

  lemma {:induction false} StartPositive(slices: seq<Slice>, n: nat, k: nat)
    requires Tiling(slices, n) && k < |slices|
    ensures slices[k].start == 0 <==> k == 0
  {
    if k > 0 {
      assert slices[k - 1].stop == slices[k - 1 + 1].start;
    }
  }

  lemma {:induction false} RunBack(s: seq<int>, lo: nat, hi: nat) returns (r: nat)
    requires lo < hi <= |s|
    ensures lo <= r < hi && Constant(s, r, hi)
    ensures r > lo ==> s[r - 1] != s[r]
  {
    r := hi - 1;
    while r > lo && s[r - 1] == s[r]
      invariant lo <= r < hi && Constant(s, r, hi)
    {
      r := r - 1;
    }
  }

  /** The slice [start, stop) with no earlier cut is at most max(size, 1) - 1 plus a run long. */
  lemma {:induction false} SliceLength(s: seq<int>, start: nat, stop: nat, size: nat, m: nat)
    requires start < stop <= |s| && NoEarlierCut(s, start, stop, size) && RunsAtMost(s, m)
    ensures stop - start <= (if size > 0 then size - 1 else 0) + m
  {
    var r := RunBack(s, start, stop);
    assert stop - r <= m;
  }

  /** Every slice that is not the last is at least `size` long, except the first, which
      may be one shorter; and no slice exceeds size - 1 plus the longest run. */
  lemma {:induction false} SplitSlicesLengths(s: seq<int>, size: nat, out: seq<Slice>, m: nat)
    requires IsSplit(s, size, out) && RunsAtMost(s, m)
    ensures forall k :: 0 < k < |out| - 1 ==> out[k].stop - out[k].start >= size
    ensures |out| > 1 ==> out[0].stop >= size - 1
    ensures forall k :: 0 <= k < |out| ==> out[k].stop - out[k].start <= (if size > 0 then size - 1 else 0) + m
  {
    forall k | 0 <= k < |out|
      ensures k < |out| - 1 ==> out[k].stop - out[k].start >= (if k == 0 then size - 1 else size)
      ensures out[k].stop - out[k].start <= (if size > 0 then size - 1 else 0) + m
    {
      SliceBounds(out, |s|, k);
      if k < |out| - 1 {
        assert out[..|out| - 1][k] == out[k];
        assert Cut(s, out[k], size);
      }
      SliceLength(s, out[k].start, out[k].stop, size, m);
    }
  }

  /** The bound size - 1 + longest run holds for all the slices exactly when size > 0: with
      size 0 the slices are the runs, and the longest of them breaks it. */
  lemma {:induction false} LengthBoundIff(s: seq<int>, size: nat, out: seq<Slice>, m: nat)
    requires IsSplit(s, size, out) && RunsAtMost(s, m)
    requires exists i, j :: 0 <= i <= j <= |s| && Constant(s, i, j) && j - i == m
    ensures (forall k :: 0 <= k < |out| ==> out[k].stop - out[k].start <= size - 1 + m) <==> size > 0
  {
    SplitSlicesLengths(s, size, out, m);
    if size == 0 {
      var i, j :| 0 <= i <= j <= |s| && Constant(s, i, j) && j - i == m;
      assert Constant(s, 0, 1);
      var k := SliceAt(out, |s|, i);
      SliceBounds(out, |s|, k);
      if k < |out| - 1 {
        assert out[..|out| - 1][k] == out[k];
        assert Cut(s, out[k], size);
      }
      if out[k].stop < |s| {
        CutOutsideRun(s, i, j, out[k].stop);
      }
    }
  }

  /** With size 0 an array of one element is already longer than the bound. */
  lemma {:induction false} LengthWitness()
    ensures IsSplit([7], 0, [Slice(0, 1)]) && RunsAtMost([7], 1)
    ensures !(1 <= 0 - 1 + 1)
  {
    assert [Slice(0, 1)][..0] == [];
    assert Cuts([7], [], 0) && Tiling([], 0);
  }

  lemma {:induction false} CutOutsideRun(s: seq<int>, i: nat, j: nat, c: nat)
    requires i < c < |s| && i <= j <= |s| && Constant(s, i, j) && s[c - 1] != s[c]
    ensures c >= j
  {
  }

  /** The slice that contains position p. */
  lemma {:induction false} SliceAt(slices: seq<Slice>, n: nat, p: nat) returns (k: nat)
    requires Tiling(slices, n) && p < n
    ensures k < |slices| && slices[k].start <= p < slices[k].stop
  {
    k := 0;
    while slices[k].stop <= p
      invariant k < |slices| && slices[k].start <= p
    {
      k := k + 1;
    }
  }
}

/** The mean hazard curve of a site. */
module FastMean {
  // It is computed group by group or realization by realization.

  import opened Basics
  import opened Getters

  const TWO24: nat := 0x100_0000

  // ----- the rates of a realization

  /** A realization collects the rate of a group once for each time the group lists it; the
      numbers in the list also carry a tectonic region above 24 bits. */
  function InGroup(x: real, rlzs: seq<nat>, r: nat): real {
    if rlzs == [] then 0.0
    else
      var m := |rlzs| - 1;
      InGroup(x, rlzs[..m], r) + if rlzs[m] % TWO24 == r then x else 0.0
  }

  function RlzRate(row: seq<real>, trtRlzs: seq<seq<nat>>, r: nat): real
    requires |row| >= |trtRlzs|
  {
    if trtRlzs == [] then 0.0
    else
      var g := |trtRlzs| - 1;
      RlzRate(row, trtRlzs[..g], r) + InGroup(row[g], trtRlzs[g], r)
  }

  ghost predicate Below(trtRlzs: seq<seq<nat>>, R: nat) {
    forall g, i :: 0 <= g < |trtRlzs| && 0 <= i < |trtRlzs[g]| ==> trtRlzs[g][i] % TWO24 < R
  }

  ghost predicate Has(r0: array2<real>, rates: Grid, trtRlzs: seq<seq<nat>>, L: nat, R: nat)
    requires IsGrid(rates, L, |trtRlzs|)
    reads r0
  {
    r0.Length0 == L && r0.Length1 == R && forall l, r :: 0 <= l < L && 0 <= r < R ==>
      r0[l, r] == RlzRate(rates[l], trtRlzs, r)
  }

  /** The double loop of `get_hcurve` and of `CurveGetter.get_hazard`. */
  method Accumulate(rates: Grid, trtRlzs: seq<seq<nat>>, L: nat, R: nat) returns (r0: array2<real>)
    requires IsGrid(rates, L, |trtRlzs|) && Below(trtRlzs, R)
    ensures fresh(r0) && Has(r0, rates, trtRlzs, L, R)
  {
    r0 := new real[L, R]((l, r) => 0.0);
    for g := 0 to |trtRlzs|
      invariant fresh(r0) && r0.Length0 == L && r0.Length1 == R
      invariant forall l, r :: 0 <= l < L && 0 <= r < R ==> r0[l, r] == RlzRate(rates[l], trtRlzs[..g], r)
    {
      AddGroup(r0, rates, trtRlzs[g], g);
      assert trtRlzs[..g + 1][..g] == trtRlzs[..g];
    }
    assert trtRlzs[..|trtRlzs|] == trtRlzs;
  }

  method AddGroup(r0: array2<real>, rates: Grid, rlzs: seq<nat>, g: nat)
    requires |rates| == r0.Length0 && forall l :: 0 <= l < |rates| ==> g < |rates[l]|
    requires forall i :: 0 <= i < |rlzs| ==> rlzs[i] % TWO24 < r0.Length1
    modifies r0
    ensures forall l, r :: 0 <= l < r0.Length0 && 0 <= r < r0.Length1 ==>
      r0[l, r] == old(r0[l, r]) + InGroup(rates[l][g], rlzs, r)
  {
    for i := 0 to |rlzs|
      invariant forall l, r :: 0 <= l < r0.Length0 && 0 <= r < r0.Length1 ==>
        r0[l, r] == old(r0[l, r]) + InGroup(rates[l][g], rlzs[..i], r)
    {
      assert rlzs[..i + 1][..i] == rlzs[..i];
      var rlz := rlzs[i] % TWO24;
      forall l | 0 <= l < r0.Length0 {
        r0[l, rlz] := r0[l, rlz] + rates[l][g];
      }
    }
    assert rlzs[..|rlzs|] == rlzs;
  }

  /** What a getter holds once it has read its rates, and whether it could read them. */
  ghost function Read(getter: MapGetter): (r: Loaded)
    requires Grids(getter.sites, getter.L, getter.G())
    requires forall f :: f in getter.files ==> f.Valid()
    requires Readable(Tables(getter.files))
    reads getter, getter.files
    ensures Grids(r.sites, getter.L, getter.G())
  {
    if getter.sites != map[] then Loaded(true, getter.sites)
    else LoadFiles(map[], Tables(getter.files), getter.idx, getter.L, getter.G())
  }

  /** `get_hcurve`: the probabilities of a site for each level and realization; zeros for a
      site without rates. A getter for the fast mean raises on a site with rates. */
  method GetHCurve(getter: MapGetter, sid: nat, toProbs: real -> real) returns (ok: bool, curve: array2<real>)
    requires Grids(getter.sites, getter.L, getter.G())
    requires getter.trtRlzs.Lists? ==> Below(getter.trtRlzs.rlzs, getter.R)
    requires forall f :: f in getter.files ==> f.Valid()
    requires Readable(Tables(getter.files))
    modifies getter`sites
    ensures getter.sites == old(Read(getter)).sites
    ensures ok <==> old(Read(getter)).ok && (sid in getter.sites ==> getter.trtRlzs.Loopable())
    ensures ok ==> curve.Length0 == getter.L && curve.Length1 == getter.R
    ensures ok ==> Grids(getter.sites, getter.L, getter.G())
    ensures ok && sid in getter.sites ==> forall l, r :: 0 <= l < getter.L && 0 <= r < getter.R ==>
      curve[l, r] == toProbs(RlzRate(getter.sites[sid][l], getter.trtRlzs.Groups(), r))
    ensures ok && sid !in getter.sites ==> forall l, r :: 0 <= l < getter.L && 0 <= r < getter.R ==> curve[l, r] == 0.0
  {
    var L, R := getter.L, getter.R;
    ok := getter.Init();
    if !ok || sid !in getter.sites {
      curve := new real[L, R]((l, r) => 0.0);
      return;
    }
    if !getter.trtRlzs.Loopable() {
      curve := new real[L, R]((l, r) => 0.0);
      ok := false;
      return;
    }
    curve := Accumulate(getter.sites[sid], getter.trtRlzs.Groups(), L, R);
    forall l, r | 0 <= l < L && 0 <= r < R {
      curve[l, r] := toProbs(curve[l, r]);
    }
  }

  /** Where the numbers of the realizations go: t * 2^24 + k stands for realization k. */
  lemma {:induction false} WhereItGoes(x: real, t: nat, k: nat, r: nat, w: seq<real>)
    requires k < 16777216 && k < |w|
    ensures (t * 16777216 + k) % TWO24 == k
    ensures InGroup(x, [t * 16777216 + k], r) == if r == k then x else 0.0
    ensures GroupWeight(w, [t * 16777216 + k]) == w[k]
  {
    assert [t * 16777216 + k][..0] == [];
  }

  /** A realization gets the rates of several listings one after the other. */
  lemma {:induction false} InGroupAppend(x: real, a: seq<nat>, b: seq<nat>, r: nat)
    ensures InGroup(x, a + b, r) == InGroup(x, a, r) + InGroup(x, b, r)
  {
    if b == [] {
      assert a + b == a;
    } else {
      assert (a + b)[..|a + b| - 1] == a + b[..|b| - 1];
      InGroupAppend(x, a, b[..|b| - 1], r);
    }
  }

  // ----- weighted sums

  function Dot(w: seq<real>, v: seq<real>): real
    requires |w| == |v|
  {
    if w == [] then 0.0
    else
      var n := |w| - 1;
      Dot(w[..n], v[..n]) + w[n] * v[n]
  }

  /** The weight of a group: `weights[rlzs].sum()`. */
  function GroupWeight(w: seq<real>, rlzs: seq<nat>): real
    requires forall i :: 0 <= i < |rlzs| ==> rlzs[i] % TWO24 < |w|
  {
    if rlzs == [] then 0.0
    else
      var m := |rlzs| - 1;
      GroupWeight(w, rlzs[..m]) + w[rlzs[m] % TWO24]
  }

  function GroupWeights(w: seq<real>, trtRlzs: seq<seq<nat>>): (gw: seq<real>)
    requires Below(trtRlzs, |w|)
    ensures |gw| == |trtRlzs|
  {
    seq(|trtRlzs|, g requires 0 <= g < |trtRlzs| => GroupWeight(w, trtRlzs[g]))
  }

  function RlzRates(row: seq<real>, trtRlzs: seq<seq<nat>>, R: nat): (v: seq<real>)
    requires |row| >= |trtRlzs|
    ensures |v| == R
  {
    seq(R, r requires 0 <= r < R => RlzRate(row, trtRlzs, r))
  }

  lemma {:induction false} DotAdd(w: seq<real>, a: seq<real>, b: seq<real>, c: seq<real>)
    requires |w| == |a| == |b| == |c| && forall i :: 0 <= i < |w| ==> c[i] == a[i] + b[i]
    ensures Dot(w, c) == Dot(w, a) + Dot(w, b)
  {
    if w != [] {
      var n := |w| - 1;
      DotAdd(w[..n], a[..n], b[..n], c[..n]);
      Distribute(w[n], a[n], b[n]);
    }
  }

  lemma {:induction false} Distribute(x: real, a: real, b: real)
    ensures x * (a + b) == x * a + x * b
  {
  }

  lemma {:induction false} DotZero(w: seq<real>, v: seq<real>)
    requires |w| == |v| && forall i :: 0 <= i < |v| ==> v[i] == 0.0
    ensures Dot(w, v) == 0.0
  {
    if w != [] {
      DotZero(w[..|w| - 1], v[..|w| - 1]);
    }
  }

  lemma {:induction false} DotSpike(w: seq<real>, v: seq<real>, k: nat, x: real)
    requires |w| == |v| && k < |w| && forall i :: 0 <= i < |v| ==> v[i] == if i == k then x else 0.0
    ensures Dot(w, v) == w[k] * x
  {
    var n := |w| - 1;
    if k == n {
      DotZero(w[..n], v[..n]);
    } else {
      DotSpike(w[..n], v[..n], k, x);
    }
  }

  lemma {:induction false} InGroupStep(x: real, rlzs: seq<nat>, r: nat)
    ensures InGroup(x, rlzs, r) == if rlzs == [] then 0.0
      else InGroup(x, rlzs[..|rlzs| - 1], r) + if rlzs[|rlzs| - 1] % TWO24 == r then x else 0.0
  {
  }

  lemma {:induction false} GroupDot(w: seq<real>, x: real, rlzs: seq<nat>, v: seq<real>)
    requires forall i :: 0 <= i < |rlzs| ==> rlzs[i] % TWO24 < |w|
    requires |v| == |w| && forall r :: 0 <= r < |v| ==> v[r] == InGroup(x, rlzs, r)
    ensures Dot(w, v) == GroupWeight(w, rlzs) * x
  {
    hide Dot, InGroup;
    if rlzs == [] {
      forall r | 0 <= r < |v| ensures v[r] == 0.0 {
        InGroupStep(x, rlzs, r);
      }
      DotZero(w, v);
    } else {
      var m := |rlzs| - 1;
      var k := rlzs[m] % TWO24;
      var a := seq(|w|, r requires 0 <= r < |w| => InGroup(x, rlzs[..m], r));
      var b := seq(|w|, r requires 0 <= r < |w| => if r == k then x else 0.0);
      GroupDot(w, x, rlzs[..m], a);
      DotSpike(w, b, k, x);
      forall r | 0 <= r < |v| ensures v[r] == a[r] + b[r] {
        InGroupStep(x, rlzs, r);
      }
      DotAdd(w, a, b, v);
      Distribute(x, GroupWeight(w, rlzs[..m]), w[k]);
    }
  }

  /** Weighting the realizations after the accumulation is weighting the groups before it. */
  lemma {:induction false} GroupsBeforeRealizations(w: seq<real>, row: seq<real>, trtRlzs: seq<seq<nat>>)
    requires |row| == |trtRlzs| && Below(trtRlzs, |w|)
    ensures Dot(w, RlzRates(row, trtRlzs, |w|)) == Dot(row, GroupWeights(w, trtRlzs))
  {
    if trtRlzs == [] {
      DotZero(w, RlzRates(row, trtRlzs, |w|));
    } else {
      var g := |trtRlzs| - 1;
      GroupsBeforeRealizations(w, row[..g], trtRlzs[..g]);
      LastGroup(w, row, trtRlzs);
      LastWeight(w, row, trtRlzs);
    }
  }

  lemma {:induction false} LastGroup(w: seq<real>, row: seq<real>, trtRlzs: seq<seq<nat>>)
    requires |row| == |trtRlzs| > 0 && Below(trtRlzs, |w|)
    ensures var g := |row| - 1;
      Dot(w, RlzRates(row, trtRlzs, |w|)) ==
        Dot(w, RlzRates(row[..g], trtRlzs[..g], |w|)) + GroupWeight(w, trtRlzs[g]) * row[g]
  {
    hide Dot, RlzRates, GroupWeight;
    var g := |row| - 1;
    var b := seq(|w|, r requires 0 <= r < |w| => InGroup(row[g], trtRlzs[g], r));
    GroupDot(w, row[g], trtRlzs[g], b);
    FrontRates(row, trtRlzs, |w|, b);
    DotAdd(w, RlzRates(row[..g], trtRlzs[..g], |w|), b, RlzRates(row, trtRlzs, |w|));
  }

  lemma {:induction false} LastWeight(w: seq<real>, row: seq<real>, trtRlzs: seq<seq<nat>>)
    requires |row| == |trtRlzs| > 0 && Below(trtRlzs, |w|)
    ensures var g := |row| - 1;
      Dot(row, GroupWeights(w, trtRlzs)) ==
        Dot(row[..g], GroupWeights(w, trtRlzs[..g])) + GroupWeight(w, trtRlzs[g]) * row[g]
  {
    hide GroupWeight;
    assert GroupWeights(w, trtRlzs)[..|row| - 1] == GroupWeights(w, trtRlzs[..|row| - 1]);
  }

  lemma {:induction false} FrontRates(row: seq<real>, trtRlzs: seq<seq<nat>>, R: nat, b: seq<real>)
    requires |row| == |trtRlzs| > 0 && |b| == R
    requires forall r :: 0 <= r < R ==> b[r] == InGroup(row[|row| - 1], trtRlzs[|row| - 1], r)
    ensures var g := |row| - 1;
      forall r :: 0 <= r < R ==> RlzRates(row, trtRlzs, R)[r] == RlzRates(row[..g], trtRlzs[..g], R)[r] + b[r]
  {
    var g := |row| - 1;
    forall r | 0 <= r < R ensures RlzRate(row, trtRlzs[..g], r) == RlzRate(row[..g], trtRlzs[..g], r) {
      SameRows(row, row[..g], trtRlzs[..g], r);
    }
  }

  lemma {:induction false} SameRows(a: seq<real>, b: seq<real>, trtRlzs: seq<seq<nat>>, r: nat)
    requires |a| >= |trtRlzs| && |b| >= |trtRlzs| && forall g :: 0 <= g < |trtRlzs| ==> a[g] == b[g]
    ensures RlzRate(a, trtRlzs, r) == RlzRate(b, trtRlzs, r)
  {
    if trtRlzs != [] {
      SameRows(a, b, trtRlzs[..|trtRlzs| - 1], r);
    }
  }

  // ----- the two means

  function Sum(w: seq<real>): real {
    if w == [] then 0.0 else Sum(w[..|w| - 1]) + w[|w| - 1]
  }

  /** `numpy.average` with weights: the weights are normalised, and may not sum to zero. */
  function Average(v: seq<real>, w: seq<real>): Option<real>
    requires |v| == |w|
  {
    if Sum(w) == 0.0 then None else Some(Dot(w, v) / Sum(w))
  }

  function Each(f: real -> real, v: seq<real>): (r: seq<real>)
    ensures |r| == |v| && forall i :: 0 <= i < |v| ==> r[i] == f(v[i])
  {
    seq(|v|, i requires 0 <= i < |v| => f(v[i]))
  }

  function Row(a: array2<real>, l: nat): (v: seq<real>)
    requires l < a.Length0
    reads a
    ensures |v| == a.Length1 && forall r :: 0 <= r < |v| ==> v[r] == a[l, r]
  {
    seq(a.Length1, r requires 0 <= r < a.Length1 reads a => a[l, r])
  }

  /** A statistic over the realizations of the values at one level. It may raise on some weights. */
  datatype Stat = Stat(rejects: seq<real> -> bool, value: (seq<real>, seq<real>) -> real)

  /** `mean_curve`. */
  function MeanCurve(): Stat {
    Stat((ws: seq<real>) => Sum(ws) == 0.0,
         (v: seq<real>, ws: seq<real>) => if |v| == |ws| && Sum(ws) != 0.0 then Average(v, ws).value else 0.0)
  }

  /** The statistic of the probabilities, or the probability of the statistic of the rates. */
  function StatOf(
    stat: Stat, poes: seq<real>, weights: seq<real>, useRates: bool, toProbs: real -> real, toRates: real -> real): real
  {
    if useRates then toProbs(stat.value(Each(toRates, poes), weights)) else stat.value(poes, weights)
  }

  /** The measures have consecutive levels, L in all, and a weight for each of the R realizations. */
  ghost predicate Consecutive(ms: seq<Measure>, L: nat, R: nat) {
    && (forall m :: 0 <= m < |ms| ==> ms[m].lo <= ms[m].hi && |ms[m].weights| == R)
    && (forall m :: 0 <= m < |ms| - 1 ==> ms[m].hi == ms[m + 1].lo)
    && (if ms == [] then L == 0 else ms[0].lo == 0 && ms[|ms| - 1].hi == L)
  }

  lemma {:induction false} MeasureOrder(ms: seq<Measure>, L: nat, R: nat, a: nat, b: nat)
    requires Consecutive(ms, L, R) && a < b < |ms|
    ensures ms[a].hi <= ms[b].lo <= ms[b].hi <= L
    decreases |ms| - a
  {
    assert a < |ms| - 1 ==> ms[a].hi == ms[a + 1].lo;
    if a + 1 < b {
      MeasureOrder(ms, L, R, a + 1, b);
    } else {
      LastMeasure(ms, L, R, b);
    }
  }

  lemma {:induction false} LastMeasure(ms: seq<Measure>, L: nat, R: nat, m: nat)
    requires Consecutive(ms, L, R) && m < |ms|
    ensures ms[m].hi <= L
    decreases |ms| - m
  {
    if m < |ms| - 1 {
      LastMeasure(ms, L, R, m + 1);
      assert ms[m].hi == ms[m + 1].lo;
    }
  }

  /** The value at a level of a measure: without any weight there is no data for it. */
  function MeasureStat(
    stat: Stat, poes: seq<real>, weights: seq<real>, useRates: bool, toProbs: real -> real, toRates: real -> real): real
  {
    if Sum(weights) == 0.0 then 0.0 else StatOf(stat, poes, weights, useRates, toProbs, toRates)
  }

  /** There is not one weight for each of the R realizations, or the statistic raises on the weights
      it is given; it is not given those that sum to zero for one of several measures. */
  predicate Raises(stat: Stat, weights: Weights, R: nat)
    requires !weights.ByGroup?
  {
    match weights
    case Common(ws) => |ws| != R || stat.rejects(ws)
    case ByMeasure(ms) => exists m :: 0 <= m < |ms| && Sum(ms[m].weights) != 0.0 && stat.rejects(ms[m].weights)
  }

  /** `build_stat_curve`: any statistic, with weights common to all the measures or with the weights
      of each measure for its levels. */
  method BuildStatCurve(
    hcurve: array2<real>, stat: Stat, weights: Weights, useRates: bool, toProbs: real -> real, toRates: real -> real)
    returns (curve: Option<seq<real>>)
    requires !weights.ByGroup?
    requires weights.ByMeasure? ==> Consecutive(weights.measures, hcurve.Length0, hcurve.Length1)
    ensures curve.None? <==> Raises(stat, weights, hcurve.Length1)
    ensures curve.Some? ==> |curve.value| == hcurve.Length0
    ensures curve.Some? && weights.Common? ==> forall l :: 0 <= l < hcurve.Length0 ==>
      curve.value[l] ==
        if useRates then toProbs(stat.value(Each(toRates, Row(hcurve, l)), weights.weights))
        else stat.value(Row(hcurve, l), weights.weights)
    ensures curve.Some? && weights.ByMeasure? ==> forall m, l ::
      0 <= m < |weights.measures| && weights.measures[m].lo <= l < weights.measures[m].hi && l < hcurve.Length0 ==>
        var ws := weights.measures[m].weights;
        curve.value[l] ==
          if Sum(ws) == 0.0 then 0.0
          else if useRates then toProbs(stat.value(Each(toRates, Row(hcurve, l)), ws))
          else stat.value(Row(hcurve, l), ws)
  {
    match weights {
      case Common(ws) =>
        if |ws| != hcurve.Length1 || stat.rejects(ws) {
          return None;
        }
        var out := CommonCurve(hcurve, stat, ws, useRates, toProbs, toRates);
        curve := Some(out);
      case ByMeasure(ms) =>
        var ok, out := MeasureCurve(hcurve, stat, ms, useRates, toProbs, toRates);
        curve := if ok then Some(out[..]) else None;
    }
  }

  method CommonCurve(
    hcurve: array2<real>, stat: Stat, weights: seq<real>, useRates: bool, toProbs: real -> real, toRates: real -> real)
    returns (out: seq<real>)
    ensures |out| == hcurve.Length0
    ensures forall l :: 0 <= l < hcurve.Length0 ==>
      out[l] == StatOf(stat, Row(hcurve, l), weights, useRates, toProbs, toRates)
  {
    out := [];
    for l := 0 to hcurve.Length0
      invariant |out| == l
      invariant forall k :: 0 <= k < l ==> out[k] == StatOf(stat, Row(hcurve, k), weights, useRates, toProbs, toRates)
    {
      out := out + [StatOf(stat, Row(hcurve, l), weights, useRates, toProbs, toRates)];
    }
  }

  method MeasureCurve(
    hcurve: array2<real>, stat: Stat, ms: seq<Measure>, useRates: bool, toProbs: real -> real, toRates: real -> real)
    returns (ok: bool, out: array<real>)
    requires Consecutive(ms, hcurve.Length0, hcurve.Length1)
    ensures ok <==> !Raises(stat, ByMeasure(ms), hcurve.Length1)
    ensures fresh(out) && out.Length == hcurve.Length0
    ensures ok ==> forall m, l :: 0 <= m < |ms| && ms[m].lo <= l < ms[m].hi && l < out.Length ==>
      out[l] == MeasureStat(stat, Row(hcurve, l), ms[m].weights, useRates, toProbs, toRates)
  {
    hide StatOf, Sum, Row;
    var L, R := hcurve.Length0, hcurve.Length1;
    out := new real[L](l => 0.0);
    for m := 0 to |ms|
      invariant fresh(out) && out.Length == L
      invariant forall k :: 0 <= k < m ==> Sum(ms[k].weights) == 0.0 || !stat.rejects(ms[k].weights)
      invariant forall k, l :: 0 <= k < m && ms[k].lo <= l < ms[k].hi && l < L ==>
        out[l] == MeasureStat(stat, Row(hcurve, l), ms[k].weights, useRates, toProbs, toRates)
      invariant forall k, l :: m <= k < |ms| && ms[k].lo <= l < ms[k].hi && l < L ==> out[l] == 0.0
    {
      LastMeasure(ms, L, R, m);
      forall k | 0 <= k < m ensures ms[k].hi <= ms[m].lo {
        MeasureOrder(ms, L, R, k, m);
      }
      forall k | m < k < |ms| ensures ms[m].hi <= ms[k].lo {
        MeasureOrder(ms, L, R, m, k);
      }
      var ws := ms[m].weights;
      if Sum(ws) != 0.0 {
        if stat.rejects(ws) {
          ok := false;
          return;
        }
        forall l | ms[m].lo <= l < ms[m].hi {
          out[l] := MeasureStat(stat, Row(hcurve, l), ws, useRates, toProbs, toRates);
        }
      }
    }
    ok := true;
  }

  /** `rates @ gweights`, then `to_probs`. */
  function FastMean(rates: Grid, gweights: seq<real>, toProbs: real -> real): (mean: seq<real>)
    requires forall l :: 0 <= l < |rates| ==> |rates[l]| == |gweights|
    ensures |mean| == |rates|
  {
    seq(|rates|, l requires 0 <= l < |rates| => toProbs(Dot(rates[l], gweights)))
  }

  /** `get_fast_mean`: the mean curves of all the sites of a getter. */
  method GetFastMean(getter: MapGetter, gweights: seq<real>, toProbs: real -> real)
    returns (ok: bool, means: map<nat, seq<real>>)
    requires Grids(getter.sites, getter.L, getter.G()) && getter.G() == |gweights|
    requires forall f :: f in getter.files ==> f.Valid()
    requires Readable(Tables(getter.files))
    modifies getter`sites
    ensures Loaded(ok, getter.sites) == old(Read(getter))
    ensures ok ==> means.Keys == getter.sites.Keys
    ensures ok ==> Grids(getter.sites, getter.L, getter.G())
    ensures ok ==> forall s :: s in means ==> means[s] == FastMean(getter.sites[s], gweights, toProbs)
  {
    means := map[];
    ok := getter.Init();
    if ok {
      means := map s | s in getter.sites :: FastMean(getter.sites[s], gweights, toProbs);
    }
  }

  /** The slow mean of a level: average the rates of the curve of each realization. */
  function SlowMean(
    row: seq<real>, trtRlzs: seq<seq<nat>>, w: seq<real>, toProbs: real -> real, toRates: real -> real): Option<real>
    requires |row| == |trtRlzs|
  {
    match Average(Each(toRates, Each(toProbs, RlzRates(row, trtRlzs, |w|))), w)
    case None => None
    case Some(m) => Some(toProbs(m))
  }

  ghost predicate Inverts(toRates: real -> real, toProbs: real -> real) {
    forall x :: toRates(toProbs(x)) == x
  }

  lemma {:induction false} QuotientIs(x: real, d: real)
    requires d != 0.0
    ensures x / d == x <==> d == 1.0 || x == 0.0
  {
    assert (x / d) * d == x;
    assert x * d == x <==> x * (d - 1.0) == 0.0;
    assert x * (d - 1.0) == 0.0 <==> x == 0.0 || d == 1.0;
    assert x / d == x ==> x * d == x;
    assert d == 1.0 ==> x / d == x;
  }

  /** The fast mean of a level is the slow mean computed on rates exactly when the weights sum
      to one, or the weighted rate is zero and the weights do not sum to zero. */
  lemma {:induction false} FastIsSlowIff(
    row: seq<real>, trtRlzs: seq<seq<nat>>, w: seq<real>, toProbs: real -> real, toRates: real -> real)
    requires |row| == |trtRlzs| && Below(trtRlzs, |w|) && Inverts(toRates, toProbs)
    ensures SlowMean(row, trtRlzs, w, toProbs, toRates) == Some(toProbs(Dot(row, GroupWeights(w, trtRlzs)))) <==>
            Sum(w) == 1.0 || (Sum(w) != 0.0 && Dot(row, GroupWeights(w, trtRlzs)) == 0.0)
  {
    hide Dot, Sum, RlzRates, GroupWeights;
    var rates := RlzRates(row, trtRlzs, |w|);
    var back := Each(toRates, Each(toProbs, rates));
    assert forall i :: 0 <= i < |rates| ==> back[i] == toRates(toProbs(rates[i])) == rates[i];
    assert back == rates;
    GroupsBeforeRealizations(w, row, trtRlzs);
    if Sum(w) != 0.0 {
      var x := Dot(w, rates);
      QuotientIs(x, Sum(w));
      assert toRates(toProbs(x)) == x && toRates(toProbs(x / Sum(w))) == x / Sum(w);
    }
  }

  /** One realization of weight 2: the fast mean rate is twice the slow one. */
  lemma {:induction false} MeanWitness()
    ensures Dot([1.0], GroupWeights([2.0], [[0]])) == 2.0
    ensures Average(RlzRates([1.0], [[0]], 1), [2.0]) == Some(1.0)
  {
    assert [0][..0] == [] && [2.0][..0] == [] && [[0]][..0] == [];
    assert GroupWeight([2.0], [0]) == 2.0;
    assert RlzRate([1.0], [[0]], 0) == RlzRate([1.0], [], 0) + InGroup(1.0, [0], 0) == 1.0;
    assert RlzRates([1.0], [[0]], 1) == [1.0];
    assert Dot([2.0], [1.0]) == Dot([], []) + 2.0 * 1.0;
    assert Dot([1.0], [2.0]) == Dot([], []) + 1.0 * 2.0;
    assert GroupWeights([2.0], [[0]]) == [2.0];
    assert Sum([2.0]) == 2.0;
  }

  /** For weights that sum to one, the curve built from all the realizations is the fast one. */
  lemma {:induction false} FastMeanIsSlowMean(
    rates: Grid, L: nat, trtRlzs: seq<seq<nat>>, w: seq<real>, toProbs: real -> real, toRates: real -> real, l: nat)
    requires IsGrid(rates, L, |trtRlzs|) && Below(trtRlzs, |w|) && Inverts(toRates, toProbs) && Sum(w) == 1.0 && l < L
    ensures SlowMean(rates[l], trtRlzs, w, toProbs, toRates) ==
      Some(FastMean(rates, GroupWeights(w, trtRlzs), toProbs)[l])
  {
    FastIsSlowIff(rates[l], trtRlzs, w, toProbs, toRates);
  }

  /** The getters of the same chunk for the two programs, before they read anything. */
  ghost predicate SlowAndFast(slow: MapGetter, fast: MapGetter, rlzs: seq<seq<nat>>, w: seq<real>)
    reads slow, fast
  {
    && Below(rlzs, |w|) && slow != fast
    && slow.files == fast.files && slow.idx == fast.idx && slow.L == fast.L
    && slow.R == |w| && slow.sites == fast.sites == map[]
    && slow.trtRlzs == GivenRlzs(false, GroupWeights(w, rlzs), rlzs)
    && fast.trtRlzs == GivenRlzs(true, GroupWeights(w, rlzs), rlzs)
    && slow.weights == GivenWeights(false, GroupWeights(w, rlzs), Common(w))
    && fast.weights == GivenWeights(true, GroupWeights(w, rlzs), Common(w))
  }

  /** Both programs: read a site and average its realizations, or take the fast mean. */
  method Means(
    slow: MapGetter, fast: MapGetter, sid: nat, ghost rlzs: seq<seq<nat>>, w: seq<real>, toProbs: real -> real,
    toRates: real -> real)
    returns (ok: bool, sites: set<nat>, slowMean: seq<real>, fastMean: seq<real>)
    requires SlowAndFast(slow, fast, rlzs, w)
    requires forall f :: f in slow.files ==> f.Valid()
    requires Readable(Tables(slow.files))
    requires Inverts(toRates, toProbs) && Sum(w) == 1.0
    modifies slow`sites, fast`sites
    ensures ok <==> old(Read(slow)).ok
    ensures ok && sid in sites ==> slowMean == fastMean
    ensures sites == old(Read(slow)).sites.Keys
  {
    slowMean, fastMean := [], [];
    var curve;
    ok, curve := GetHCurve(slow, sid, toProbs);
    sites := slow.sites.Keys;
    if !ok || sid !in slow.sites {
      return;
    }
    var mean := BuildStatCurve(curve, MeanCurve(), slow.weights, true, toProbs, toRates);
    var again, means := GetFastMean(fast, fast.weights.gweights, toProbs);
    slowMean, fastMean := mean.value, means[sid];
    forall l | 0 <= l < slow.L ensures slowMean[l] == fastMean[l] {
      assert Row(curve, l) == Each(toProbs, RlzRates(slow.sites[sid][l], rlzs, |w|));
      FastMeanIsSlowMean(slow.sites[sid], slow.L, rlzs, w, toProbs, toRates, l);
    }
  }
}

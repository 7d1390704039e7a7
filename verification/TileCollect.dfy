/** Collecting the results of jobs on tiles: the sites are numbered modulo the number of tiles,
    concatenated tile after tile, and put back in order by sorting their numbers. */
module TileCollect {
  import opened Basics
  import opened ModSlices

  datatype Site<T> = Site(sid: nat, data: T)

  /** What a job stored: its sites and, if it computed them, one curve for each site. */
  datatype Tile<T, C> = Tile(sites: seq<Site<T>>, curves: Option<seq<C>>)

  datatype Saved<T, C> = Saved(sites: seq<Site<T>>, curves: Option<seq<C>>)

  function Arange(n: nat): (s: seq<nat>)
    ensures |s| == n
  {
    seq(n, i => i)
  }

  /** `sids[sids % ntiles == t]` */
  function TileSids(n: nat, m: nat, t: nat): seq<nat>
    requires m > 0
  {
    ModSlice<nat>(Arange(n), m, t)
  }

  /** The numbers of the first k tiles. */
  function FirstSids(n: nat, m: nat, k: nat): seq<nat>
    requires m > 0
  {
    Concat<nat>(FirstSlices<nat>(Arange(n), m, k))
  }

  function AllSids(n: nat, m: nat): seq<nat>
    requires m > 0
  {
    FirstSids(n, m, m)
  }

  // ----- argsort

  ghost predicate Ordered(s: seq<nat>) {
    forall i, j :: 0 <= i < j < |s| ==> s[i] <= s[j]
  }

  /** The positions, each once, in the order of the keys. */
  ghost predicate IsArgSort(keys: seq<nat>, idxs: seq<nat>) {
    && multiset(idxs) == multiset(Arange(|keys|))
    && (forall i :: 0 <= i < |idxs| ==> idxs[i] < |keys|)
    && Ordered(Pick(keys, idxs))
  }

  ghost predicate Sorts(argsort: seq<nat> -> seq<nat>) {
    forall keys :: IsArgSort(keys, argsort(keys))
  }

  lemma {:induction false} PickPermutes<T>(xs: seq<T>, idxs: seq<nat>)
    requires multiset(idxs) == multiset(Arange(|xs|)) && forall i :: 0 <= i < |idxs| ==> idxs[i] < |xs|
    ensures multiset(Pick(xs, idxs)) == multiset(xs)
  {
    PickSame(xs, idxs, Arange(|xs|));
    assert Pick(xs, Arange(|xs|)) == xs;
  }

  lemma {:induction false} PickSame<T>(xs: seq<T>, a: seq<nat>, b: seq<nat>)
    requires multiset(a) == multiset(b)
    requires forall i :: 0 <= i < |a| ==> a[i] < |xs|
    requires forall i :: 0 <= i < |b| ==> b[i] < |xs|
    ensures multiset(Pick(xs, a)) == multiset(Pick(xs, b))
  {
    hide Pick;
    if a == [] {
      assert |multiset(b)| == |b|;
    } else {
      var n := |a| - 1;
      assert a[n] in multiset(b);
      var j :| 0 <= j < |b| && b[j] == a[n];
      var b' := b[..j] + b[j + 1..];
      Removed(xs, a, n);
      Removed(xs, b, j);
      assert a[..n] + a[n + 1..] == a[..n];
      Cancel(multiset(a[..n]), multiset(b'), a[n]);
      PickSame(xs, a[..n], b');
    }
  }

  lemma {:induction false} Removed<T>(xs: seq<T>, b: seq<nat>, j: nat)
    requires j < |b| && forall i :: 0 <= i < |b| ==> b[i] < |xs|
    ensures multiset(b) == multiset(b[..j] + b[j + 1..]) + multiset{b[j]}
    ensures multiset(Pick(xs, b)) == multiset(Pick(xs, b[..j] + b[j + 1..])) + multiset{xs[b[j]]}
  {
    assert b == b[..j] + [b[j]] + b[j + 1..];
    assert Pick(xs, b) == Pick(xs, b[..j]) + [xs[b[j]]] + Pick(xs, b[j + 1..]);
    assert Pick(xs, b[..j] + b[j + 1..]) == Pick(xs, b[..j]) + Pick(xs, b[j + 1..]);
  }

  lemma {:induction false} Cancel<T>(a: multiset<T>, b: multiset<T>, x: T)
    requires a + multiset{x} == b + multiset{x}
    ensures a == b
  {
    assert a == (a + multiset{x}) - multiset{x};
    assert b == (b + multiset{x}) - multiset{x};
  }

  /** The numbers below n, in order, are known. */
  lemma {:induction false} OrderedRange(s: seq<nat>, n: nat)
    requires Ordered(s) && multiset(s) == multiset(Arange(n))
    ensures s == Arange(n)
  {
    RangeLength(s, n);
    if n > 0 {
      var a := Arange(n);
      assert a == Arange(n - 1) + [n - 1];
      assert a[n - 1] in multiset(s);
      assert s[n - 1] in multiset(a);
      assert s == s[..n - 1] + [s[n - 1]];
      assert s[n - 1] == n - 1;
      var last: nat := n - 1;
      assert multiset(s) == multiset(s[..n - 1]) + multiset{last};
      assert multiset(a) == multiset(Arange(n - 1)) + multiset{last};
      Cancel(multiset(s[..n - 1]), multiset(Arange(n - 1)), last);
      OrderedRange(s[..n - 1], n - 1);
    }
  }

  lemma {:induction false} RangeLength(s: seq<nat>, n: nat)
    requires multiset(s) == multiset(Arange(n))
    ensures |s| == n
  {
    assert |multiset(s)| == |s| && |multiset(Arange(n))| == n;
  }

  /** The sorted positions invert the modular numbering. */
  lemma {:induction false} InversePermutation(n: nat, m: nat, idxs: seq<nat>)
    requires m > 0 && IsArgSort(AllSids(n, m), idxs)
    ensures |AllSids(n, m)| == n == |idxs|
    ensures forall i :: 0 <= i < n ==> idxs[i] < n && AllSids(n, m)[idxs[i]] == i
  {
    hide AllSids;
    var keys := AllSids(n, m);
    AllSidsPermute(n, m);
    RangeLength(keys, n);
    RangeLength(idxs, n);
    PickPermutes(keys, idxs);
    OrderedRange(Pick(keys, idxs), n);
    assert forall i :: 0 <= i < n ==> Pick(keys, idxs)[i] == keys[idxs[i]];
  }

  lemma {:induction false} AllSidsPermute(n: nat, m: nat)
    requires m > 0
    ensures multiset(AllSids(n, m)) == multiset(Arange(n))
  {
    SlicesPermute<nat>(Arange(n), m);
  }

  // ----- tiling and collecting

  ghost predicate Under(idxs: seq<nat>, n: nat) {
    forall i :: 0 <= i < |idxs| ==> idxs[i] < n
  }

  lemma {:induction false} TileSidsStep(n: nat, m: nat, t: nat)
    requires m > 0
    ensures TileSids(n + 1, m, t) == if n % m == t then TileSids(n, m, t) + [n] else TileSids(n, m, t)
  {
    assert Arange(n + 1)[..n] == Arange(n);
  }

  lemma {:induction false} ModSlicePick<T>(xs: seq<T>, n: nat, m: nat, t: nat)
    requires m > 0 && n <= |xs|
    ensures Under(TileSids(n, m, t), n)
    ensures ModSlice(xs[..n], m, t) == Pick(xs, TileSids(n, m, t))
  {
    hide ModSlice, TileSids;
    if n == 0 {
      NoSids(m, t);
      NothingSliced<T>(m, t);
      assert xs[..0] == [];
    } else {
      ModSlicePick(xs, n - 1, m, t);
      TileSidsStep(n - 1, m, t);
      ModSliceGrow(xs[..n - 1], xs[n - 1], m, t);
      assert xs[..n] == xs[..n - 1] + [xs[n - 1]];
      assert n - 1 + 1 == n;
    }
  }

  lemma {:induction false} NothingSliced<T>(m: nat, t: nat)
    requires m > 0
    ensures ModSlice<T>([], m, t) == []
  {
  }

  lemma {:induction false} SlicesPick<T>(xs: seq<T>, m: nat, k: nat)
    requires m > 0
    ensures Under(FirstSids(|xs|, m, k), |xs|)
    ensures Concat(FirstSlices(xs, m, k)) == Pick(xs, FirstSids(|xs|, m, k))
  {
    hide Concat, FirstSlices, ModSlice;
    if k == 0 {
      NoSlices(xs, m);
      NoSlices<nat>(Arange(|xs|), m);
    } else {
      SlicesPick(xs, m, k - 1);
      ConcatFirst(xs, m, k);
      ConcatFirst<nat>(Arange(|xs|), m, k);
      ModSlicePick(xs, |xs|, m, k - 1);
      assert xs[..|xs|] == xs;
    }
  }

  /** Cutting any sequence in modular slices and picking the sorted positions gives it back. */
  lemma {:induction false} CollectInvertsSlicing<T>(xs: seq<T>, m: nat, idxs: seq<nat>)
    requires m > 0 && IsArgSort(AllSids(|xs|, m), idxs)
    ensures |Concat(FirstSlices(xs, m, m))| == |xs| == |idxs| && forall i :: 0 <= i < |idxs| ==> idxs[i] < |xs|
    ensures Pick(Concat(FirstSlices(xs, m, m)), idxs) == xs
  {
    hide Concat, FirstSlices;
    InversePermutation(|xs|, m, idxs);
    SlicesPick(xs, m, m);
  }

  // ----- the program

  function Data<T>(sites: seq<Site<T>>): (r: seq<T>)
    ensures |r| == |sites|
  {
    seq(|sites|, i requires 0 <= i < |sites| => sites[i].data)
  }

  function Renumbered<T>(data: seq<T>, sids: seq<nat>): (r: seq<Site<T>>)
    requires |data| == |sids|
    ensures |r| == |data|
  {
    seq(|data|, i requires 0 <= i < |data| => Site(sids[i], data[i]))
  }

  function AllSites<T, C>(tiles: seq<Tile<T, C>>): seq<Site<T>> {
    if tiles == [] then [] else AllSites(tiles[..|tiles| - 1]) + tiles[|tiles| - 1].sites
  }

  /** The curves of the tiles that have them. */
  function AllCurves<T, C>(tiles: seq<Tile<T, C>>): seq<C> {
    if tiles == [] then []
    else
      var n := |tiles| - 1;
      AllCurves(tiles[..n]) + if tiles[n].curves.Some? then tiles[n].curves.value else []
  }

  function Collected<T, C>(tiles: seq<Tile<T, C>>, idxs: seq<nat>): Option<Saved<T, C>>
    requires tiles != [] && IsArgSort(AllSids(|AllSites(tiles)|, |tiles|), idxs)
  {
    var n, curves := |AllSites(tiles)|, AllCurves(tiles);
    InversePermutation(n, |tiles|, idxs);
    var sites := Pick(Renumbered(Data(AllSites(tiles)), AllSids(n, |tiles|)), idxs);
    if forall t :: 0 <= t < |tiles| ==> tiles[t].curves.None? then Some(Saved(sites, None))
    else if |curves| < n then None
    else Some(Saved(sites, Some(Pick(curves, idxs))))
  }

  /** `collect`: no job at all, or fewer curves than sites, is an exception. */
  method Collect<T, C>(tiles: seq<Tile<T, C>>, argsort: seq<nat> -> seq<nat>) returns (saved: Option<Saved<T, C>>)
    requires Sorts(argsort)
    ensures tiles == [] ==> saved == None
    ensures tiles != [] ==> saved == Collected(tiles, argsort(AllSids(|AllSites(tiles)|, |tiles|)))
  {
    hide AllSids, IsArgSort, Pick;
    var sitecol: seq<Site<T>>, curves: seq<C> := [], [];
    var nsites, some := 0, false;
    for t := 0 to |tiles|
      invariant sitecol == AllSites(tiles[..t]) && curves == AllCurves(tiles[..t]) && nsites == |sitecol|
      invariant !some <==> forall k :: 0 <= k < t ==> tiles[k].curves.None?
    {
      assert tiles[..t + 1][..t] == tiles[..t];
      nsites := nsites + |tiles[t].sites|;
      sitecol := sitecol + tiles[t].sites;
      if tiles[t].curves.Some? {
        curves := curves + tiles[t].curves.value;
        some := true;
      }
    }
    assert tiles[..|tiles|] == tiles;
    if tiles == [] {
      return None;
    }
    var sids := AllSids(nsites, |tiles|);
    var idxs := argsort(sids);
    assert IsArgSort(sids, idxs);
    InversePermutation(nsites, |tiles|, idxs);
    var sites := Pick(Renumbered(Data(sitecol), sids), idxs);
    if !some {
      return Some(Saved(sites, None));
    }
    // numpy refuses an index that is out of the array
    if exists i :: 0 <= i < |idxs| && idxs[i] >= |curves| {
      IndexTooLarge(idxs, nsites, |curves|, |tiles|);
      return None;
    }
    AllIndexed(idxs, nsites, |curves|, |tiles|);
    return Some(Saved(sites, Some(Pick(curves, idxs))));
  }

  lemma {:induction false} IndexTooLarge(idxs: seq<nat>, n: nat, c: nat, m: nat)
    requires m > 0 && IsArgSort(AllSids(n, m), idxs)
    requires exists i :: 0 <= i < |idxs| && idxs[i] >= c
    ensures c < n
  {
    InversePermutation(n, m, idxs);
  }

  lemma {:induction false} AllIndexed(idxs: seq<nat>, n: nat, c: nat, m: nat)
    requires m > 0 && IsArgSort(AllSids(n, m), idxs)
    requires forall i :: 0 <= i < |idxs| ==> idxs[i] < c
    ensures c >= n
  {
    InversePermutation(n, m, idxs);
    if n > 0 {
      assert Arange(n)[n - 1] in multiset(idxs);
    }
  }

  /** The tiles of a complete calculation: tile t has the sites whose number is t modulo m. */
  function Tiling<T, C>(sites: seq<Site<T>>, curves: seq<C>, m: nat, k: nat): (tiles: seq<Tile<T, C>>)
    requires m > 0
    ensures |tiles| == k
  {
    if k == 0 then []
    else Tiling(sites, curves, m, k - 1) + [Tile(ModSlice(sites, m, k - 1), Some(ModSlice(curves, m, k - 1)))]
  }

  lemma {:induction false} TilingConcat<T, C>(sites: seq<Site<T>>, curves: seq<C>, m: nat, k: nat)
    requires m > 0
    ensures AllSites(Tiling(sites, curves, m, k)) == Concat(FirstSlices(sites, m, k))
    ensures AllCurves(Tiling(sites, curves, m, k)) == Concat(FirstSlices(curves, m, k))
    ensures forall t :: 0 <= t < k ==> Tiling(sites, curves, m, k)[t].curves.Some?
  {
    hide Concat, FirstSlices, ModSlice;
    if k == 0 {
      NoSlices(sites, m);
      NoSlices(curves, m);
    } else {
      TilingConcat(sites, curves, m, k - 1);
      ConcatFirst(sites, m, k);
      ConcatFirst(curves, m, k);
    }
  }

  /** Collecting the tiles of a calculation gives back its sites and its curves, in order. */
  lemma {:induction false} CollectInvertsTiling<T, C>(sites: seq<Site<T>>, curves: seq<C>, m: nat, idxs: seq<nat>)
    requires m > 0 && |curves| == |sites| && forall i :: 0 <= i < |sites| ==> sites[i].sid == i
    requires IsArgSort(AllSids(|sites|, m), idxs)
    ensures |AllSites(Tiling(sites, curves, m, m))| == |sites|
    ensures Collected(Tiling(sites, curves, m, m), idxs) == Some(Saved(sites, Some(curves)))
  {
    hide Concat, FirstSlices, Tiling, AllSids, AllSites, AllCurves, IsArgSort;
    TilingConcat(sites, curves, m, m);
    CollectInvertsSlicing(sites, m, idxs);
    CollectInvertsSlicing(curves, m, idxs);
    InversePermutation(|sites|, m, idxs);
    var all := Concat(FirstSlices(sites, m, m));
    var rows := Pick(Renumbered(Data(all), AllSids(|sites|, m)), idxs);
    forall i | 0 <= i < |sites| ensures rows[i] == sites[i] {
      assert Pick(all, idxs)[i] == all[idxs[i]];
    }
    assert rows == sites;
    assert Tiling(sites, curves, m, m)[0].curves.Some?;
  }

  // ----- where the rows of arbitrary tiles go

  lemma {:induction false} TileSidsAre(n: nat, m: nat, t: nat, q: nat, r: nat)
    requires t < m && r < m && n == q * m + r
    ensures |TileSids(n, m, t)| == q + if t < r then 1 else 0
    ensures forall i :: 0 <= i < |TileSids(n, m, t)| ==> TileSids(n, m, t)[i] == i * m + t
  {
    hide TileSids;
    if n == 0 {
      Remainder(n, m, q, r);
      NoSids(m, t);
    } else {
      var q', r' := Before(n, m, q, r);
      TileSidsAre(n - 1, m, t, q', r');
      TileSidsStep(n - 1, m, t);
    }
  }

  lemma {:induction false} Before(n: nat, m: nat, q: nat, r: nat) returns (q': nat, r': nat)
    requires r < m && n == q * m + r && n > 0
    ensures r' < m && n - 1 == q' * m + r' && (n - 1) % m == r'
    ensures if r > 0 then q' == q && r' == r - 1 else q' == q - 1 && r' == m - 1
  {
    assert q * m == (q - 1) * m + m;
    if r > 0 {
      q', r' := q, r - 1;
    } else {
      q', r' := q - 1, m - 1;
    }
    Remainder(n - 1, m, q', r');
  }

  lemma {:induction false} NoSids(m: nat, t: nat)
    requires m > 0
    ensures TileSids(0, m, t) == []
  {
  }

  lemma {:induction false} Parts(s: nat, m: nat) returns (q: nat, r: nat)
    requires m > 0
    ensures q == s / m && r == s % m && r < m && s == q * m + r
  {
    q, r := s / m, s % m;
  }

  lemma {:induction false} SiteAt(n: nat, m: nat, q: nat, t: nat)
    requires t < m && q * m + t < n
    ensures q < |TileSids(n, m, t)| && TileSids(n, m, t)[q] == q * m + t
  {
    hide TileSids;
    var q', r' := Parts(n, m);
    TileSidsAre(n, m, t, q', r');
    QuotientOrder(q, t, q', r', m);
  }

  lemma {:induction false} FirstSidsAt(n: nat, m: nat, k: nat, t: nat, q: nat)
    requires m > 0 && t < k && q < |TileSids(n, m, t)|
    ensures |FirstSids(n, m, t)| + q < |FirstSids(n, m, k)|
    ensures FirstSids(n, m, k)[|FirstSids(n, m, t)| + q] == TileSids(n, m, t)[q]
  {
    hide Concat, FirstSlices, ModSlice;
    ConcatFirst<nat>(Arange(n), m, k);
    if t < k - 1 {
      FirstSidsAt(n, m, k - 1, t, q);
    }
  }

  lemma {:induction false} AllSitesAt<T, C>(tiles: seq<Tile<T, C>>, t: nat, q: nat)
    requires t < |tiles| && q < |tiles[t].sites|
    ensures |AllSites(tiles[..t])| + q < |AllSites(tiles)|
    ensures AllSites(tiles)[|AllSites(tiles[..t])| + q] == tiles[t].sites[q]
    decreases |tiles|
  {
    var n := |tiles| - 1;
    if t < n {
      AllSitesAt(tiles[..n], t, q);
      assert tiles[..n][..t] == tiles[..t];
    }
  }

  /** The tiles have the sizes of a modular tiling of n sites. */
  ghost predicate Sized<T, C>(tiles: seq<Tile<T, C>>, n: nat) {
    tiles != [] && forall t :: 0 <= t < |tiles| ==> |tiles[t].sites| == |TileSids(n, |tiles|, t)|
  }

  lemma {:induction false} OffsetsAgree<T, C>(tiles: seq<Tile<T, C>>, n: nat, t: nat)
    requires Sized(tiles, n) && t <= |tiles|
    ensures |AllSites(tiles[..t])| == |FirstSids(n, |tiles|, t)|
  {
    hide Concat, FirstSlices, ModSlice;
    if t == 0 {
      NoSlices<nat>(Arange(n), |tiles|);
    } else {
      OffsetsAgree(tiles, n, t - 1);
      ConcatFirst<nat>(Arange(n), |tiles|, t);
      assert tiles[..t][..t - 1] == tiles[..t - 1];
    }
  }

  lemma {:induction false} PlaceOfSite<T, C>(tiles: seq<Tile<T, C>>, idxs: seq<nat>, s: nat, t: nat, q: nat)
    requires tiles != [] && t < |tiles| && s < |AllSites(tiles)| && Sized(tiles, |AllSites(tiles)|)
    requires IsArgSort(AllSids(|AllSites(tiles)|, |tiles|), idxs)
    requires q < |tiles[t].sites| && TileSids(|AllSites(tiles)|, |tiles|, t)[q] == s
    ensures s < |idxs| && idxs[s] == |AllSites(tiles[..t])| + q < |AllSites(tiles)|
      && AllSites(tiles)[idxs[s]] == tiles[t].sites[q]
  {
    hide TileSids, FirstSids, AllSites, IsArgSort, Sized;
    var n, m := |AllSites(tiles)|, |tiles|;
    SizeOfTile(tiles, n, t);
    FirstSidsAt(n, m, m, t, q);
    AllSitesAt(tiles, t, q);
    OffsetsAgree(tiles, n, t);
    UniquePosition(n, m, idxs, |FirstSids(n, m, t)| + q);
  }

  /** One curve for each site: either no tile has curves or all have as many as sites. */
  ghost predicate CurvePerSite<T, C>(tiles: seq<Tile<T, C>>) {
    || (forall t :: 0 <= t < |tiles| ==> tiles[t].curves.None?)
    || (forall t :: 0 <= t < |tiles| ==> tiles[t].curves.Some? && |tiles[t].curves.value| == |tiles[t].sites|)
  }

  lemma {:induction false} AllCurvesAt<T, C>(tiles: seq<Tile<T, C>>, t: nat, q: nat)
    requires forall k :: 0 <= k < |tiles| ==> tiles[k].curves.Some? && |tiles[k].curves.value| == |tiles[k].sites|
    requires t < |tiles| && q < |tiles[t].sites|
    ensures |AllCurves(tiles)| == |AllSites(tiles)| && |AllSites(tiles[..t])| + q < |AllCurves(tiles)|
    ensures AllCurves(tiles)[|AllSites(tiles[..t])| + q] == tiles[t].curves.value[q]
    decreases |tiles|
  {
    var n := |tiles| - 1;
    CurvesCount(tiles[..n]);
    if t < n {
      AllCurvesAt(tiles[..n], t, q);
      assert tiles[..n][..t] == tiles[..t];
    }
  }

  lemma {:induction false} CurvesCount<T, C>(tiles: seq<Tile<T, C>>)
    requires forall k :: 0 <= k < |tiles| ==> tiles[k].curves.Some? && |tiles[k].curves.value| == |tiles[k].sites|
    ensures |AllCurves(tiles)| == |AllSites(tiles)|
  {
    if tiles != [] {
      CurvesCount(tiles[..|tiles| - 1]);
    }
  }

  lemma {:induction false} SizeOfTile<T, C>(tiles: seq<Tile<T, C>>, n: nat, t: nat)
    requires Sized(tiles, n) && t < |tiles|
    ensures |tiles[t].sites| == |TileSids(n, |tiles|, t)|
  {
  }

  /** Row q * m + t of what is saved is row q of tile t, for the sites and for the curves. */
  lemma {:induction false} RowOfTile<T, C>(tiles: seq<Tile<T, C>>, idxs: seq<nat>, q: nat, t: nat, s: nat)
    requires t < |tiles| && s == q * |tiles| + t && s < |AllSites(tiles)| && Sized(tiles, |AllSites(tiles)|)
    requires IsArgSort(AllSids(|AllSites(tiles)|, |tiles|), idxs) && CurvePerSite(tiles)
    ensures q < |tiles[t].sites|
    ensures var saved := Collected(tiles, idxs);
      && saved.Some?
      && s < |saved.value.sites| && saved.value.sites[s] == Site(s, tiles[t].sites[q].data)
      && (saved.value.curves.Some? <==> tiles[t].curves.Some?)
      && (tiles[t].curves.Some? ==>
           && q < |tiles[t].curves.value| && s < |saved.value.curves.value|
           && saved.value.curves.value[s] == tiles[t].curves.value[q])
  {
    hide TileSids, FirstSids, AllSites, AllCurves, Collected, IsArgSort, Sized;
    var n, m := |AllSites(tiles)|, |tiles|;
    SiteAt(n, m, q, t);
    SizeOfTile(tiles, n, t);
    PlaceOfSite(tiles, idxs, s, t, q);
    SavedRow(tiles, idxs, s);
    if tiles[t].curves.Some? {
      AllCurvesAt(tiles, t, q);
      SavedCurve(tiles, idxs, s);
    } else {
      SavedWithout(tiles, idxs);
    }
  }

  lemma {:induction false} SavedRow<T, C>(tiles: seq<Tile<T, C>>, idxs: seq<nat>, s: nat)
    requires tiles != [] && s < |AllSites(tiles)|
    requires IsArgSort(AllSids(|AllSites(tiles)|, |tiles|), idxs)
    ensures |idxs| == |AllSites(tiles)| && idxs[s] < |idxs|
    ensures var saved := Collected(tiles, idxs);
      saved.Some? ==>
        |saved.value.sites| == |AllSites(tiles)| && saved.value.sites[s] == Site(s, AllSites(tiles)[idxs[s]].data)
  {
    hide AllSids, AllSites, AllCurves, IsArgSort;
    InversePermutation(|AllSites(tiles)|, |tiles|, idxs);
  }

  lemma {:induction false} SavedCurve<T, C>(tiles: seq<Tile<T, C>>, idxs: seq<nat>, s: nat)
    requires tiles != [] && s < |AllSites(tiles)| == |AllCurves(tiles)|
    requires IsArgSort(AllSids(|AllSites(tiles)|, |tiles|), idxs)
    requires exists t :: 0 <= t < |tiles| && tiles[t].curves.Some?
    ensures |idxs| == |AllSites(tiles)| && idxs[s] < |idxs|
    ensures var saved := Collected(tiles, idxs);
      && saved.Some? && saved.value.curves.Some? && s < |saved.value.curves.value|
      && saved.value.curves.value[s] == AllCurves(tiles)[idxs[s]]
  {
    hide AllSids, AllSites, AllCurves, IsArgSort;
    InversePermutation(|AllSites(tiles)|, |tiles|, idxs);
  }

  lemma {:induction false} SavedWithout<T, C>(tiles: seq<Tile<T, C>>, idxs: seq<nat>)
    requires tiles != [] && IsArgSort(AllSids(|AllSites(tiles)|, |tiles|), idxs)
    requires forall t :: 0 <= t < |tiles| ==> tiles[t].curves.None?
    ensures Collected(tiles, idxs).Some? && Collected(tiles, idxs).value.curves.None?
  {
    hide AllSids, AllSites, AllCurves, IsArgSort;
  }

  lemma {:induction false} UniquePosition(n: nat, m: nat, idxs: seq<nat>, p: nat)
    requires m > 0 && IsArgSort(AllSids(n, m), idxs) && p < |AllSids(n, m)|
    ensures AllSids(n, m)[p] < |idxs| && idxs[AllSids(n, m)[p]] == p
  {
    hide AllSids;
    InversePermutation(n, m, idxs);
    assert Arange(n)[p] in multiset(idxs);
    var i :| 0 <= i < |idxs| && idxs[i] == p;
  }

  lemma {:induction false} Excess<T, C>(tiles: seq<Tile<T, C>>, n: nat, k: nat, t: nat)
    requires k <= |tiles| && t < |tiles|
    requires forall j :: 0 <= j < |tiles| ==> |tiles[j].sites| >= |TileSids(n, |tiles|, j)|
    ensures |AllSites(tiles[..k])| >= |FirstSids(n, |tiles|, k)| +
      if t < k then |tiles[t].sites| - |TileSids(n, |tiles|, t)| else 0
  {
    hide Concat, FirstSlices, ModSlice;
    if k == 0 {
      NoSlices<nat>(Arange(n), |tiles|);
    } else {
      Excess(tiles, n, k - 1, t);
      ConcatFirst<nat>(Arange(n), |tiles|, k);
      assert tiles[..k][..k - 1] == tiles[..k - 1];
    }
  }

  /** Row s of what is saved is row s div m of tile s mod m. */
  ghost predicate RowInPlace<T, C>(tiles: seq<Tile<T, C>>, saved: Saved<T, C>, s: nat)
    requires tiles != []
  {
    var q, t := s / |tiles|, s % |tiles|;
    && q < |tiles[t].sites|
    && s < |saved.sites| && saved.sites[s] == Site(s, tiles[t].sites[q].data)
    && (saved.curves.Some? ==>
          && tiles[t].curves.Some? && q < |tiles[t].curves.value|
          && s < |saved.curves.value| && saved.curves.value[s] == tiles[t].curves.value[q])
  }

  /** Each row of the collected ones is the row of its tile if and only if the tiles have the
      sizes of a modular tiling. */
  lemma {:induction false} RowsIff<T, C>(tiles: seq<Tile<T, C>>, idxs: seq<nat>)
    requires tiles != [] && CurvePerSite(tiles)
    requires IsArgSort(AllSids(|AllSites(tiles)|, |tiles|), idxs)
    ensures Collected(tiles, idxs).Some?
    ensures (forall s: nat :: s < |AllSites(tiles)| ==> RowInPlace(tiles, Collected(tiles, idxs).value, s)) <==>
            Sized(tiles, |AllSites(tiles)|)
  {
    hide TileSids, FirstSids, AllSites, AllCurves, IsArgSort, Collected, Sized;
    var n, m := |AllSites(tiles)|, |tiles|;
    CollectedSome(tiles, idxs);
    if Sized(tiles, n) {
      forall s: nat | s < n ensures RowInPlace(tiles, Collected(tiles, idxs).value, s) {
        var q, t := Parts(s, m);
        RowOfTile(tiles, idxs, q, t, s);
      }
    }
    if forall s: nat :: s < n ==> RowInPlace(tiles, Collected(tiles, idxs).value, s) {
      forall s: nat | s < n ensures s / m < |tiles[s % m].sites| {
        assert RowInPlace(tiles, Collected(tiles, idxs).value, s);
      }
      SizesForced(tiles);
    }
  }

  lemma {:induction false} CollectedSome<T, C>(tiles: seq<Tile<T, C>>, idxs: seq<nat>)
    requires tiles != [] && CurvePerSite(tiles)
    requires IsArgSort(AllSids(|AllSites(tiles)|, |tiles|), idxs)
    ensures Collected(tiles, idxs).Some?
  {
    hide AllSids, AllSites, AllCurves, IsArgSort;
    if !(forall t :: 0 <= t < |tiles| ==> tiles[t].curves.None?) {
      CurvesCount(tiles);
    }
  }

  lemma {:induction false} SizesForced<T, C>(tiles: seq<Tile<T, C>>)
    requires tiles != []
    requires forall s: nat :: s < |AllSites(tiles)| ==> s / |tiles| < |tiles[s % |tiles|].sites|
    ensures Sized(tiles, |AllSites(tiles)|)
  {
    hide TileSids, FirstSids, AllSites;
    var n, m := |AllSites(tiles)|, |tiles|;
    forall t | 0 <= t < m ensures |tiles[t].sites| >= |TileSids(n, m, t)| {
      EnoughRows(n, m, t, tiles);
    }
    AllSidsPermute(n, m);
    RangeLength(AllSids(n, m), n);
    assert tiles[..m] == tiles;
    forall t | 0 <= t < m ensures |tiles[t].sites| == |TileSids(n, m, t)| {
      Excess(tiles, n, m, t);
    }
  }

  /** Two tiles with one and two sites are collected in the wrong order: the third row has no
      place in the first tile. */
  lemma {:induction false} SizesWitness<T, C>(x: Site<T>, y: Site<T>, z: Site<T>)
    ensures var tiles := [Tile<T, C>.Tile([x], None), Tile([y, z], None)];
      |AllSites(tiles)| == 3 && 2 / |tiles| >= |tiles[2 % |tiles|].sites|
  {
    var tiles := [Tile<T, C>.Tile([x], None), Tile([y, z], None)];
    assert tiles[..1] == [tiles[0]] && [tiles[0]][..0] == [];
    assert AllSites([tiles[0]]) == AllSites<T, C>([]) + [x];
  }

  lemma {:induction false} EnoughRows<T, C>(n: nat, m: nat, t: nat, tiles: seq<Tile<T, C>>)
    requires t < m == |tiles|
    requires forall s: nat :: s < n ==> s / m < |tiles[s % m].sites|
    ensures |tiles[t].sites| >= |TileSids(n, m, t)|
  {
    hide TileSids;
    var c := |TileSids(n, m, t)|;
    if c > 0 {
      assert n == (n / m) * m + n % m;
      TileSidsAre(n, m, t, n / m, n % m);
      ModSlicePick(Arange(n), n, m, t);
      var s := TileSids(n, m, t)[c - 1];
      assert s < n;
      Remainder(s, m, c - 1, t);
    }
  }
}

/** The getters of the rates. */
module Getters {
  // One for each chunk, reading the slices of all the files.

  import opened Basics
  import opened ModSlices
  import opened Aggregate
  import opened RateStore

  /** The rates of a site, by level and group. */
  type Grid = seq<seq<real>>

  ghost predicate IsGrid(a: Grid, L: nat, G: nat) {
    |a| == L && forall l :: 0 <= l < L ==> |a[l]| == G
  }

  function ZeroGrid(L: nat, G: nat): (a: Grid)
    ensures IsGrid(a, L, G) && forall l, g :: 0 <= l < L && 0 <= g < G ==> a[l][g] == 0.0
  {
    seq(L, l => seq(G, g => 0.0))
  }

  predicate Fit(rows: seq<Rate>, L: nat, G: nat) {
    forall i :: 0 <= i < |rows| ==> rows[i].key.lid < L && rows[i].key.gid < G
  }

  /** `array[df.lid, df.gid] = df.rate` */
  function Put(a: Grid, rows: seq<Rate>, L: nat, G: nat): (b: Grid)
    requires IsGrid(a, L, G) && Fit(rows, L, G)
    ensures IsGrid(b, L, G)
  {
    if rows == [] then a
    else
      var n := |rows| - 1;
      var b := Put(a, rows[..n], L, G);
      var k := rows[n].key;
      b[k.lid := b[k.lid][k.gid := rows[n].rate]]
  }

  function OfSid(rows: seq<Rate>, sid: nat): seq<Rate> {
    if rows == [] then []
    else
      var n := |rows| - 1;
      if rows[n].key.sid == sid then OfSid(rows[..n], sid) + [rows[n]] else OfSid(rows[..n], sid)
  }

  function Sids(rows: seq<Rate>): (sids: seq<nat>)
    ensures |sids| == |rows|
  {
    seq(|rows|, i requires 0 <= i < |rows| => rows[i].key.sid)
  }

  /** The last rate stored under a key. */
  function Last(rows: seq<Rate>, key: Key, default: real): real {
    if rows == [] then default
    else if rows[|rows| - 1].key == key then rows[|rows| - 1].rate
    else Last(rows[..|rows| - 1], key, default)
  }

  // ----- loading

  datatype Loaded = Loaded(ok: bool, sites: map<nat, Grid>)

  ghost predicate Grids(m: map<nat, Grid>, L: nat, G: nat) {
    forall s :: s in m ==> IsGrid(m[s], L, G)
  }

  function Base(m: map<nat, Grid>, sid: nat, L: nat, G: nat): (a: Grid)
    requires Grids(m, L, G)
    ensures IsGrid(a, L, G)
  {
    if sid in m then m[sid] else ZeroGrid(L, G)
  }

  function LoadSids(m: map<nat, Grid>, sids: seq<nat>, rows: seq<Rate>, L: nat, G: nat): (r: Loaded)
    requires Grids(m, L, G)
    ensures Grids(r.sites, L, G)
    decreases |sids|
  {
    if sids == [] then Loaded(true, m)
    else
      var sid, a := sids[0], Base(m, sids[0], L, G);
      if Fit(OfSid(rows, sid), L, G) then LoadSids(m[sid := Put(a, OfSid(rows, sid), L, G)], sids[1..], rows, L, G)
      else Loaded(false, m[sid := a])
  }

  function LoadRows(m: map<nat, Grid>, rows: seq<Rate>, L: nat, G: nat): (r: Loaded)
    requires Grids(m, L, G)
    ensures Grids(r.sites, L, G)
  {
    LoadSids(m, Unique(Sids(rows)), rows, L, G)
  }

  ghost predicate InRange(slices: seq<ChunkSlice>, rows: seq<Rate>) {
    forall k :: 0 <= k < |slices| ==> slices[k].start <= slices[k].stop <= |rows|
  }

  function LoadSlices(
    m: map<nat, Grid>, slices: seq<ChunkSlice>, rows: seq<Rate>, idx: nat, L: nat, G: nat): (r: Loaded)
    requires Grids(m, L, G) && InRange(slices, rows)
    ensures Grids(r.sites, L, G)
    decreases |slices|
  {
    if slices == [] then Loaded(true, m)
    else if slices[0].idx != idx then LoadSlices(m, slices[1..], rows, idx, L, G)
    else
      var r := LoadRows(m, rows[slices[0].start..slices[0].stop], L, G);
      if r.ok then LoadSlices(r.sites, slices[1..], rows, idx, L, G) else r
  }

  ghost predicate Readable(tables: seq<Table>) {
    forall k :: 0 <= k < |tables| ==> InRange(tables[k].slices, tables[k].rows)
  }

  function LoadFiles(m: map<nat, Grid>, tables: seq<Table>, idx: nat, L: nat, G: nat): (r: Loaded)
    requires Grids(m, L, G) && Readable(tables)
    ensures Grids(r.sites, L, G)
    decreases |tables|
  {
    if tables == [] then Loaded(true, m)
    else if !tables[0].created then Loaded(false, m)
    else
      var r := LoadSlices(m, tables[0].slices, tables[0].rows, idx, L, G);
      if r.ok then LoadFiles(r.sites, tables[1..], idx, L, G) else r
  }

  function Tables(files: seq<RatesFile>): (ts: seq<Table>)
    requires forall f :: f in files ==> f.Valid()
    reads files
    ensures |ts| == |files| && forall i :: 0 <= i < |files| ==> ts[i] == files[i].Contents()
  {
    if files == [] then [] else [files[0].Contents()] + Tables(files[1..])
  }

  /** The levels of an intensity measure, and the weights that the realizations have for it. */
  datatype Measure = Measure(lo: nat, hi: nat, weights: seq<real>)

  /** One weight for each realization, or one for each realization and measure; or one for each
      group, enough for the fast mean. */
  datatype Weights = Common(weights: seq<real>) | ByMeasure(measures: seq<Measure>) | ByGroup(gweights: seq<real>)

  /** The realizations of each group; or just one zero for each group, which saves the transfer
      of the lists when there is no need of them. */
  datatype TrtRlzs = Lists(rlzs: seq<seq<nat>>) | Zeros(n: nat) {
    /** The number of groups. */
    function Size(): nat {
      if Lists? then |rlzs| else n
    }

    /** Without lists there is nothing to loop on, unless there are no groups at all. */
    predicate Loopable() {
      Lists? || n == 0
    }

    function Groups(): (r: seq<seq<nat>>)
      requires Loopable()
      ensures |r| == Size()
    {
      if Lists? then rlzs else []
    }
  }

  class MapGetter {
    const files: seq<RatesFile>
    const idx: nat
    const trtRlzs: TrtRlzs
    const L: nat
    const R: nat
    const weights: Weights
    var sites: map<nat, Grid>

    constructor (files: seq<RatesFile>, idx: nat, trtRlzs: TrtRlzs, L: nat, R: nat, weights: Weights)
      ensures this.files == files && this.idx == idx && this.trtRlzs == trtRlzs && this.L == L && this.R == R
      ensures this.weights == weights && sites == map[]
    {
      this.files, this.idx, this.trtRlzs, this.L, this.R, this.weights := files, idx, trtRlzs, L, R, weights;
      sites := map[];
    }

    function G(): nat {
      trtRlzs.Size()
    }

    /** `init`: read the slices of this chunk, unless they have been read already. A file
        without rates or an index out of the grid is an exception. */
    method Init() returns (ok: bool)
      requires Grids(sites, L, G())
      requires forall f :: f in files ==> f.Valid()
      requires Readable(Tables(files))
      modifies `sites
      ensures Loaded(ok, sites) ==
        if old(sites) != map[] then Loaded(true, old(sites)) else LoadFiles(map[], Tables(files), idx, L, G())
    {
      if sites != map[] {
        return true;
      }
      ghost var all := Tables(files);
      for i := 0 to |files|
        invariant Grids(sites, L, G())
        invariant LoadFiles(map[], all, idx, L, G()) == LoadFiles(sites, all[i..], idx, L, G())
      {
        var table := files[i].Contents();
        assert all[i] == table && all[i..][1..] == all[i + 1..];
        if !table.created {
          return false;
        }
        ok := ReadSlices(table);
        if !ok {
          return;
        }
      }
      ok := true;
    }

    method ReadSlices(table: Table) returns (ok: bool)
      requires Grids(sites, L, G()) && InRange(table.slices, table.rows)
      modifies `sites
      ensures Loaded(ok, sites) == LoadSlices(old(sites), table.slices, table.rows, idx, L, G())
    {
      var slices := table.slices;
      for k := 0 to |slices|
        invariant Grids(sites, L, G())
        invariant LoadSlices(old(sites), slices, table.rows, idx, L, G()) ==
          LoadSlices(sites, slices[k..], table.rows, idx, L, G())
      {
        assert slices[k..][0] == slices[k] && slices[k..][1..] == slices[k + 1..];
        if slices[k].idx == idx {
          ok := ReadRates(table.rows[slices[k].start..slices[k].stop]);
          if !ok {
            return;
          }
        }
      }
      ok := true;
    }

    method ReadRates(rates: seq<Rate>) returns (ok: bool)
      requires Grids(sites, L, G())
      modifies `sites
      ensures Loaded(ok, sites) == LoadRows(old(sites), rates, L, G())
    {
      hide Fit, Put, OfSid, Unique, IsGrid, Sids;
      var sids := Unique(Sids(rates));
      for j := 0 to |sids|
        invariant Grids(sites, L, G())
        invariant LoadRows(old(sites), rates, L, G()) == LoadSids(sites, sids[j..], rates, L, G())
      {
        var sid, df := sids[j], OfSid(rates, sids[j]);
        assert sids[j..][0] == sid && sids[j..][1..] == sids[j + 1..];
        ghost var was := sites;
        if sid !in sites {
          sites := sites[sid := ZeroGrid(L, G())];
        }
        assert sites == was[sid := Base(was, sid, L, G())];
        if !Fit(df, L, G()) {
          return false;
        }
        sites := sites[sid := Put(sites[sid], df, L, G())];
        assert sites == was[sid := Put(Base(was, sid, L, G()), df, L, G())];
      }
      ok := true;
    }
  }

  // ----- what the loaded grids hold

  lemma {:induction false} LastAppend(a: seq<Rate>, b: seq<Rate>, key: Key, d: real)
    ensures Last(a + b, key, d) == Last(b, key, Last(a, key, d))
  {
    if b == [] {
      assert a + b == a;
    } else {
      assert (a + b)[..|a + b| - 1] == a + b[..|b| - 1];
      LastAppend(a, b[..|b| - 1], key, d);
    }
  }

  lemma {:induction false} LastAbsent(rows: seq<Rate>, key: Key, d: real)
    requires forall i :: 0 <= i < |rows| ==> rows[i].key != key
    ensures Last(rows, key, d) == d
  {
    if rows != [] {
      LastAbsent(rows[..|rows| - 1], key, d);
    }
  }

  lemma {:induction false} LastOfSid(rows: seq<Rate>, key: Key, d: real)
    ensures Last(OfSid(rows, key.sid), key, d) == Last(rows, key, d)
  {
    if rows != [] {
      LastOfSid(rows[..|rows| - 1], key, d);
    }
  }

  lemma {:induction false} LastOfPicks(rows: seq<Rate>, n: nat, key: Key, d: real)
    requires n > 0
    ensures Last(Picks(rows, n, key.sid % n), key, d) == Last(rows, key, d)
  {
    if rows != [] {
      LastOfPicks(rows[..|rows| - 1], n, key, d);
    }
  }

  lemma {:induction false} OfSidHasSid(rows: seq<Rate>, sid: nat)
    ensures forall i :: 0 <= i < |OfSid(rows, sid)| ==> OfSid(rows, sid)[i].key.sid == sid
  {
    if rows != [] {
      OfSidHasSid(rows[..|rows| - 1], sid);
    }
  }

  lemma {:induction false} FitOfSid(rows: seq<Rate>, sid: nat, L: nat, G: nat)
    ensures Fit(OfSid(rows, sid), L, G) <==>
            forall i :: 0 <= i < |rows| && rows[i].key.sid == sid ==> rows[i].key.lid < L && rows[i].key.gid < G
  {
    if rows != [] {
      var n := |rows| - 1;
      FitOfSid(rows[..n], sid, L, G);
      FitAppend(OfSid(rows[..n], sid), [rows[n]], L, G);
      assert forall i :: 0 <= i < n ==> rows[..n][i] == rows[i];
      assert Fit([rows[n]], L, G) <==> rows[n].key.lid < L && rows[n].key.gid < G by {
        assert [rows[n]][0] == rows[n];
      }
    }
  }

  lemma {:induction false} FitAppend(a: seq<Rate>, b: seq<Rate>, L: nat, G: nat)
    ensures Fit(a + b, L, G) <==> Fit(a, L, G) && Fit(b, L, G)
  {
    assert forall i :: 0 <= i < |a| ==> (a + b)[i] == a[i];
    assert forall i :: 0 <= i < |b| ==> (a + b)[|a| + i] == b[i];
  }

  lemma {:induction false} FitOfSids(rows: seq<Rate>, sids: seq<nat>, L: nat, G: nat)
    requires sids == Unique(Sids(rows))
    ensures Fit(rows, L, G) <==> forall j :: 0 <= j < |sids| ==> Fit(OfSid(rows, sids[j]), L, G)
  {
    hide OfSid;
    forall j | 0 <= j < |sids|
      ensures Fit(OfSid(rows, sids[j]), L, G) <==>
              forall i :: 0 <= i < |rows| && rows[i].key.sid == sids[j] ==> rows[i].key.lid < L && rows[i].key.gid < G
    {
      FitOfSid(rows, sids[j], L, G);
    }
    assert forall i :: 0 <= i < |rows| ==> Sids(rows)[i] == rows[i].key.sid && Sids(rows)[i] in sids;
  }

  lemma {:induction false} PutAt(a: Grid, rows: seq<Rate>, sid: nat, L: nat, G: nat, l: nat, g: nat)
    requires IsGrid(a, L, G) && Fit(rows, L, G) && l < L && g < G
    requires forall i :: 0 <= i < |rows| ==> rows[i].key.sid == sid
    ensures Put(a, rows, L, G)[l][g] == Last(rows, Key(sid, l, g), a[l][g])
  {
    if rows != [] {
      PutAt(a, rows[..|rows| - 1], sid, L, G, l, g);
    }
  }

  lemma {:induction false} LoadSidsFacts(m: map<nat, Grid>, sids: seq<nat>, rows: seq<Rate>, L: nat, G: nat)
    requires Grids(m, L, G) && Distinct(sids)
    ensures var r := LoadSids(m, sids, rows, L, G);
      && (r.ok <==> forall j :: 0 <= j < |sids| ==> Fit(OfSid(rows, sids[j]), L, G))
      && (r.ok ==> forall s :: s in r.sites <==> s in m || s in sids)
      && (r.ok ==> forall s :: s in m && s !in sids ==> r.sites[s] == m[s])
      && (r.ok ==> forall s :: s in sids && Fit(OfSid(rows, s), L, G) ==>
            r.sites[s] == Put(Base(m, s, L, G), OfSid(rows, s), L, G))
    decreases |sids|
  {
    hide Fit, OfSid, Put, Base, IsGrid;
    if sids != [] {
      var sid, a := sids[0], Base(m, sids[0], L, G);
      if Fit(OfSid(rows, sid), L, G) {
        var m' := m[sid := Put(a, OfSid(rows, sid), L, G)];
        LoadSidsFacts(m', sids[1..], rows, L, G);
        assert sids == [sid] + sids[1..];
        assert sid !in sids[1..];
        forall s | s in sids[1..] ensures Base(m', s, L, G) == Base(m, s, L, G) {
          BaseSame(m, m', s, L, G);
        }
        assert forall j :: 1 <= j < |sids| ==> sids[j] == sids[1..][j - 1];
      }
    }
  }

  lemma {:induction false} BaseSame(m: map<nat, Grid>, m': map<nat, Grid>, s: nat, L: nat, G: nat)
    requires Grids(m, L, G) && Grids(m', L, G)
    requires s in m <==> s in m'
    requires s in m ==> m[s] == m'[s]
    ensures Base(m, s, L, G) == Base(m', s, L, G)
  {
  }

  /** The sites are those of the rows, and each cell has the last rate stored for it. */
  ghost predicate Holds(m: map<nat, Grid>, rows: seq<Rate>, L: nat, G: nat) {
    && Grids(m, L, G)
    && (forall s :: s in m <==> s in Sids(rows))
    && (forall s, l, g :: s in m && 0 <= l < L && 0 <= g < G ==> m[s][l][g] == Last(rows, Key(s, l, g), 0.0))
  }

  lemma {:induction false} NothingHeld(L: nat, G: nat)
    ensures Holds(map[], [], L, G)
  {
  }

  lemma {:induction false} SidsAppend(a: seq<Rate>, b: seq<Rate>)
    ensures Sids(a + b) == Sids(a) + Sids(b)
  {
  }

  /** One cell after one more slice. */
  lemma {:induction false} CellAfter(
    m: map<nat, Grid>, before: seq<Rate>, rows: seq<Rate>, s: nat, l: nat, g: nat, L: nat, G: nat)
    requires Holds(m, before, L, G) && Fit(OfSid(rows, s), L, G) && l < L && g < G
    ensures Put(Base(m, s, L, G), OfSid(rows, s), L, G)[l][g] == Last(before + rows, Key(s, l, g), 0.0)
  {
    hide Put, OfSid, Fit, Last;
    var key := Key(s, l, g);
    OfSidHasSid(rows, s);
    PutAt(Base(m, s, L, G), OfSid(rows, s), s, L, G, l, g);
    LastOfSid(rows, key, Base(m, s, L, G)[l][g]);
    LastAppend(before, rows, key, 0.0);
    if s !in m {
      forall i | 0 <= i < |before| ensures before[i].key != key {
        assert Sids(before)[i] in Sids(before);
      }
      LastAbsent(before, key, 0.0);
    }
  }

  lemma {:induction false} CellKept(
    m: map<nat, Grid>, before: seq<Rate>, rows: seq<Rate>, s: nat, l: nat, g: nat, L: nat, G: nat)
    requires Holds(m, before, L, G) && s in m && s !in Sids(rows) && l < L && g < G
    ensures m[s][l][g] == Last(before + rows, Key(s, l, g), 0.0)
  {
    hide Last;
    var key := Key(s, l, g);
    LastAppend(before, rows, key, 0.0);
    forall i | 0 <= i < |rows| ensures rows[i].key != key {
      assert Sids(rows)[i] in Sids(rows);
    }
    LastAbsent(rows, key, m[s][l][g]);
  }

  lemma {:induction false} LoadRowsFacts(m: map<nat, Grid>, before: seq<Rate>, rows: seq<Rate>, L: nat, G: nat)
    requires Holds(m, before, L, G)
    ensures LoadRows(m, rows, L, G).ok <==> Fit(rows, L, G)
    ensures Fit(rows, L, G) ==> Holds(LoadRows(m, rows, L, G).sites, before + rows, L, G)
  {
    var sids := Unique(Sids(rows));
    LoadSidsFacts(m, sids, rows, L, G);
    FitOfSids(rows, sids, L, G);
    if Fit(rows, L, G) {
      LoadedHolds(m, before, rows, L, G);
    }
  }

  lemma {:induction false} LoadedHolds(m: map<nat, Grid>, before: seq<Rate>, rows: seq<Rate>, L: nat, G: nat)
    requires Holds(m, before, L, G) && Fit(rows, L, G)
    ensures Holds(LoadRows(m, rows, L, G).sites, before + rows, L, G)
  {
    hide Put, OfSid, Fit, Last, Base, Unique, LoadSids;
    var sids := Unique(Sids(rows));
    var m' := LoadRows(m, rows, L, G).sites;
    FitOfSids(rows, sids, L, G);
    LoadSidsFacts(m, sids, rows, L, G);
    SidsAppend(before, rows);
    SameElements(Sids(rows));
    forall s, l, g | s in m' && 0 <= l < L && 0 <= g < G ensures m'[s][l][g] == Last(before + rows, Key(s, l, g), 0.0) {
      if s in sids {
        CellAfter(m, before, rows, s, l, g, L, G);
      } else {
        CellKept(m, before, rows, s, l, g, L, G);
      }
    }
  }

  lemma {:induction false} SameElements(keys: seq<nat>)
    ensures forall s :: s in Unique(keys) <==> s in keys
  {
  }

  lemma {:induction false} ReadLast(slices: seq<ChunkSlice>, rows: seq<Rate>, idx: nat)
    requires slices != [] && InRange(slices, rows)
    ensures var s := slices[|slices| - 1];
      ReadRows(slices, rows, idx) == ReadRows(slices[..|slices| - 1], rows, idx) +
        if s.idx == idx then rows[s.start..s.stop] else []
  {
  }

  lemma {:induction false} ReadFront(slices: seq<ChunkSlice>, rows: seq<Rate>, idx: nat)
    requires slices != [] && InRange(slices, rows)
    ensures var s := slices[0];
      ReadRows(slices, rows, idx) ==
        (if s.idx == idx then rows[s.start..s.stop] else []) + ReadRows(slices[1..], rows, idx)
  {
    var m := |slices| - 1;
    if m > 0 {
      ReadFront(slices[..m], rows, idx);
      assert slices[..m][1..] == slices[1..][..m - 1];
      ReadLast(slices, rows, idx);
      ReadLast(slices[1..], rows, idx);
      hide ReadRows;
    }
  }

  lemma {:induction false} LoadSlicesFacts(
    m: map<nat, Grid>, before: seq<Rate>, slices: seq<ChunkSlice>, rows: seq<Rate>, idx: nat, L: nat, G: nat)
    requires Holds(m, before, L, G) && InRange(slices, rows)
    ensures var r, read := LoadSlices(m, slices, rows, idx, L, G), ReadRows(slices, rows, idx);
      && (r.ok <==> Fit(read, L, G))
      && (r.ok ==> Holds(r.sites, before + read, L, G))
    decreases |slices|
  {
    hide Holds, Fit, ReadRows, LoadRows, Grids;
    HoldsGrids(m, before, L, G);
    if slices == [] {
      NothingRead(rows, idx, L, G);
      assert before + [] == before;
    } else {
      var s := slices[0];
      var rest := ReadRows(slices[1..], rows, idx);
      ReadFront(slices, rows, idx);
      if s.idx != idx {
        LoadSlicesFacts(m, before, slices[1..], rows, idx, L, G);
        assert [] + rest == rest;
      } else {
        var part := rows[s.start..s.stop];
        LoadRowsFacts(m, before, part, L, G);
        FitAppend(part, rest, L, G);
        if Fit(part, L, G) {
          LoadSlicesFacts(LoadRows(m, part, L, G).sites, before + part, slices[1..], rows, idx, L, G);
          assert before + part + rest == before + (part + rest);
        }
      }
    }
  }

  lemma {:induction false} HoldsGrids(m: map<nat, Grid>, rows: seq<Rate>, L: nat, G: nat)
    requires Holds(m, rows, L, G)
    ensures Grids(m, L, G)
  {
  }

  lemma {:induction false} NothingRead(rows: seq<Rate>, idx: nat, L: nat, G: nat)
    ensures ReadRows([], rows, idx) == [] && Fit([], L, G)
  {
  }

  function ReadAll(tables: seq<Table>, idx: nat): seq<Rate>
    requires Readable(tables)
  {
    if tables == [] then [] else ReadRows(tables[0].slices, tables[0].rows, idx) + ReadAll(tables[1..], idx)
  }

  /** A getter fails exactly when a file has no rates at all or a row of the chunk is out of
      the grid; otherwise it holds what it has read. */
  lemma {:induction false} LoadFilesFacts(
    m: map<nat, Grid>, before: seq<Rate>, tables: seq<Table>, idx: nat, L: nat, G: nat)
    requires Holds(m, before, L, G) && Readable(tables)
    ensures var r, read := LoadFiles(m, tables, idx, L, G), ReadAll(tables, idx);
      && (r.ok <==> Fit(read, L, G) && forall k :: 0 <= k < |tables| ==> tables[k].created)
      && (r.ok ==> Holds(r.sites, before + read, L, G))
    decreases |tables|
  {
    hide Holds, Fit, ReadRows, LoadSlices, Grids;
    HoldsGrids(m, before, L, G);
    if tables == [] {
      NothingRead([], idx, L, G);
      assert before + [] == before;
    } else {
      var t, rest := tables[0], ReadAll(tables[1..], idx);
      var part := ReadRows(t.slices, t.rows, idx);
      LoadSlicesFacts(m, before, t.slices, t.rows, idx, L, G);
      FitAppend(part, rest, L, G);
      if t.created && Fit(part, L, G) {
        var r := LoadSlices(m, t.slices, t.rows, idx, L, G);
        LoadFilesFacts(r.sites, before + part, tables[1..], idx, L, G);
        assert before + part + rest == before + (part + rest);
        assert tables == [t] + tables[1..];
      }
    }
  }

  // ----- the round trip

  function AllRows(tables: seq<Table>): seq<Rate> {
    if tables == [] then [] else tables[0].rows + AllRows(tables[1..])
  }

  ghost predicate AllIndexed(tables: seq<Table>, n: nat)
    requires n > 0
  {
    forall k :: 0 <= k < |tables| ==> Indexed(tables[k], n)
  }

  lemma {:induction false} IndexedReadable(tables: seq<Table>, n: nat)
    requires n > 0 && AllIndexed(tables, n)
    ensures Readable(tables)
  {
    forall k | 0 <= k < |tables| ensures InRange(tables[k].slices, tables[k].rows) {
      IndexFindsChunk(tables[k], n, 0);
    }
  }

  lemma {:induction false} ReadAllIsPick(tables: seq<Table>, n: nat, idx: nat)
    requires n > 0 && AllIndexed(tables, n) && Readable(tables)
    ensures ReadAll(tables, idx) == Picks(AllRows(tables), n, idx)
  {
    hide Indexed;
    if tables != [] {
      IndexFindsChunk(tables[0], n, idx);
      ReadAllIsPick(tables[1..], n, idx);
      PicksAppend(tables[0].rows, AllRows(tables[1..]), n, idx);
    }
  }

  /** The stores that were made in each file; the first file has its columns from the start. */
  function Stores(histories: seq<seq<seq<Rate>>>, n: nat): (ts: seq<Table>)
    requires n > 0
    ensures |ts| == |histories|
  {
    if histories == [] then [] else
      var k := |histories| - 1;
      Stores(histories[..k], n) + [StoredAll(if k == 0 then EMPTY else ABSENT, histories[k], n)]
  }

  /** All the rates that were stored, file by file. */
  function AllRates(histories: seq<seq<seq<Rate>>>): seq<Rate> {
    if histories == [] then [] else AllRates(histories[..|histories| - 1]) + Concat(histories[|histories| - 1])
  }

  lemma {:induction false} AllRowsLast(tables: seq<Table>, t: Table)
    ensures AllRows(tables + [t]) == AllRows(tables) + t.rows
  {
    if tables == [] {
      assert ([] + [t])[1..] == [] && tables + [t] == [t];
    } else {
      assert (tables + [t])[1..] == tables[1..] + [t];
      AllRowsLast(tables[1..], t);
    }
  }

  lemma {:induction false} StoresFacts(histories: seq<seq<seq<Rate>>>, n: nat, c: nat)
    requires n > 0 && c < n
    ensures AllIndexed(Stores(histories, n), n)
    ensures Picks(AllRows(Stores(histories, n)), n, c) == Picks(AllRates(histories), n, c)
    ensures forall k :: 0 <= k < |histories| ==>
      (Stores(histories, n)[k].created <==> k == 0 || Concat(histories[k]) != [])
  {
    hide Indexed, Picks, StoredAll;
    if histories != [] {
      var k := |histories| - 1;
      var start := if k == 0 then EMPTY else ABSENT;
      var ts, t := Stores(histories[..k], n), StoredAll(start, histories[k], n);
      StoresFacts(histories[..k], n, c);
      NothingIndexed(n);
      RunKeepsIndex(start, histories[k], n, c);
      assert start.rows + Concat(histories[k]) == Concat(histories[k]);
      CreatedIff(start, histories[k], n);
      AllRowsLast(ts, t);
      PicksAppend(AllRows(ts), t.rows, n, c);
      PicksAppend(AllRates(histories[..k]), Concat(histories[k]), n, c);
    }
  }

  lemma {:induction false} PicksSids(rows: seq<Rate>, n: nat, c: nat, s: nat)
    requires n > 0
    ensures s in Sids(Picks(rows, n, c)) <==> s in Sids(rows) && s % n == c
  {
    if rows != [] {
      var k := |rows| - 1;
      PicksSids(rows[..k], n, c, s);
      assert rows == rows[..k] + [rows[k]];
      SidsAppend(rows[..k], [rows[k]]);
      SidsAppend(Picks(rows[..k], n, c), [rows[k]]);
    }
  }

  lemma {:induction false} PicksFit(rows: seq<Rate>, n: nat, c: nat, L: nat, G: nat)
    requires n > 0 && Fit(rows, L, G)
    ensures Fit(Picks(rows, n, c), L, G)
  {
    if rows != [] {
      PicksFit(rows[..|rows| - 1], n, c, L, G);
    }
  }

  /** Whatever was stored in any number of files, the getter of chunk c has exactly the sites
      of that chunk with a stored rate, and in each cell the last rate stored for it. */
  lemma {:induction false} RoundTrip(histories: seq<seq<seq<Rate>>>, n: nat, c: nat, L: nat, G: nat)
    requires n > 0 && c < n && Fit(AllRates(histories), L, G)
    requires forall k :: 0 < k < |histories| ==> Concat(histories[k]) != []
    ensures Readable(Stores(histories, n))
    ensures var r, rates := LoadFiles(map[], Stores(histories, n), c, L, G), AllRates(histories);
      && r.ok && Grids(r.sites, L, G)
      && (forall s: nat :: s in r.sites <==> s in Sids(rates) && s % n == c)
      && (forall s, l, g :: s in r.sites && 0 <= l < L && 0 <= g < G ==>
           r.sites[s][l][g] == Last(rates, Key(s, l, g), 0.0))
  {
    hide Indexed, Picks, Fit, Last, LoadFiles, AllRates, Stores;
    var tables, rates := Stores(histories, n), AllRates(histories);
    StoresFacts(histories, n, c);
    IndexedReadable(tables, n);
    ReadAllIsPick(tables, n, c);
    NothingHeld(L, G);
    LoadFilesFacts(map[], [], tables, c, L, G);
    var read := Picks(rates, n, c);
    assert [] + read == read;
    PicksFit(rates, n, c, L, G);
    forall s: nat ensures s in Sids(read) <==> s in Sids(rates) && s % n == c {
      PicksSids(rates, n, c, s);
    }
    var r := LoadFiles(map[], tables, c, L, G);
    forall s, l, g | s in r.sites && 0 <= l < L && 0 <= g < G
      ensures r.sites[s][l][g] == Last(rates, Key(s, l, g), 0.0)
    {
      LastOfPicks(rates, n, Key(s, l, g), 0.0);
    }
  }

  /** Each stored rate is read back exactly when no cell is stored with two different rates. */
  lemma {:induction false} AllReadBackIff(rates: seq<Rate>)
    ensures (forall i :: 0 <= i < |rates| ==> Last(rates, rates[i].key, 0.0) == rates[i].rate) <==>
            (forall i, j :: 0 <= i < j < |rates| && rates[i].key == rates[j].key ==> rates[i].rate == rates[j].rate)
  {
    hide Last;
    forall i | 0 <= i < |rates|
      ensures exists j ::
        i <= j < |rates| && rates[j].key == rates[i].key && Last(rates, rates[i].key, 0.0) == rates[j].rate
    {
      LastIsSome(rates, i);
    }
  }

  /** Two rates for one cell: the first is lost. */
  lemma {:induction false} OverwrittenWitness(key: Key)
    ensures Last([Rate(key, 1.0), Rate(key, 2.0)], key, 0.0) == 2.0
  {
  }

  lemma {:induction false} LastIsSome(rates: seq<Rate>, i: nat)
    requires i < |rates|
    ensures exists j ::
      i <= j < |rates| && rates[j].key == rates[i].key && Last(rates, rates[i].key, 0.0) == rates[j].rate
  {
    var n := |rates| - 1;
    if rates[n].key != rates[i].key {
      LastIsSome(rates[..n], i);
    }
  }

  // ----- all the getters together

  /** `get_num_chunks_sites`: the size in memory, when it is known, can only raise the number. */
  function NumChunks(N: nat, maxSites: nat, required: Option<nat>): (chunks: nat)
    ensures chunks >= N || chunks >= maxSites
    ensures chunks > N || chunks > maxSites ==> required == Some(chunks)
    ensures required.Some? ==> chunks >= required.value
  {
    var maxChunks := if maxSites < N then maxSites else N;
    match required
    case None => maxChunks
    case Some(k) => if k > maxChunks then k else maxChunks
  }

  /** What the getters are given: the weights of the groups for the fast mean, otherwise those of
      the realizations. */
  function GivenWeights(fast: bool, gweights: seq<real>, weights: Weights): Weights {
    if fast then ByGroup(gweights) else weights
  }

  function GivenRlzs(fast: bool, gweights: seq<real>, rlzs: seq<seq<nat>>): TrtRlzs {
    if fast then Zeros(|gweights|) else Lists(rlzs)
  }

  /** `map_getters`: one getter for each chunk; too few chunks for a disaggregation are an error. The
      fast mean is never used for a disaggregation. */
  method MapGetters(
    files: seq<RatesFile>, N: nat, maxSites: nat, required: Option<nat>, disagg: bool, fastmean: bool, L: nat, R: nat,
    rlzs: seq<seq<nat>>, gweights: seq<real>, weights: Weights)
    returns (r: Option<seq<MapGetter>>)
    ensures r.None? <==> disagg && N > NumChunks(N, maxSites, required)
    ensures r.Some? ==> |r.value| == NumChunks(N, maxSites, required)
    ensures r.Some? ==> OnePerChunk(r.value, files, L)
    ensures r.Some? ==> forall i :: 0 <= i < |r.value| ==>
      && fresh(r.value[i]) && r.value[i].R == R
      && r.value[i].trtRlzs == GivenRlzs(fastmean && !disagg, gweights, rlzs)
      && r.value[i].weights == GivenWeights(fastmean && !disagg, gweights, weights)
  {
    var chunks := NumChunks(N, maxSites, required);
    if disagg && N > chunks {
      return None;
    }
    var theWeights, trtRlzs;
    if fastmean && !disagg {
      theWeights := ByGroup(gweights);
      trtRlzs := Zeros(|gweights|);
    } else {
      theWeights := weights;
      trtRlzs := Lists(rlzs);
    }
    var out := [];
    for chunk := 0 to chunks
      invariant OnePerChunk(out, files, L) && |out| == chunk
      invariant forall i :: 0 <= i < |out| ==>
        fresh(out[i]) && out[i].R == R && out[i].trtRlzs == trtRlzs && out[i].weights == theWeights
    {
      var getter := new MapGetter(files, chunk, trtRlzs, L, R, theWeights);
      out := out + [getter];
    }
    return Some(out);
  }

  /** The getters of the chunks in order, all with the same groups, before they read anything. */
  ghost predicate OnePerChunk(getters: seq<MapGetter>, files: seq<RatesFile>, L: nat)
    reads set i | 0 <= i < |getters| :: getters[i]
  {
    forall i :: 0 <= i < |getters| ==>
      && getters[i].files == files && getters[i].idx == i && getters[i].L == L && getters[i].sites == map[]
      && getters[i].trtRlzs == getters[0].trtRlzs
  }

  function Merged(tables: seq<Table>, k: nat, L: nat, G: nat): (m: map<nat, Grid>)
    requires Readable(tables)
    ensures Grids(m, L, G)
  {
    if k == 0 then map[] else Merged(tables, k - 1, L, G) + LoadFiles(map[], tables, k - 1, L, G).sites
  }

  /** `CurveGetter.build`: one dictionary with the rates of all the sites. */
  method BuildRates(getters: seq<MapGetter>, files: seq<RatesFile>, L: nat, G: nat)
    returns (ok: bool, rates: map<nat, Grid>)
    requires OnePerChunk(getters, files, L) && (getters != [] ==> getters[0].G() == G)
    requires forall f :: f in files ==> f.Valid()
    requires Readable(Tables(files))
    modifies set i | 0 <= i < |getters| :: getters[i]
    ensures ok <==> forall c :: 0 <= c < |getters| ==> LoadFiles(map[], Tables(files), c, L, G).ok
    ensures ok ==> rates == Merged(Tables(files), |getters|, L, G)
  {
    hide LoadFiles;
    rates := map[];
    ghost var all := Tables(files);
    for c := 0 to |getters|
      invariant forall k :: 0 <= k < |getters| ==>
        var g := getters[k]; g.files == files && g.idx == k && g.L == L && g.G() == G
      invariant forall k :: c <= k < |getters| ==> getters[k].sites == map[]
      invariant forall k :: 0 <= k < c ==> LoadFiles(map[], all, k, L, G).ok
      invariant rates == Merged(all, c, L, G)
    {
      ok := getters[c].Init();
      if !ok {
        return;
      }
      rates := rates + getters[c].sites;
    }
    ok := true;
  }

  /** The getters together return exactly what was stored: no site is lost, none is served by
      two getters, and each cell has the last rate stored for it. */
  lemma {:induction false} MergedRoundTrip(histories: seq<seq<seq<Rate>>>, n: nat, k: nat, L: nat, G: nat)
    requires k <= n && n > 0 && Fit(AllRates(histories), L, G)
    requires forall k :: 0 < k < |histories| ==> Concat(histories[k]) != []
    ensures Readable(Stores(histories, n))
    ensures var m, rates := Merged(Stores(histories, n), k, L, G), AllRates(histories);
      && (forall c :: 0 <= c < k ==> LoadFiles(map[], Stores(histories, n), c, L, G).ok)
      && (forall s: nat :: s in m <==> s in Sids(rates) && s % n < k)
      && (forall s, l, g :: s in m && 0 <= l < L && 0 <= g < G ==> m[s][l][g] == Last(rates, Key(s, l, g), 0.0))
  {
    hide Last, LoadFiles, AllRates, Stores, Fit, Readable, Sids;
    RoundTrip(histories, n, if k == 0 then 0 else k - 1, L, G);
    if k > 0 {
      MergedRoundTrip(histories, n, k - 1, L, G);
    }
  }
}

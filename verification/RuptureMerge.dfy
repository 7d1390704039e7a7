/** Merging the ruptures, the events and the geometries of several files in one, with id offsets. */
module RuptureMerge {
  import opened Basics
  import K = Kernels

  datatype Event = Event(id: nat, rupId: nat)

  datatype Rupture = Rupture(id: nat, geomId: nat, e0: nat, nOcc: nat, trtSmr: nat)

  datatype RupFile<Geom> = RupFile(events: seq<Event>, geoms: seq<Geom>, ruptures: seq<Rupture>)

  // ----- the merged tables

  function ShiftEvents(events: seq<Event>, E: nat, offset: nat): (s: seq<Event>)
    ensures |s| == |events|
  {
    seq(|events|, i requires 0 <= i < |events| => Event(events[i].id + E, events[i].rupId + offset))
  }

  function ShiftRuptures(rups: seq<Rupture>, offset: nat): (s: seq<Rupture>)
    ensures |s| == |rups|
  {
    seq(|rups|, i requires 0 <= i < |rups| => rups[i].(id := rups[i].id + offset, geomId := rups[i].geomId + offset))
  }

  /** One more file: all its ids are shifted by the number of events or of ruptures before it. */
  function Append<Geom>(m: RupFile<Geom>, f: RupFile<Geom>): RupFile<Geom> {
    RupFile(m.events + ShiftEvents(f.events, |m.events|, |m.ruptures|), m.geoms + f.geoms,
      m.ruptures + ShiftRuptures(f.ruptures, |m.ruptures|))
  }

  function Merge<Geom>(files: seq<RupFile<Geom>>): RupFile<Geom> {
    if files == [] then RupFile([], [], []) else Append(Merge(files[..|files| - 1]), files[|files| - 1])
  }

  /** The number of occurrences of the first i ruptures. */
  function Start(rups: seq<Rupture>, i: nat): nat
    requires i <= |rups|
  {
    if i == 0 then 0 else Start(rups, i - 1) + rups[i - 1].nOcc
  }

  /** `ruptures['e0'][1:] = ruptures['n_occ'].cumsum()[:-1]`: the first e0 is left alone. */
  function WithStarts(rups: seq<Rupture>): (r: seq<Rupture>)
    ensures |r| == |rups|
  {
    seq(|rups|, i requires 0 <= i < |rups| => if i == 0 then rups[0] else rups[i].(e0 := Start(rups, i)))
  }

  /** What is stored: the merged tables, with the new starts. */
  function Imported<Geom>(files: seq<RupFile<Geom>>): RupFile<Geom> {
    Merge(files).(ruptures := WithStarts(Merge(files).ruptures))
  }

  /** The number of events, of ruptures and of geometries in some files. */
  function NumEvents<Geom>(files: seq<RupFile<Geom>>): nat {
    if files == [] then 0 else |files[0].events| + NumEvents(files[1..])
  }

  function NumRuptures<Geom>(files: seq<RupFile<Geom>>): nat {
    if files == [] then 0 else |files[0].ruptures| + NumRuptures(files[1..])
  }

  function NumGeoms<Geom>(files: seq<RupFile<Geom>>): nat {
    if files == [] then 0 else |files[0].geoms| + NumGeoms(files[1..])
  }

  lemma {:induction false} NumsAppend<Geom>(a: seq<RupFile<Geom>>, b: seq<RupFile<Geom>>)
    ensures NumEvents(a + b) == NumEvents(a) + NumEvents(b)
    ensures NumRuptures(a + b) == NumRuptures(a) + NumRuptures(b)
    ensures NumGeoms(a + b) == NumGeoms(a) + NumGeoms(b)
  {
    if a == [] {
      assert a + b == b;
    } else {
      assert (a + b)[1..] == a[1..] + b;
      NumsAppend(a[1..], b);
    }
  }

  /** Nothing is lost in the merge, and nothing added. */
  lemma {:induction false} MergeSizes<Geom>(files: seq<RupFile<Geom>>)
    ensures |Merge(files).events| == NumEvents(files)
    ensures |Merge(files).ruptures| == NumRuptures(files)
    ensures |Merge(files).geoms| == NumGeoms(files)
  {
    if files != [] {
      var n := |files| - 1;
      MergeSizes(files[..n]);
      assert files == files[..n] + [files[n]] && [files[n]][1..] == [];
      NumsAppend(files[..n], [files[n]]);
    }
  }

  function TrtSmrs(rups: seq<Rupture>): (s: seq<int>)
    ensures |s| == |rups| && forall i :: 0 <= i < |rups| ==> s[i] == rups[i].trtSmr
  {
    seq(|rups|, i requires 0 <= i < |rups| => rups[i].trtSmr)
  }

  method CumSum(rups: seq<Rupture>) returns (ends: seq<nat>)
    ensures |ends| == |rups| && forall i :: 0 <= i < |rups| ==> ends[i] == Start(rups, i + 1)
  {
    ends := [];
    var total := 0;
    for i := 0 to |rups|
      invariant |ends| == i && total == Start(rups, i)
      invariant forall j :: 0 <= j < i ==> ends[j] == Start(rups, j + 1)
    {
      total := total + rups[i].nOcc;
      ends := ends + [total];
    }
  }

  ghost predicate NoGeometries<Geom>(files: seq<RupFile<Geom>>) {
    exists k :: 0 <= k < |files| && files[k].geoms == []
  }

  /** `import_ruptures_hdf5`: there is an exception exactly when some file has no geometries, or
      no file has ruptures. */
  method ImportRuptures<Geom>(files: seq<RupFile<Geom>>) returns (merged: Option<RupFile<Geom>>, runs: seq<K.Run>)
    ensures merged.None? <==> NoGeometries(files) || Merge(files).ruptures == []
    ensures merged.Some? ==> merged.value == Imported(files)
    ensures merged.Some? ==> K.RunsUpTo(TrtSmrs(merged.value.ruptures), runs, |merged.value.ruptures|)
  {
    hide K.RunsUpTo;
    var events: seq<Event>, rupgeoms: seq<Geom>, rups: seq<Rupture> := [], [], [];
    var E, offset := 0, 0;
    runs := [];
    for fileno := 0 to |files|
      invariant forall k :: 0 <= k < fileno ==> files[k].geoms != []
      invariant RupFile(events, rupgeoms, rups) == Merge(files[..fileno])
      invariant E == |events| && offset == |rups|
    {
      var f := files[fileno];
      assert files[..fileno + 1][..fileno] == files[..fileno];
      events := events + ShiftEvents(f.events, E, offset);
      E := E + |f.events|;
      if f.geoms == [] {
        return None, runs;
      }
      rupgeoms := rupgeoms + f.geoms;
      var rup := ShiftRuptures(f.ruptures, offset);
      offset := offset + |rup|;
      rups := rups + rup;
    }
    assert files[..|files|] == files;
    if rups == [] {
      return None, runs;
    }
    var ends := CumSum(rups);
    var ruptures := [rups[0]] + seq(|rups| - 1, i requires 0 <= i < |rups| - 1 => rups[i + 1].(e0 := ends[i]));
    assert ruptures == WithStarts(rups);
    runs := K.IdxStartStop(TrtSmrs(ruptures));
    merged := Some(RupFile(events, rupgeoms, ruptures));
  }

  // ----- references

  /** Ids are positions, and every reference is to something in the file. */
  ghost predicate Consistent<Geom>(f: RupFile<Geom>) {
    && (forall i :: 0 <= i < |f.events| ==> f.events[i].id == i && f.events[i].rupId < |f.ruptures|)
    && (forall r :: 0 <= r < |f.ruptures| ==> f.ruptures[r].id == r && f.ruptures[r].geomId < |f.geoms|)
    && |f.geoms| == |f.ruptures|
  }

  ghost predicate AllConsistent<Geom>(files: seq<RupFile<Geom>>) {
    forall k :: 0 <= k < |files| ==> Consistent(files[k])
  }

  lemma {:induction false} AppendConsistent<Geom>(m: RupFile<Geom>, f: RupFile<Geom>)
    requires Consistent(m) && Consistent(f)
    ensures Consistent(Append(m, f))
  {
  }

  lemma {:induction false} MergeConsistent<Geom>(files: seq<RupFile<Geom>>)
    requires AllConsistent(files)
    ensures Consistent(Merge(files))
  {
    hide Consistent, Append;
    if files == [] {
      NothingConsistent<Geom>();
    } else {
      var n := |files| - 1;
      MergeConsistent(files[..n]);
      AppendConsistent(Merge(files[..n]), files[n]);
    }
  }

  lemma {:induction false} NothingConsistent<Geom>()
    ensures Consistent<Geom>(RupFile([], [], []))
  {
  }

  /** Where the tables of a file are in the merged ones. */
  ghost predicate PlacedIn<Geom>(before: RupFile<Geom>, f: RupFile<Geom>, m: RupFile<Geom>) {
    var e, g, r := |before.events|, |before.geoms|, |before.ruptures|;
    && e + |f.events| <= |m.events| && m.events[e..e + |f.events|] == ShiftEvents(f.events, e, r)
    && g + |f.geoms| <= |m.geoms| && m.geoms[g..g + |f.geoms|] == f.geoms
    && r + |f.ruptures| <= |m.ruptures| && m.ruptures[r..r + |f.ruptures|] == ShiftRuptures(f.ruptures, r)
  }

  lemma {:induction false} PlacedLast<Geom>(before: RupFile<Geom>, f: RupFile<Geom>)
    ensures PlacedIn(before, f, Append(before, f))
  {
    hide ShiftEvents, ShiftRuptures;
  }

  lemma {:induction false} PlacedStill<Geom>(
    before: RupFile<Geom>, f: RupFile<Geom>, m: RupFile<Geom>, next: RupFile<Geom>)
    requires PlacedIn(before, f, m)
    ensures PlacedIn(before, f, Append(m, next))
  {
    hide ShiftEvents, ShiftRuptures;
  }

  lemma {:induction false} Placed<Geom>(files: seq<RupFile<Geom>>, k: nat)
    requires k < |files|
    ensures PlacedIn(Merge(files[..k]), files[k], Merge(files))
    decreases |files|
  {
    var n := |files| - 1;
    hide PlacedIn, Append;
    if k < n {
      Placed(files[..n], k);
      assert files[..n][..k] == files[..k];
      PlacedStill(Merge(files[..k]), files[k], Merge(files[..n]), files[n]);
    } else {
      PlacedLast(Merge(files[..n]), files[n]);
    }
  }

  /** The three tables at the places of one file. */
  lemma {:induction false} PlacedAt<Geom>(
    before: RupFile<Geom>, f: RupFile<Geom>, m: RupFile<Geom>, i: nat, x: nat, g: nat)
    requires PlacedIn(before, f, m) && i < |f.events| && x < |f.ruptures| && g < |f.geoms|
    ensures var e, r, h := |before.events| + i, |before.ruptures| + x, |before.geoms| + g;
      && e < |m.events| && r < |m.ruptures| && h < |m.geoms|
      && m.events[e] == Event(f.events[i].id + |before.events|, f.events[i].rupId + |before.ruptures|)
      && m.ruptures[r] == f.ruptures[x].(
           id := f.ruptures[x].id + |before.ruptures|, geomId := f.ruptures[x].geomId + |before.ruptures|)
      && m.geoms[h] == f.geoms[g]
  {
    assert m.events[|before.events| + i] == m.events[|before.events|..|before.events| + |f.events|][i];
    assert m.ruptures[|before.ruptures| + x] == m.ruptures[|before.ruptures|..|before.ruptures| + |f.ruptures|][x];
    assert m.geoms[|before.geoms| + g] == m.geoms[|before.geoms|..|before.geoms| + |f.geoms|][g];
  }

  lemma {:induction false} StartsOnly(rups: seq<Rupture>, i: nat)
    requires i < |rups|
    ensures var r, r' := rups[i], WithStarts(rups)[i];
      r'.id == r.id && r'.geomId == r.geomId && r'.nOcc == r.nOcc && r'.trtSmr == r.trtSmr
  {
  }

  /** In the imported file every event of every file still points to its own rupture and its own
      geometry: the rupture it names is that of its file, moved with all the others of the file, and
      only its numbers and its start have changed. */
  lemma {:induction false} ReferencesKept<Geom>(files: seq<RupFile<Geom>>, k: nat, i: nat)
    requires AllConsistent(files) && k < |files| && i < |files[k].events|
    ensures Consistent(Merge(files))
    ensures var m, f := Imported(files), files[k];
      var e, x, off := NumEvents(files[..k]) + i, f.events[i].rupId, NumRuptures(files[..k]);
      && e < |m.events| == NumEvents(files) && m.events[e] == Event(e, off + x)
      && off + x < |m.ruptures| == NumRuptures(files)
      && var r, r' := f.ruptures[x], m.ruptures[off + x];
         && r'.id == off + x && r'.geomId == off + r.geomId && r'.nOcc == r.nOcc && r'.trtSmr == r.trtSmr
         && r'.geomId < |m.geoms| && m.geoms[r'.geomId] == f.geoms[r.geomId]
  {
    hide Merge, NumEvents, NumRuptures, NumGeoms, WithStarts, PlacedIn;
    MergeConsistent(files);
    MergeConsistent(files[..k]);
    MergeSizes(files);
    MergeSizes(files[..k]);
    Placed(files, k);
    var f := files[k];
    assert Consistent(f);
    var x := f.events[i].rupId;
    PlacedAt(Merge(files[..k]), f, Merge(files), i, x, f.ruptures[x].geomId);
    StartsOnly(Merge(files).ruptures, NumRuptures(files[..k]) + x);
  }

  /** The geometry of a rupture is moved by the number of ruptures: when no two geometries are
      equal, the rupture finds its own exactly if the files before had as many geometries
      as ruptures. */
  lemma {:induction false} GeometryKeptIff<Geom>(files: seq<RupFile<Geom>>, k: nat, r: nat)
    requires k < |files| && r < |files[k].ruptures| && files[k].ruptures[r].geomId < |files[k].geoms|
    requires Distinct(Imported(files).geoms)
    ensures var m, f, off := Imported(files), files[k], NumRuptures(files[..k]);
      && off + r < |m.ruptures|
      && var g, g' := f.ruptures[r].geomId, m.ruptures[off + r].geomId;
         (g' < |m.geoms| && m.geoms[g'] == f.geoms[g]) <==> off == NumGeoms(files[..k])
  {
    hide Merge, NumEvents, NumRuptures, NumGeoms;
    Placed(files, k);
    MergeSizes(files[..k]);
    var before, m, f := Merge(files[..k]), Merge(files), files[k];
    assert m.ruptures[|before.ruptures| + r] == m.ruptures[|before.ruptures|..|before.ruptures| + |f.ruptures|][r];
    var g := f.ruptures[r].geomId;
    assert m.geoms[|before.geoms| + g] == m.geoms[|before.geoms|..|before.geoms| + |f.geoms|][g] == f.geoms[g];
  }

  /** A file with two geometries and one rupture, and the rupture of the next file gets the
      second of them. */
  lemma {:induction false} GeometryWitness()
    ensures var files := [RupFile([], ["a", "b"], [Rupture(0, 0, 0, 1, 0)]),
      RupFile([], ["c"], [Rupture(0, 0, 0, 1, 0)])];
      var m := Imported(files);
      |m.ruptures| == 2 && m.ruptures[1].geomId == 1 && m.geoms == ["a", "b", "c"]
  {
    var one := RupFile([], ["a", "b"], [Rupture(0, 0, 0, 1, 0)]);
    var files := [one, RupFile([], ["c"], [Rupture(0, 0, 0, 1, 0)])];
    assert files[..1] == [one] && [one][..0] == [];
    assert Merge([one]) == Append(Merge<string>([]), one);
    assert Merge<string>([]) == RupFile([], [], []);
    assert Merge([one]).geoms == ["a", "b"] && |Merge([one]).ruptures| == 1;
  }

  // ----- the events of a rupture

  /** Each rupture owns the events in [e0, e0 + n_occ), and these intervals are consecutive. */
  ghost predicate Intervals(rups: seq<Rupture>) {
    && (rups != [] ==> rups[0].e0 == 0)
    && (forall i :: 0 <= i < |rups| - 1 ==> rups[i + 1].e0 == rups[i].e0 + rups[i].nOcc)
  }

  lemma {:induction false} StartSame(a: seq<Rupture>, b: seq<Rupture>, i: nat)
    requires i <= |a| && i <= |b| && forall j :: 0 <= j < i ==> a[j].nOcc == b[j].nOcc
    ensures Start(a, i) == Start(b, i)
  {
    if i > 0 {
      StartSame(a, b, i - 1);
    }
  }

  /** The starts are the prefix sums of the occurrences, and the intervals consecutive from
      zero, exactly when the first start of the first rupture is zero. */
  lemma {:induction false} StartsIff(rups: seq<Rupture>)
    requires rups != []
    ensures Intervals(WithStarts(rups)) <==> rups[0].e0 == 0
    ensures (forall i :: 0 <= i < |rups| ==> WithStarts(rups)[i].e0 == Start(rups, i)) <==> rups[0].e0 == 0
  {
    assert WithStarts(rups)[0].e0 == rups[0].e0 && Start(rups, 0) == 0;
    forall i | 0 <= i < |rups| - 1 && rups[0].e0 == 0
      ensures WithStarts(rups)[i + 1].e0 == WithStarts(rups)[i].e0 + WithStarts(rups)[i].nOcc
    {
      assert Start(rups, i + 1) == Start(rups, i) + rups[i].nOcc;
    }
  }

  /** The i-th event is one of the occurrences of the r-th rupture. */
  ghost predicate Owns(rups: seq<Rupture>, r: nat, i: nat) {
    r < |rups| && Start(rups, r) <= i < Start(rups, r) + rups[r].nOcc
  }

  /** One rupture that starts at event 5: its start is left alone. */
  lemma {:induction false} StartsWitness()
    ensures WithStarts([Rupture(0, 0, 5, 1, 0)])[0].e0 == 5 && Start([Rupture(0, 0, 5, 1, 0)], 0) == 0
  {
  }

  /** The events are in the order of their ruptures. */
  ghost predicate Grouped<Geom>(f: RupFile<Geom>) {
    && |f.events| == Start(f.ruptures, |f.ruptures|)
    && forall r: nat, i: nat :: i < |f.events| && Owns(f.ruptures, r, i) ==> f.events[i].rupId == r
  }

  lemma {:induction false} StartMonotone(rups: seq<Rupture>, a: nat, b: nat)
    requires a <= b <= |rups|
    ensures Start(rups, a) <= Start(rups, b)
  {
    if a < b {
      StartMonotone(rups, a, b - 1);
    }
  }

  lemma {:induction false} StartAppend(a: seq<Rupture>, b: seq<Rupture>, i: nat)
    requires i <= |b|
    ensures Start(a + b, |a| + i) == Start(a, |a|) + Start(b, i)
  {
    if i == 0 {
      StartSame(a + b, a, |a|);
    } else {
      StartAppend(a, b, i - 1);
    }
  }

  /** Ownership in a concatenation. */
  lemma {:induction false} OwnsAppend(a: seq<Rupture>, b: seq<Rupture>, r: nat, i: nat)
    requires Owns(a + b, r, i)
    ensures r < |a| ==> Owns(a, r, i) && i < Start(a, |a|)
    ensures r >= |a| ==> i >= Start(a, |a|) && Owns(b, r - |a|, i - Start(a, |a|))
  {
    if r < |a| {
      StartSame(a + b, a, r);
      StartMonotone(a, r + 1, |a|);
    } else {
      StartAppend(a, b, r - |a|);
    }
  }

  lemma {:induction false} OwnsShifted(rups: seq<Rupture>, offset: nat, r: nat, i: nat)
    ensures Owns(ShiftRuptures(rups, offset), r, i) <==> Owns(rups, r, i)
  {
    if r < |rups| {
      StartSame(ShiftRuptures(rups, offset), rups, r);
    }
  }

  lemma {:induction false} AppendGrouped<Geom>(m: RupFile<Geom>, f: RupFile<Geom>)
    requires Grouped(m) && Grouped(f)
    ensures Grouped(Append(m, f))
  {
    hide Start, Owns;
    var a := Append(m, f);
    var sr := ShiftRuptures(f.ruptures, |m.ruptures|);
    StartAppend(m.ruptures, sr, |sr|);
    StartSame(sr, f.ruptures, |sr|);
    forall r: nat, i: nat | i < |a.events| && Owns(a.ruptures, r, i) ensures a.events[i].rupId == r {
      OwnsAppend(m.ruptures, sr, r, i);
      if r >= |m.ruptures| {
        OwnsShifted(f.ruptures, |m.ruptures|, r - |m.ruptures|, i - |m.events|);
      }
    }
  }

  lemma {:induction false} MergeGrouped<Geom>(files: seq<RupFile<Geom>>)
    requires forall k :: 0 <= k < |files| ==> Grouped(files[k])
    ensures Grouped(Merge(files))
  {
    hide Append;
    if files == [] {
      assert Grouped<Geom>(RupFile([], [], []));
    } else {
      var n := |files| - 1;
      MergeGrouped(files[..n]);
      AppendGrouped(Merge(files[..n]), files[n]);
    }
  }

  lemma {:induction false} Owner(rups: seq<Rupture>, n: nat, i: nat) returns (r: nat)
    requires n <= |rups| && i < Start(rups, n)
    ensures Owns(rups, r, i)
  {
    if i >= Start(rups, n - 1) {
      r := n - 1;
    } else {
      r := Owner(rups, n - 1, i);
    }
  }

  /** In the imported file the events of a rupture are exactly those from its e0, n_occ of them:
      the intervals are disjoint and cover all the events. */
  lemma {:induction false} EventsOfRupture<Geom>(files: seq<RupFile<Geom>>, i: nat, r: nat)
    requires AllConsistent(files) && forall k :: 0 <= k < |files| ==> Grouped(files[k])
    requires i < |Imported(files).events| && r < |Imported(files).ruptures| && Imported(files).ruptures[0].e0 == 0
    ensures var m := Imported(files);
      m.events[i].rupId == r <==> m.ruptures[r].e0 <= i < m.ruptures[r].e0 + m.ruptures[r].nOcc
  {
    hide Merge;
    MergeConsistent(files);
    MergeGrouped(files);
    var m := Merge(files);
    StartsIff(m.ruptures);
    var x := Owner(m.ruptures, |m.ruptures|, i);
    assert m.events[i].rupId == x;
    assert Owns(m.ruptures, r, i) ==> m.events[i].rupId == r;
  }
}

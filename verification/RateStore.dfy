/** The store of the rates. */
module RateStore {
  // Columns appended chunk by chunk, with an index of slices.

  import opened Basics
  import opened ModSlices

  datatype Key = Key(sid: nat, lid: nat, gid: nat)

  datatype Rate = Rate(key: Key, rate: real)

  datatype ChunkSlice = ChunkSlice(idx: nat, start: nat, stop: nat)

  /** What a file holds: the rows of the four columns and the table `slice_by_idx`. */
  datatype Table = Table(created: bool, rows: seq<Rate>, slices: seq<ChunkSlice>)

  const ABSENT := Table(false, [], [])

  const EMPTY := Table(true, [], [])

  // ----- chunks

  /** `rates[chunks == chunk]` */
  function Picks(rates: seq<Rate>, n: nat, c: nat): seq<Rate>
    requires n > 0
  {
    if rates == [] then []
    else
      var k := |rates| - 1;
      var p := Picks(rates[..k], n, c);
      if rates[k].key.sid % n == c then p + [rates[k]] else p
  }

  lemma {:induction false} PicksAppend(a: seq<Rate>, b: seq<Rate>, n: nat, c: nat)
    requires n > 0
    ensures Picks(a + b, n, c) == Picks(a, n, c) + Picks(b, n, c)
  {
    if b == [] {
      assert a + b == a;
    } else {
      assert (a + b)[..|a + b| - 1] == a + b[..|b| - 1];
      PicksAppend(a, b[..|b| - 1], n, c);
    }
  }

  lemma {:induction false} PicksHaveChunk(rates: seq<Rate>, n: nat, c: nat)
    requires n > 0
    ensures forall i :: 0 <= i < |Picks(rates, n, c)| ==> Picks(rates, n, c)[i].key.sid % n == c
  {
    if rates != [] {
      PicksHaveChunk(rates[..|rates| - 1], n, c);
    }
  }

  lemma {:induction false} PicksOfOneChunk(rates: seq<Rate>, n: nat, d: nat, c: nat)
    requires n > 0 && forall i :: 0 <= i < |rates| ==> rates[i].key.sid % n == d
    ensures Picks(rates, n, c) == if c == d then rates else []
  {
    if rates != [] {
      PicksOfOneChunk(rates[..|rates| - 1], n, d, c);
    }
  }

  /** `numpy.unique(rates['sid'] % n)`, up to m: the chunks that are present, in order. */
  function Chunks(rates: seq<Rate>, n: nat, m: nat): (cs: seq<nat>)
    requires n > 0
    ensures Increasing(cs) && forall c :: c in cs <==> 0 <= c < m && Picks(rates, n, c) != []
  {
    if m == 0 then []
    else
      var cs := Chunks(rates, n, m - 1);
      assert forall i :: 0 <= i < |cs| ==> cs[i] in cs;
      if Picks(rates, n, m - 1) != [] then cs + [m - 1] else cs
  }

  lemma {:induction false} ChunksPresent(rates: seq<Rate>, n: nat)
    requires n > 0
    ensures forall i :: 0 <= i < |Chunks(rates, n, n)| ==> Picks(rates, n, Chunks(rates, n, n)[i]) != []
  {
    var cs := Chunks(rates, n, n);
    assert forall i :: 0 <= i < |cs| ==> cs[i] in cs;
  }

  // ----- storing

  function StoredRows(rates: seq<Rate>, n: nat, cs: seq<nat>): seq<Rate>
    requires n > 0
  {
    if cs == [] then [] else StoredRows(rates, n, cs[..|cs| - 1]) + Picks(rates, n, cs[|cs| - 1])
  }

  function StoredSlices(rates: seq<Rate>, n: nat, cs: seq<nat>, offset: nat): seq<ChunkSlice>
    requires n > 0
  {
    if cs == [] then []
    else
      var start := offset + |StoredRows(rates, n, cs[..|cs| - 1])|;
      StoredSlices(rates, n, cs[..|cs| - 1], offset)
        + [ChunkSlice(cs[|cs| - 1], start, start + |Picks(rates, n, cs[|cs| - 1])|)]
  }

  lemma {:induction false} StoredStep(rates: seq<Rate>, n: nat, cs: seq<nat>, i: nat, offset: nat)
    requires n > 0 && i < |cs|
    ensures StoredRows(rates, n, cs[..i + 1]) == StoredRows(rates, n, cs[..i]) + Picks(rates, n, cs[i])
    ensures var start := offset + |StoredRows(rates, n, cs[..i])|;
      StoredSlices(rates, n, cs[..i + 1], offset) ==
      StoredSlices(rates, n, cs[..i], offset) + [ChunkSlice(cs[i], start, start + |Picks(rates, n, cs[i])|)]
  {
    assert cs[..i + 1][..i] == cs[..i];
  }

  function Stored(t: Table, rates: seq<Rate>, n: nat): Table
    requires n > 0
  {
    if rates == [] then t
    else
      var cs := Chunks(rates, n, n);
      Table(true, t.rows + StoredRows(rates, n, cs), t.slices + StoredSlices(rates, n, cs, |t.rows|))
  }

  function Zip(sid: seq<nat>, lid: seq<nat>, gid: seq<nat>, rate: seq<real>): (r: seq<Rate>)
    requires |sid| == |lid| == |gid| == |rate|
    ensures |r| == |sid|
  {
    seq(|sid|, i requires 0 <= i < |sid| => Rate(Key(sid[i], lid[i], gid[i]), rate[i]))
  }

  class RatesFile {
    var created: bool
    var sid: seq<nat>
    var gid: seq<nat>
    var lid: seq<nat>
    var rate: seq<real>
    var sliceByIdx: seq<ChunkSlice>

    ghost predicate Columns()
      reads `sid, `gid, `lid, `rate
    {
      |sid| == |gid| == |lid| == |rate|
    }

    ghost predicate Valid()
      reads this
    {
      Columns() && (!created ==> sid == [] && sliceByIdx == [])
    }

    function Rows(): (r: seq<Rate>)
      requires Columns()
      reads `sid, `gid, `lid, `rate
      ensures |r| == |sid|
    {
      Zip(sid, lid, gid, rate)
    }

    function Contents(): Table
      requires Valid()
      reads this
    {
      Table(created, Rows(), sliceByIdx)
    }

    constructor ()
      ensures Valid() && Contents() == ABSENT
    {
      created, sid, gid, lid, rate, sliceByIdx := false, [], [], [], [], [];
    }

    method Extend(rows: seq<Rate>)
      requires Valid() && created
      modifies `sid, `gid, `lid, `rate
      ensures Columns() && Rows() == old(Rows()) + rows
    {
      sid := sid + seq(|rows|, i requires 0 <= i < |rows| => rows[i].key.sid);
      gid := gid + seq(|rows|, i requires 0 <= i < |rows| => rows[i].key.gid);
      lid := lid + seq(|rows|, i requires 0 <= i < |rows| => rows[i].key.lid);
      rate := rate + seq(|rows|, i requires 0 <= i < |rows| => rows[i].rate);
      assert Rows() == old(Rows()) + rows;
    }

    /** `_store`: append the rates chunk by chunk, then the rows of the index. */
    method Store(rates: seq<Rate>, numChunks: nat)
      requires Valid() && numChunks > 0
      modifies this
      ensures Valid() && Contents() == Stored(old(Contents()), rates, numChunks)
    {
      hide Picks, Chunks, StoredRows, StoredSlices, Rows, Columns;
      if rates == [] {
        return;
      }
      SomeChunk(rates, numChunks);
      var idxStartStop := AppendChunks(rates, numChunks, Chunks(rates, numChunks, numChunks));
      sliceByIdx := sliceByIdx + idxStartStop;
    }

    method AppendChunks(rates: seq<Rate>, numChunks: nat, chunks: seq<nat>) returns (idxStartStop: seq<ChunkSlice>)
      requires Valid() && numChunks > 0
      modifies `created, `sid, `gid, `lid, `rate
      ensures Valid() && created == (old(created) || chunks != [])
      ensures Rows() == old(Rows()) + StoredRows(rates, numChunks, chunks)
      ensures idxStartStop == StoredSlices(rates, numChunks, chunks, old(|sid|))
    {
      hide Picks, StoredRows, StoredSlices, Rows, Columns;
      NothingStored(rates, numChunks, |sid|);
      idxStartStop := [];
      ghost var was := Rows();
      for i := 0 to |chunks|
        invariant Valid() && created == (old(created) || i > 0)
        invariant Rows() == was + StoredRows(rates, numChunks, chunks[..i])
        invariant idxStartStop == StoredSlices(rates, numChunks, chunks[..i], |was|)
      {
        StoredStep(rates, numChunks, chunks, i, |was|);
        var rows := Picks(rates, numChunks, chunks[i]);
        var offset := CreateColumns();
        idxStartStop := idxStartStop + [ChunkSlice(chunks[i], offset, offset + |rows|)];
        Extend(rows);
        assert was + StoredRows(rates, numChunks, chunks[..i]) + rows ==
          was + (StoredRows(rates, numChunks, chunks[..i]) + rows);
      }
      assert chunks[..|chunks|] == chunks;
    }

    /** Create the columns if they are not there; the offset of the next row. */
    method CreateColumns() returns (offset: nat)
      requires Valid()
      modifies `created
      ensures created && offset == |sid|
    {
      if created {
        offset := |sid|;
      } else {
        created := true;
        offset := 0;
      }
    }
  }

  lemma {:induction false} NothingStored(rates: seq<Rate>, n: nat, offset: nat)
    requires n > 0
    ensures StoredRows(rates, n, []) == [] && StoredSlices(rates, n, [], offset) == []
  {
  }

  lemma {:induction false} SomeChunk(rates: seq<Rate>, n: nat)
    requires n > 0 && rates != []
    ensures Chunks(rates, n, n) != []
  {
    var c := rates[|rates| - 1].key.sid % n;
    assert Picks(rates, n, c) != [];
    assert c in Chunks(rates, n, n);
  }

  // ----- what every run of stores keeps

  ghost predicate Tiles(slices: seq<ChunkSlice>, lo: nat, hi: nat) {
    if slices == [] then lo == hi
    else
      var s := slices[|slices| - 1];
      s.start < s.stop == hi && Tiles(slices[..|slices| - 1], lo, s.start)
  }

  ghost predicate Homogeneous(slices: seq<ChunkSlice>, rows: seq<Rate>, n: nat)
    requires n > 0
  {
    forall k, i :: 0 <= k < |slices| && slices[k].start <= i < slices[k].stop && i < |rows| ==>
      rows[i].key.sid % n == slices[k].idx
  }

  /** The slices tile the rows, none is empty, and each holds only rows of its chunk. */
  ghost predicate Indexed(t: Table, n: nat)
    requires n > 0
  {
    && Tiles(t.slices, 0, |t.rows|)
    && Homogeneous(t.slices, t.rows, n)
    && (!t.created ==> t == ABSENT)
  }

  lemma {:induction false} TilesOrder(slices: seq<ChunkSlice>, lo: nat, hi: nat)
    requires Tiles(slices, lo, hi)
    ensures lo <= hi && forall k :: 0 <= k < |slices| ==> lo <= slices[k].start < slices[k].stop <= hi
  {
    if slices != [] {
      TilesOrder(slices[..|slices| - 1], lo, slices[|slices| - 1].start);
    }
  }

  lemma {:induction false} TilesAppend(a: seq<ChunkSlice>, b: seq<ChunkSlice>, lo: nat, mid: nat, hi: nat)
    requires Tiles(a, lo, mid) && Tiles(b, mid, hi)
    ensures Tiles(a + b, lo, hi)
  {
    if b == [] {
      assert a + b == a;
    } else {
      assert (a + b)[..|a + b| - 1] == a + b[..|b| - 1];
      TilesAppend(a, b[..|b| - 1], lo, mid, b[|b| - 1].start);
    }
  }

  lemma {:induction false} StoredTiles(rates: seq<Rate>, n: nat, cs: seq<nat>, offset: nat)
    requires n > 0 && forall i :: 0 <= i < |cs| ==> Picks(rates, n, cs[i]) != []
    ensures Tiles(StoredSlices(rates, n, cs, offset), offset, offset + |StoredRows(rates, n, cs)|)
  {
    if cs != [] {
      StoredTiles(rates, n, cs[..|cs| - 1], offset);
      var ss := StoredSlices(rates, n, cs, offset);
      assert ss[..|ss| - 1] == StoredSlices(rates, n, cs[..|cs| - 1], offset);
    }
  }

  lemma {:induction false} StoredHomogeneous(rates: seq<Rate>, n: nat, cs: seq<nat>, before: seq<Rate>)
    requires n > 0 && forall i :: 0 <= i < |cs| ==> Picks(rates, n, cs[i]) != []
    ensures Homogeneous(StoredSlices(rates, n, cs, |before|), before + StoredRows(rates, n, cs), n)
  {
    hide Homogeneous, Picks, Tiles;
    if cs == [] {
      NoSlices(before, n);
      assert before + [] == before;
    } else {
      var front, c := cs[..|cs| - 1], cs[|cs| - 1];
      var rows := StoredRows(rates, n, front);
      StoredHomogeneous(rates, n, front, before);
      StoredTiles(rates, n, front, |before|);
      PicksHaveChunk(rates, n, c);
      MoreSlices(StoredSlices(rates, n, front, |before|), before + rows, n, Picks(rates, n, c), c, |before|);
      assert before + (rows + Picks(rates, n, c)) == (before + rows) + Picks(rates, n, c);
    }
  }

  lemma {:induction false} NoSlices(rows: seq<Rate>, n: nat)
    requires n > 0
    ensures Homogeneous([], rows, n)
  {
  }

  lemma {:induction false} MoreSlices(
    slices: seq<ChunkSlice>, rows: seq<Rate>, n: nat, more: seq<Rate>, c: nat, lo: nat)
    requires n > 0 && Tiles(slices, lo, |rows|) && Homogeneous(slices, rows, n)
    requires forall i :: 0 <= i < |more| ==> more[i].key.sid % n == c
    ensures Homogeneous(slices + [ChunkSlice(c, |rows|, |rows| + |more|)], rows + more, n)
  {
    TilesOrder(slices, lo, |rows|);
  }

  lemma {:induction false} HomogeneousAppend(
    a: seq<ChunkSlice>, b: seq<ChunkSlice>, rows: seq<Rate>, more: seq<Rate>, n: nat)
    requires n > 0 && Tiles(a, 0, |rows|) && Homogeneous(a, rows, n) && Homogeneous(b, rows + more, n)
    ensures Homogeneous(a + b, rows + more, n)
  {
    TilesOrder(a, 0, |rows|);
  }

  /** One store keeps the index in order. */
  lemma {:induction false} StoreKeepsIndex(t: Table, rates: seq<Rate>, n: nat)
    requires n > 0 && Indexed(t, n)
    ensures Indexed(Stored(t, rates, n), n)
  {
    if rates != [] {
      hide Homogeneous, Picks, Tiles, Chunks, StoredRows, StoredSlices;
      var cs := Chunks(rates, n, n);
      var ss, more := StoredSlices(rates, n, cs, |t.rows|), StoredRows(rates, n, cs);
      ChunksPresent(rates, n);
      StoredTiles(rates, n, cs, |t.rows|);
      StoredHomogeneous(rates, n, cs, t.rows);
      TilesAppend(t.slices, ss, 0, |t.rows|, |t.rows| + |more|);
      HomogeneousAppend(t.slices, ss, t.rows, more, n);
    }
  }

  lemma {:induction false} StoredPicks(rates: seq<Rate>, n: nat, cs: seq<nat>, c: nat)
    requires n > 0 && Increasing(cs)
    ensures Picks(StoredRows(rates, n, cs), n, c) == if c in cs then Picks(rates, n, c) else []
  {
    if cs != [] {
      var m := |cs| - 1;
      var d := cs[m];
      StoredPicks(rates, n, cs[..m], c);
      PicksHaveChunk(rates, n, d);
      PicksOfOneChunk(Picks(rates, n, d), n, d, c);
      PicksAppend(StoredRows(rates, n, cs[..m]), Picks(rates, n, d), n, c);
      assert cs == cs[..m] + [d];
    }
  }

  /** Storing reorders the rows by chunk, but not inside a chunk. */
  lemma {:induction false} StoreKeepsChunks(t: Table, rates: seq<Rate>, n: nat, c: nat)
    requires n > 0 && c < n
    ensures Picks(Stored(t, rates, n).rows, n, c) == Picks(t.rows + rates, n, c)
  {
    PicksAppend(t.rows, rates, n, c);
    if rates != [] {
      var cs := Chunks(rates, n, n);
      StoredPicks(rates, n, cs, c);
      PicksAppend(t.rows, StoredRows(rates, n, cs), n, c);
    } else {
      assert t.rows + rates == t.rows;
    }
  }

  function StoredAll(t: Table, batches: seq<seq<Rate>>, n: nat): Table
    requires n > 0
  {
    if batches == [] then t else Stored(StoredAll(t, batches[..|batches| - 1], n), batches[|batches| - 1], n)
  }

  /** After any sequence of stores the index is in order, and each chunk has the rows stored
      with it, in the order of the stores. */
  lemma {:induction false} RunKeepsIndex(t: Table, batches: seq<seq<Rate>>, n: nat, c: nat)
    requires n > 0 && c < n && Indexed(t, n)
    ensures Indexed(StoredAll(t, batches, n), n)
    ensures Picks(StoredAll(t, batches, n).rows, n, c) == Picks(t.rows + Concat(batches), n, c)
  {
    hide Stored, Indexed;
    if batches == [] {
      assert t.rows + [] == t.rows;
    } else {
      var m := |batches| - 1;
      var u, last := StoredAll(t, batches[..m], n), batches[m];
      RunKeepsIndex(t, batches[..m], n, c);
      StoreKeepsIndex(u, last, n);
      StoreKeepsChunks(u, last, n, c);
      PicksAppend(u.rows, last, n, c);
      ConcatLast(batches);
      PicksAppend(t.rows + Concat(batches[..m]), last, n, c);
      assert t.rows + (Concat(batches[..m]) + last) == (t.rows + Concat(batches[..m])) + last;
    }
  }

  lemma {:induction false} ConcatLast(batches: seq<seq<Rate>>)
    requires batches != []
    ensures Concat(batches) == Concat(batches[..|batches| - 1]) + batches[|batches| - 1]
  {
    var m := |batches| - 1;
    var last := batches[m];
    assert batches == batches[..m] + [last];
    ConcatAppend(batches[..m], [last]);
    assert [last][1..] == [];
    assert Concat([last]) == last;
  }

  /** A file is created by the first rate stored in it. */
  lemma {:induction false} CreatedIff(t: Table, batches: seq<seq<Rate>>, n: nat)
    requires n > 0
    ensures StoredAll(t, batches, n).created <==> t.created || Concat(batches) != []
  {
    if batches != [] {
      CreatedIff(t, batches[..|batches| - 1], n);
      ConcatLast(batches);
    }
  }

  lemma {:induction false} NothingIndexed(n: nat)
    requires n > 0
    ensures Indexed(EMPTY, n) && Indexed(ABSENT, n)
  {
  }

  // ----- reading

  /** The rows of the slices of one chunk. */
  function ReadRows(slices: seq<ChunkSlice>, rows: seq<Rate>, idx: nat): seq<Rate>
    requires forall k :: 0 <= k < |slices| ==> slices[k].start <= slices[k].stop <= |rows|
  {
    if slices == [] then []
    else
      var s := slices[|slices| - 1];
      var r := ReadRows(slices[..|slices| - 1], rows, idx);
      if s.idx == idx then r + rows[s.start..s.stop] else r
  }

  lemma {:induction false} ReadIsPick(slices: seq<ChunkSlice>, rows: seq<Rate>, n: nat, idx: nat, hi: nat)
    requires n > 0 && hi <= |rows| && Tiles(slices, 0, hi) && Homogeneous(slices, rows, n)
    requires forall k :: 0 <= k < |slices| ==> slices[k].start <= slices[k].stop <= |rows|
    ensures ReadRows(slices, rows, idx) == Picks(rows[..hi], n, idx)
  {
    if slices != [] {
      var m := |slices| - 1;
      var s := slices[m];
      TilesOrder(slices, 0, hi);
      ReadIsPick(slices[..m], rows, n, idx, s.start);
      assert rows[..hi] == rows[..s.start] + rows[s.start..hi];
      PicksAppend(rows[..s.start], rows[s.start..hi], n, idx);
      PicksOfOneChunk(rows[s.start..hi], n, s.idx, idx);
    }
  }

  /** The slices of a chunk are all the rows of that chunk, in order. */
  lemma {:induction false} IndexFindsChunk(t: Table, n: nat, idx: nat)
    requires n > 0 && Indexed(t, n)
    ensures forall k :: 0 <= k < |t.slices| ==> t.slices[k].start <= t.slices[k].stop <= |t.rows|
    ensures ReadRows(t.slices, t.rows, idx) == Picks(t.rows, n, idx)
  {
    TilesOrder(t.slices, 0, |t.rows|);
    ReadIsPick(t.slices, t.rows, n, idx, |t.rows|);
    assert t.rows[..|t.rows|] == t.rows;
  }
}

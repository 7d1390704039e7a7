/** Event losses slice by slice. */
module EventSlices {
  // The GMF rows are cut by `split_slices` and each slice is aggregated on its own.

  import opened Aggregate
  import opened Losses
  import opened EventBasedRisk
  import opened EventTables
  import K = Kernels

  /** A row of ground motion values; everything but the event is opaque. */
  datatype Gmf<G> = Gmf(eid: nat, data: G)

  function Eids<G>(df: seq<Gmf<G>>): (e: seq<int>)
    ensures |e| == |df|
  {
    seq(|df|, i requires 0 <= i < |df| => df[i].eid)
  }

  function OnlyEvent<G>(df: seq<Gmf<G>>, e: nat): seq<Gmf<G>> {
    if df == [] then []
    else if df[0].eid == e then [df[0]] + OnlyEvent(df[1..], e)
    else OnlyEvent(df[1..], e)
  }

  /** All the events have a realization. */
  ghost predicate Known<G>(s: Setup, df: seq<Gmf<G>>) {
    forall i :: 0 <= i < |df| ==> df[i].eid < |s.rlzId|
  }

  /** The contract of the risk computation, on known events: the losses of an event depend on the
      ground motion of that event only, and without ground motion there are none. */
  ghost predicate EventLocal<G(!new)>(s: Setup, gen: seq<Gmf<G>> -> seq<Output>) {
    && (forall df :: Known(s, df) ==> ValidOutputs(s, gen(df)))
    && (forall a: seq<Gmf<G>>, b: seq<Gmf<G>>, e: nat, li: nat ::
          li < s.L && Known(s, a) && Known(s, b) && OnlyEvent(a, e) == OnlyEvent(b, e) ==>
            EventRows(RowsOf(gen(a), li), e) == EventRows(RowsOf(gen(b), li), e))
    && (forall li: nat :: li < s.L && Known<G>(s, []) ==> RowsOf(gen([]), li) == [])
  }

  lemma {:induction false} KnownPart<G>(s: Setup, df: seq<Gmf<G>>, c: K.Slice)
    requires Known(s, df) && c.start <= c.stop <= |df|
    ensures Known(s, df[c.start..c.stop])
  {
  }

  // ----- slices and events

  /** Rows of the same event are next to each other. */
  ghost predicate Contiguous<G>(df: seq<Gmf<G>>) {
    forall i, j, k :: 0 <= i < j < k < |df| && df[i].eid == df[k].eid ==> df[j].eid == df[i].eid
  }

  predicate HasEvent<G>(df: seq<Gmf<G>>, c: K.Slice, e: nat)
    requires c.start <= c.stop <= |df|
  {
    exists i :: c.start <= i < c.stop && df[i].eid == e
  }

  ghost predicate InBounds(slices: seq<K.Slice>, n: nat) {
    forall k :: 0 <= k < |slices| ==> slices[k].start < slices[k].stop <= n
  }

  lemma {:induction false} SlicesInBounds<G>(df: seq<Gmf<G>>, size: nat, slices: seq<K.Slice>)
    requires K.IsSplit(Eids(df), size, slices)
    ensures InBounds(slices, |df|)
  {
    forall k | 0 <= k < |slices| ensures slices[k].start < slices[k].stop <= |df| {
      K.SliceBounds(slices, |df|, k);
    }
  }

  lemma {:induction false} SlicesInOrder(slices: seq<K.Slice>, n: nat, a: nat, b: nat)
    requires K.Tiling(slices, n) && a < b < |slices|
    ensures slices[a].stop <= slices[b].start
    decreases b
  {
    if a + 1 < b {
      SlicesInOrder(slices, n, a, b - 1);
    }
    assert slices[b - 1].stop == slices[b - 1 + 1].start;
  }

  /** An event lies in one slice only. */
  lemma {:induction false} OneSlicePerEvent<G>(df: seq<Gmf<G>>, size: nat, slices: seq<K.Slice>, a: nat, b: nat, e: nat)
    requires K.IsSplit(Eids(df), size, slices) && Contiguous(df) && InBounds(slices, |df|)
    requires a < b < |slices| && HasEvent(df, slices[a], e)
    ensures !HasEvent(df, slices[b], e)
  {
    SlicesInOrder(slices, |df|, a, b);
    var c := slices[a].stop;
    assert K.Cut(Eids(df), slices[a], size) by {
      assert slices[..|slices| - 1][a] == slices[a];
    }
    assert df[c - 1].eid != df[c].eid;
    var i :| slices[a].start <= i < c && df[i].eid == e;
    forall j | slices[b].start <= j < slices[b].stop ensures df[j].eid != e {
      Between(df, i, c, j);
    }
  }

  lemma {:induction false} Between<G>(df: seq<Gmf<G>>, i: nat, c: nat, j: nat)
    requires Contiguous(df) && i < c <= j < |df| && df[c - 1].eid != df[c].eid
    ensures df[i].eid != df[j].eid
  {
  }

  lemma {:induction false} OnlyEventAppend<G>(a: seq<Gmf<G>>, b: seq<Gmf<G>>, e: nat)
    ensures OnlyEvent(a + b, e) == OnlyEvent(a, e) + OnlyEvent(b, e)
  {
    if a == [] {
      assert a + b == b;
    } else {
      assert (a + b)[1..] == a[1..] + b;
      OnlyEventAppend(a[1..], b, e);
    }
  }

  lemma {:induction false} OnlyEventNone<G>(df: seq<Gmf<G>>, e: nat)
    requires forall i :: 0 <= i < |df| ==> df[i].eid != e
    ensures OnlyEvent(df, e) == []
  {
    if df != [] {
      OnlyEventNone(df[1..], e);
    }
  }

  lemma {:induction false} OnlyEventInSlice<G>(df: seq<Gmf<G>>, c: K.Slice, e: nat)
    requires c.start <= c.stop <= |df|
    requires forall i :: 0 <= i < |df| && df[i].eid == e ==> c.start <= i < c.stop
    ensures OnlyEvent(df[c.start..c.stop], e) == OnlyEvent(df, e)
  {
    var x, y, z := df[..c.start], df[c.start..c.stop], df[c.stop..];
    assert df == x + (y + z);
    OnlyEventNone(x, e);
    OnlyEventNone(z, e);
    OnlyEventAppend(y, z, e);
    OnlyEventAppend(x, y + z, e);
  }

  lemma {:induction false} AloneInSlice<G>(df: seq<Gmf<G>>, size: nat, slices: seq<K.Slice>, n: nat, e: nat)
    requires K.IsSplit(Eids(df), size, slices) && Contiguous(df) && InBounds(slices, |df|)
    requires n < |slices| && HasEvent(df, slices[n], e)
    ensures forall c :: 0 <= c < |slices| && c != n ==> !HasEvent(df, slices[c], e)
    ensures forall i :: 0 <= i < |df| && df[i].eid == e ==> slices[n].start <= i < slices[n].stop
  {
    forall c | 0 <= c < |slices| && c != n ensures !HasEvent(df, slices[c], e) {
      if c < n {
        OneSliceBack(df, size, slices, c, n, e);
      } else {
        OneSlicePerEvent(df, size, slices, n, c, e);
      }
    }
    forall i | 0 <= i < |df| && df[i].eid == e ensures slices[n].start <= i < slices[n].stop {
      var c := K.SliceAt(slices, |df|, i);
      assert HasEvent(df, slices[c], e);
    }
  }

  lemma {:induction false} OneSliceBack<G>(df: seq<Gmf<G>>, size: nat, slices: seq<K.Slice>, a: nat, b: nat, e: nat)
    requires K.IsSplit(Eids(df), size, slices) && Contiguous(df) && InBounds(slices, |df|)
    requires a < b < |slices| && HasEvent(df, slices[b], e)
    ensures !HasEvent(df, slices[a], e)
  {
    if HasEvent(df, slices[a], e) {
      OneSlicePerEvent(df, size, slices, a, b, e);
    }
  }

  // ----- one result for each slice

  function SliceOutputs<G>(df: seq<Gmf<G>>, c: K.Slice, gen: seq<Gmf<G>> -> seq<Output>): seq<Output>
    requires c.start <= c.stop <= |df|
  {
    gen(df[c.start..c.stop])
  }

  /** The outputs aggregated one after the other, those of the first n slices. */
  ghost function SliceTasks<G>(
    df: seq<Gmf<G>>, slices: seq<K.Slice>, n: nat, gen: seq<Gmf<G>> -> seq<Output>): (tasks: seq<seq<Output>>)
    requires InBounds(slices, |df|) && n <= |slices|
    ensures |tasks| == n
  {
    seq(n, c requires 0 <= c < n => SliceOutputs(df, slices[c], gen))
  }

  lemma {:induction false} SliceTasksValid<G(!new)>(
    s: Setup, df: seq<Gmf<G>>, slices: seq<K.Slice>, n: nat, gen: seq<Gmf<G>> -> seq<Output>)
    requires EventLocal(s, gen) && Known(s, df) && InBounds(slices, |df|) && n <= |slices|
    ensures ValidTasks(s, SliceTasks(df, slices, n, gen)) && ValidOutputs(s, gen(df))
  {
    hide ValidOutputs;
    forall c | 0 <= c < n ensures ValidOutputs(s, SliceTasks(df, slices, n, gen)[c]) {
      KnownPart(s, df, slices[c]);
    }
  }

  lemma {:induction false} SameEvent<G(!new)>(
    s: Setup, a: seq<Gmf<G>>, b: seq<Gmf<G>>, gen: seq<Gmf<G>> -> seq<Output>, li: nat, e: nat)
    requires EventLocal(s, gen) && Known(s, a) && Known(s, b) && li < s.L && OnlyEvent(a, e) == OnlyEvent(b, e)
    ensures EventRows(RowsOf(gen(a), li), e) == EventRows(RowsOf(gen(b), li), e)
  {
    hide EventRows, RowsOf;
  }

  /** Without ground motion of an event there are no losses of it. */
  lemma {:induction false} NoEventRows<G(!new)>(
    s: Setup, df: seq<Gmf<G>>, gen: seq<Gmf<G>> -> seq<Output>, li: nat, e: nat)
    requires EventLocal(s, gen) && Known(s, df) && li < s.L
    requires forall i :: 0 <= i < |df| ==> df[i].eid != e
    ensures EventRows(RowsOf(gen(df), li), e) == []
  {
    hide ValidOutputs;
    assert Known<G>(s, []);
    OnlyEventNone(df, e);
    SameEvent(s, df, [], gen, li, e);
  }

  lemma {:induction false} SliceEventRows<G(!new)>(
    s: Setup, df: seq<Gmf<G>>, size: nat, slices: seq<K.Slice>, c: nat, gen: seq<Gmf<G>> -> seq<Output>, li: nat,
    e: nat)
    requires EventLocal(s, gen) && Known(s, df) && li < s.L && c < |slices|
    requires K.IsSplit(Eids(df), size, slices) && Contiguous(df) && InBounds(slices, |df|)
    ensures ValidOutputs(s, gen(df)) && ValidOutputs(s, SliceOutputs(df, slices[c], gen))
    ensures EventRows(RowsOf(SliceOutputs(df, slices[c], gen), li), e) ==
            if HasEvent(df, slices[c], e) then EventRows(RowsOf(gen(df), li), e) else []
  {
    hide EventRows, RowsOf, ValidOutputs, K.IsSplit, Contiguous;
    var part := df[slices[c].start..slices[c].stop];
    KnownPart(s, df, slices[c]);
    if HasEvent(df, slices[c], e) {
      AloneInSlice(df, size, slices, c, e);
      OnlyEventInSlice(df, slices[c], e);
      SameEvent(s, part, df, gen, li, e);
    } else {
      NoEventRows(s, part, gen, li, e);
    }
  }

  /** The results of different slices are of different events. */
  lemma {:induction false} SlicesDisjoint<G(!new)>(
    s: Setup, df: seq<Gmf<G>>, size: nat, slices: seq<K.Slice>, gen: seq<Gmf<G>> -> seq<Output>)
    requires EventLocal(s, gen) && Known(s, df)
    requires K.IsSplit(Eids(df), size, slices) && Contiguous(df) && InBounds(slices, |df|)
    requires ValidTasks(s, SliceTasks(df, slices, |slices|, gen))
    ensures DisjointEvents(s, SliceTasks(df, slices, |slices|, gen))
  {
    hide EventRows, RowsOf, EventLocal, K.IsSplit, Contiguous, HasEvent;
    var tasks := SliceTasks(df, slices, |slices|, gen);
    forall c: nat, e: nat | c < |slices| && HasRow(s, tasks[c], e) ensures HasEvent(df, slices[c], e) {
      var li: nat :| li < s.L && EventRows(RowsOf(tasks[c], li), e) != [];
      SliceEventRows(s, df, size, slices, c, gen, li, e);
    }
    forall a: nat, b: nat, e: nat | a < b < |tasks| && HasRow(s, tasks[a], e) ensures !HasRow(s, tasks[b], e) {
      OneSlicePerEvent(df, size, slices, a, b, e);
    }
  }

  ghost predicate SomeHasEvent<G>(df: seq<Gmf<G>>, slices: seq<K.Slice>, n: nat, e: nat)
    requires InBounds(slices, |df|) && n <= |slices|
  {
    exists c :: 0 <= c < n && HasEvent(df, slices[c], e)
  }

  lemma {:induction false} MoreSlices<G>(df: seq<Gmf<G>>, slices: seq<K.Slice>, n: nat, e: nat)
    requires InBounds(slices, |df|) && n <= |slices|
    ensures SomeHasEvent(df, slices, n, e) <==>
      n > 0 && (SomeHasEvent(df, slices, n - 1, e) || HasEvent(df, slices[n - 1], e))
    ensures (forall c :: 0 <= c < |slices| && c != n - 1 ==> !HasEvent(df, slices[c], e)) ==>
      n == 0 || !SomeHasEvent(df, slices, n - 1, e)
  {
  }

  lemma {:induction false} OneMoreTask<G(!new)>(
    s: Setup, df: seq<Gmf<G>>, slices: seq<K.Slice>, n: nat, gen: seq<Gmf<G>> -> seq<Output>, li: nat, e: nat)
    requires EventLocal(s, gen) && Known(s, df) && InBounds(slices, |df|) && 0 < n <= |slices| && li < s.L
    ensures ValidTasks(s, SliceTasks(df, slices, n, gen)) && ValidTasks(s, SliceTasks(df, slices, n - 1, gen))
    ensures ValidOutputs(s, SliceOutputs(df, slices[n - 1], gen))
    ensures EventRows(TaskRows(SliceTasks(df, slices, n, gen), li), e) ==
            EventRows(TaskRows(SliceTasks(df, slices, n - 1, gen), li), e) +
            EventRows(RowsOf(SliceOutputs(df, slices[n - 1], gen), li), e)
  {
    hide EventLocal, EventRows, RowsOf, SliceOutputs;
    SliceTasksValid(s, df, slices, n, gen);
    SliceTasksValid(s, df, slices, n - 1, gen);
    var tasks := SliceTasks(df, slices, n, gen);
    assert tasks[n - 1] == SliceOutputs(df, slices[n - 1], gen);
    assert tasks[..n - 1] == SliceTasks(df, slices, n - 1, gen);
    EventRowsAppend(TaskRows(tasks[..n - 1], li), RowsOf(tasks[n - 1], li), e);
  }

  lemma {:induction false} NoTasks<G(!new)>(
    s: Setup, df: seq<Gmf<G>>, slices: seq<K.Slice>, gen: seq<Gmf<G>> -> seq<Output>, li: nat, e: nat)
    requires InBounds(slices, |df|)
    ensures SliceTasks(df, slices, 0, gen) == [] && EventRows(TaskRows([], li), e) == []
    ensures !SomeHasEvent(df, slices, 0, e)
  {
  }

  lemma {:induction false} TaskEventRows<G(!new)>(
    s: Setup, df: seq<Gmf<G>>, size: nat, slices: seq<K.Slice>, n: nat, gen: seq<Gmf<G>> -> seq<Output>, li: nat,
    e: nat)
    requires EventLocal(s, gen) && Known(s, df) && li < s.L && n <= |slices|
    requires K.IsSplit(Eids(df), size, slices) && Contiguous(df) && InBounds(slices, |df|)
    ensures ValidTasks(s, SliceTasks(df, slices, n, gen)) && ValidOutputs(s, gen(df))
    ensures EventRows(TaskRows(SliceTasks(df, slices, n, gen), li), e) ==
            if SomeHasEvent(df, slices, n, e) then EventRows(RowsOf(gen(df), li), e) else []
  {
    hide EventLocal, EventRows, RowsOf, TaskRows, SliceTasks, SliceOutputs, SomeHasEvent, HasEvent, ValidOutputs,
         K.IsSplit, Contiguous;
    SliceTasksValid(s, df, slices, n, gen);
    if n == 0 {
      NoTasks(s, df, slices, gen, li, e);
    } else {
      MoreSlices(df, slices, n, e);
      TaskEventRows(s, df, size, slices, n - 1, gen, li, e);
      OneMoreTask(s, df, slices, n, gen, li, e);
      SliceEventRows(s, df, size, slices, n - 1, gen, li, e);
      if HasEvent(df, slices[n - 1], e) {
        AloneInSlice(df, size, slices, n - 1, e);
      }
    }
  }

  /** All the slices together have the rows of the whole, event by event. */
  lemma {:induction false} SlicesHaveAllRows<G(!new)>(
    s: Setup, df: seq<Gmf<G>>, size: nat, slices: seq<K.Slice>, gen: seq<Gmf<G>> -> seq<Output>, li: nat, e: nat)
    requires EventLocal(s, gen) && Known(s, df) && li < s.L
    requires K.IsSplit(Eids(df), size, slices) && Contiguous(df) && InBounds(slices, |df|)
    ensures ValidTasks(s, SliceTasks(df, slices, |slices|, gen)) && ValidOutputs(s, gen(df))
    ensures EventRows(TaskRows(SliceTasks(df, slices, |slices|, gen), li), e) == EventRows(RowsOf(gen(df), li), e)
  {
    hide EventLocal, EventRows, RowsOf, TaskRows, SliceTasks, ValidOutputs;
    TaskEventRows(s, df, size, slices, |slices|, gen, li, e);
    if !SomeHasEvent(df, slices, |slices|, e) {
      forall i | 0 <= i < |df| ensures df[i].eid != e {
        var c := K.SliceAt(slices, |df|, i);
        assert !HasEvent(df, slices[c], e);
      }
      NoEventRows(s, df, gen, li, e);
    }
  }

  // ----- the theorem

  /** With contiguous events, cutting the ground motion in slices does not change the event
      loss table: it has the same rows as the table of the whole, and no duplicates of
      (event, key, loss type). */
  lemma {:induction false} SlicingKeepsTable<G(!new)>(
    s: Setup, df: seq<Gmf<G>>, size: nat, slices: seq<K.Slice>, gen: seq<Gmf<G>> -> seq<Output>)
    requires s.Valid() && EventLocal(s, gen) && Known(s, df)
    requires K.IsSplit(Eids(df), size, slices) && Contiguous(df)
    ensures InBounds(slices, |df|) && ValidTasks(s, SliceTasks(df, slices, |slices|, gen))
    ensures var t := Tables(s, SliceTasks(df, slices, |slices|, gen));
      NoDuplicates(t) && forall r :: r in t <==> r in LossTable(s, gen(df))
  {
    hide LossTable, Tables, TableTotal, K.IsSplit, Contiguous, SliceTasks, EventLocal, ValidOutputs;
    SlicesInBounds(df, size, slices);
    var tasks := SliceTasks(df, slices, |slices|, gen);
    SliceTasksValid(s, df, slices, |slices|, gen);
    SlicesDisjoint(s, df, size, slices, gen);
    TablesProper(s, tasks);
    LossTableProper(s, gen(df));
    var t, whole := Tables(s, tasks), LossTable(s, gen(df));
    forall r ensures r in t <==> r in whole {
      RowIff(t, r);
      RowIff(whole, r);
      if r.lossId < s.L {
        SameTotal(s, df, size, slices, gen, r.lossId, r.eventId, r.aggId);
      }
    }
  }

  lemma {:induction false} SameTotal<G(!new)>(
    s: Setup, df: seq<Gmf<G>>, size: nat, slices: seq<K.Slice>, gen: seq<Gmf<G>> -> seq<Output>, li: nat, e: nat,
    k: nat)
    requires s.Valid() && EventLocal(s, gen) && Known(s, df) && li < s.L
    requires K.IsSplit(Eids(df), size, slices) && Contiguous(df) && InBounds(slices, |df|)
    ensures ValidTasks(s, SliceTasks(df, slices, |slices|, gen)) && ValidOutputs(s, gen(df))
    ensures TableTotal(Tables(s, SliceTasks(df, slices, |slices|, gen)), li, At(e, k)) ==
            TableTotal(LossTable(s, gen(df)), li, At(e, k))
  {
    hide LossTable, Tables, TableTotal, K.IsSplit, Contiguous, SliceTasks, EventLocal, Amount, EventRows;
    SlicesHaveAllRows(s, df, size, slices, gen, li, e);
    var tasks := SliceTasks(df, slices, |slices|, gen);
    TablesAmount(s, tasks, li, e, k);
    TableAmount(s, gen(df), li, e, k);
    AmountOfEvent(s, TaskRows(tasks, li), e, k);
    AmountOfEvent(s, RowsOf(gen(df), li), e, k);
  }

  /** And it does not change the average losses. */
  lemma {:induction false} SlicingKeepsCells<G(!new)>(
    s: Setup, df: seq<Gmf<G>>, size: nat, slices: seq<K.Slice>, gen: seq<Gmf<G>> -> seq<Output>, li: nat, r: nat,
    c: nat)
    requires s.Valid() && EventLocal(s, gen) && Known(s, df) && li < s.L
    requires K.IsSplit(Eids(df), size, slices) && Contiguous(df) && InBounds(slices, |df|)
    ensures ValidTasks(s, SliceTasks(df, slices, |slices|, gen)) && ValidOutputs(s, gen(df))
    ensures ValidRows(s, TaskRows(SliceTasks(df, slices, |slices|, gen), li)) && ValidRows(s, RowsOf(gen(df), li))
    ensures Cell(s, TaskRows(SliceTasks(df, slices, |slices|, gen), li), r, c) == Cell(s, RowsOf(gen(df), li), r, c)
  {
    hide K.IsSplit, Contiguous, SliceTasks, EventLocal, EventRows, Cell;
    SliceTasksValid(s, df, slices, |slices|, gen);
    var tasks := SliceTasks(df, slices, |slices|, gen);
    TaskRowsValid(s, tasks, li);
    RowsOfValid(s, gen(df), li);
    forall e: nat ensures EventRows(TaskRows(tasks, li), e) == EventRows(RowsOf(gen(df), li), e) {
      SlicesHaveAllRows(s, df, size, slices, gen, li, e);
    }
    SameBag(TaskRows(tasks, li), RowsOf(gen(df), li));
    BagCell(s, TaskRows(tasks, li), RowsOf(gen(df), li), r, c);
  }

  /** A calculator that has received the results slice by slice has the average losses and the
      rows of one that has received the result of the whole. */
  lemma {:induction false} SlicingKeepsResults<G(!new)>(
    sliced: LossCalculator, whole: LossCalculator, df: seq<Gmf<G>>, size: nat, slices: seq<K.Slice>,
    gen: seq<Gmf<G>> -> seq<Output>)
    requires sliced.Valid() && whole.Valid() && sliced.s == whole.s
    requires EventLocal(whole.s, gen) && Known(whole.s, df)
    requires K.IsSplit(Eids(df), size, slices) && Contiguous(df) && InBounds(slices, |df|)
    requires sliced.tasks == SliceTasks(df, slices, |slices|, gen) && whole.tasks == [gen(df)]
    ensures forall li: nat, r: nat, c: nat :: li < whole.s.L && r < whole.s.A && c < whole.s.R ==>
      sliced.avgLosses[li][r, c] == whole.avgLosses[li][r, c]
    ensures NoDuplicates(sliced.riskByEvent)
    ensures forall r :: r in sliced.riskByEvent <==> r in whole.riskByEvent
  {
    hide K.IsSplit, Contiguous, SliceTasks, EventLocal, ValidOutputs, Cell, LossTable;
    SlicingKeepsTable(whole.s, df, size, slices, gen);
    OneTask(whole.s, gen(df));
    forall li: nat, r: nat, c: nat | li < whole.s.L && r < whole.s.A && c < whole.s.R
      ensures sliced.avgLosses[li][r, c] == whole.avgLosses[li][r, c]
    {
      SlicingKeepsCells(whole.s, df, size, slices, gen, li, r, c);
    }
  }

  lemma {:induction false} OneTask(s: Setup, outputs: seq<Output>)
    requires s.Valid() && ValidTasks(s, [outputs])
    ensures ValidOutputs(s, outputs) && Tables(s, [outputs]) == LossTable(s, outputs)
    ensures forall li: nat :: li < s.L ==> TaskRows([outputs], li) == RowsOf(outputs, li)
  {
    hide LossTable, RowsOf, ValidOutputs;
    assert [outputs][0] == outputs && [outputs][..0] == [];
  }
}

/** The event based risk calculator. */
module EventBasedRisk {
  // Average losses by asset and realization next to the event loss table, both fed by the same
  // outputs.

  import opened Basics
  import opened Aggregate
  import opened Losses
  import opened ModSlices

  // ----- average_losses

  /** All the losses go to column 0 when the realizations are collected, and also when all the
      events belong to one realization, whichever it is. */
  function Column(s: Setup, eid: nat): nat
    requires eid < |s.rlzId|
  {
    if s.collectRlzs || |Unique(s.rlzId)| == 1 then 0 else s.rlzId[eid]
  }

  function CellKeys(s: Setup, rows: seq<Row>): (k: seq<(nat, nat)>)
    requires ValidRows(s, rows)
    ensures |k| == |rows|
  {
    seq(|rows|, i requires 0 <= i < |rows| => (rows[i].aid, Column(s, rows[i].eid)))
  }

  /** A sparse matrix in coordinate form. */
  datatype Coo = Coo(cells: seq<(nat, nat)>, data: seq<real>)

  function LossColumn(ps: seq<Pair>): seq<real> {
    seq(|ps|, i requires 0 <= i < |ps| => ps[i].loss)
  }

  function AverageLosses(s: Setup, rows: seq<Row>): Coo
    requires ValidRows(s, rows)
  {
    var keys := CellKeys(s, rows);
    Coo(Unique(keys), LossColumn(GroupSums(Unique(keys), keys, Vals(rows))))
  }

  // ----- fancy assignment

  ghost predicate InRange(coo: Coo, rows: nat, cols: nat) {
    |coo.cells| == |coo.data| && forall i :: 0 <= i < |coo.cells| ==> coo.cells[i].0 < rows && coo.cells[i].1 < cols
  }

  /** What a fancy `+=` adds to a cell: the last datum for it wins. */
  function Picked(coo: Coo, n: nat, cell: (nat, nat)): real {
    if n == 0 || n > |coo.cells| || n > |coo.data| then 0.0
    else if coo.cells[n - 1] == cell then coo.data[n - 1]
    else Picked(coo, n - 1, cell)
  }

  /** `a[row, col] += data`: read all, add, write back in order. */
  method FancyAdd(a: array2<real>, coo: Coo)
    requires InRange(coo, a.Length0, a.Length1)
    modifies a
    ensures forall r: nat, c: nat :: r < a.Length0 && c < a.Length1 ==>
      a[r, c] == old(a[r, c]) + Picked(coo, |coo.cells|, (r, c))
  {
    var n := |coo.cells|;
    var tmp := new real[n](i requires 0 <= i < n reads a => a[coo.cells[i].0, coo.cells[i].1] + coo.data[i]);
    for i := 0 to n
      invariant forall j :: 0 <= j < n ==> tmp[j] == old(a[coo.cells[j].0, coo.cells[j].1]) + coo.data[j]
      invariant forall r: nat, c: nat :: r < a.Length0 && c < a.Length1 ==>
        a[r, c] == old(a[r, c]) + Picked(coo, i, (r, c))
    {
      a[coo.cells[i].0, coo.cells[i].1] := tmp[i];
    }
  }

  /** With distinct cells the fancy `+=` of the group sums is a true accumulation. */
  lemma {:induction false} PickedIsKeySum(s: Setup, rows: seq<Row>, n: nat, cell: (nat, nat))
    requires ValidRows(s, rows) && n <= |AverageLosses(s, rows).cells|
    ensures var coo := AverageLosses(s, rows);
      Picked(coo, n, cell) == if cell in coo.cells[..n] then KeySum(CellKeys(s, rows), Vals(rows), cell).loss else 0.0
  {
    hide KeySum, CellKeys, Unique, ValidRows;
    if n > 0 {
      var coo := AverageLosses(s, rows);
      PickedIsKeySum(s, rows, n - 1, cell);
      assert coo.cells[..n] == coo.cells[..n - 1] + [coo.cells[n - 1]];
      assert forall i :: 0 <= i < n - 1 ==> coo.cells[i] != coo.cells[n - 1];
    }
  }

  lemma {:induction false} NoKeySum<K>(keys: seq<K>, values: seq<Pair>, k: K)
    requires |keys| == |values| && k !in keys
    ensures KeySum(keys, values, k) == ZERO
  {
    if keys != [] {
      NoKeySum(keys[..|keys| - 1], values[..|keys| - 1], k);
    }
  }

  lemma {:induction false} CooCell(s: Setup, rows: seq<Row>, cell: (nat, nat))
    requires ValidRows(s, rows)
    ensures var coo := AverageLosses(s, rows);
      Picked(coo, |coo.cells|, cell) == KeySum(CellKeys(s, rows), Vals(rows), cell).loss
  {
    var coo, keys := AverageLosses(s, rows), CellKeys(s, rows);
    PickedIsKeySum(s, rows, |coo.cells|, cell);
    assert coo.cells[..|coo.cells|] == coo.cells;
    if cell !in coo.cells {
      assert forall i :: 0 <= i < |keys| ==> keys[i] in coo.cells;
      NoKeySum(keys, Vals(rows), cell);
    }
  }

  lemma {:induction false} CooInRange(s: Setup, rows: seq<Row>)
    requires s.Valid() && ValidRows(s, rows)
    ensures InRange(AverageLosses(s, rows), s.A, s.R)
  {
    var coo, keys := AverageLosses(s, rows), CellKeys(s, rows);
    forall i | 0 <= i < |coo.cells| ensures coo.cells[i].0 < s.A && coo.cells[i].1 < s.R {
      assert coo.cells[i] in keys;
      var j :| 0 <= j < |keys| && keys[j] == coo.cells[i];
      assert s.rlzId[rows[j].eid] < s.R;
    }
  }

  // ----- aggreg

  function Coos(s: Setup, outputs: seq<Output>, li: nat): seq<Coo>
    requires ValidOutputs(s, outputs) && li < s.L
  {
    if outputs == [] then []
    else
      var n := |outputs| - 1;
      Coos(s, outputs[..n], li) + NewCoos(s, outputs[n][li])
  }

  function NewCoos(s: Setup, rows: seq<Row>): seq<Coo>
    requires ValidRows(s, rows)
  {
    if rows == [] then [] else [AverageLosses(s, rows)]
  }

  /** One output: its averages are collected, its losses accumulated. */
  method AggregOutput(s: Setup, avg: seq<seq<Coo>>, acc: seq<Entry>, out: Output)
    returns (avg': seq<seq<Coo>>, acc': seq<Entry>)
    requires s.Valid() && |avg| == s.L == |out| && ValidAcc(acc, s.L)
    requires forall li :: 0 <= li < s.L ==> ValidRows(s, out[li])
    ensures |avg'| == s.L && forall li :: 0 <= li < s.L ==> avg'[li] == avg[li] + NewCoos(s, out[li])
    ensures acc' == AddOutput(acc, s, out, s.L)
  {
    hide ValidAcc, AverageLosses, AddTable, ValidRows;
    avg', acc' := avg, acc;
    for li := 0 to s.L
      invariant |avg'| == s.L
      invariant forall lj :: 0 <= lj < li ==> avg'[lj] == avg[lj] + NewCoos(s, out[lj])
      invariant forall lj :: li <= lj < s.L ==> avg'[lj] == avg[lj]
      invariant acc' == AddOutput(acc, s, out, li)
      invariant ValidAcc(acc', s.L)
    {
      if out[li] != [] {
        avg' := avg'[li := avg'[li] + [AverageLosses(s, out[li])]];
        acc' := AddOneTable(acc', s, li, out[li]);
      }
    }
  }

  /** The averages by loss type and the event loss table of the outputs of a task. */
  method Aggreg(s: Setup, outputs: seq<Output>) returns (avg: seq<seq<Coo>>, alt: seq<LossRow>)
    requires s.Valid() && ValidOutputs(s, outputs)
    ensures |avg| == s.L && forall li :: 0 <= li < s.L ==> avg[li] == Coos(s, outputs, li)
    ensures alt == LossTable(s, outputs)
  {
    hide ValidAcc, NewCoos, AddOutput, ValidRows;
    avg := seq(s.L, _ => []);
    var acc := [];
    for o := 0 to |outputs|
      invariant |avg| == s.L && forall li :: 0 <= li < s.L ==> avg[li] == Coos(s, outputs[..o], li)
      invariant acc == Accumulate(s, outputs[..o])
      invariant ValidAcc(acc, s.L)
    {
      assert outputs[..o + 1][..o] == outputs[..o];
      avg, acc := AggregOutput(s, avg, acc, outputs[o]);
    }
    assert outputs[..|outputs|] == outputs;
    ValidLengths(acc, s.L);
    alt := TableOf(acc, s.L);
  }

  method AddOneTable(acc: seq<Entry>, s: Setup, li: nat, rows: seq<Row>) returns (r: seq<Entry>)
    requires li < s.L && ValidAcc(acc, s.L) && s.Valid() && ValidRows(s, rows)
    ensures r == AddTable(acc, s, li, rows)
  {
    hide ValidAcc, AddKeys, Vals, TotalKeys, FamilyKeys;
    r := FastAggInto(acc, s.L, li, TotalKeys(rows, s.K), Vals(rows));
    ghost var first := r;
    for n := 0 to |s.aggids|
      invariant r == AddFamilies(first, s, li, rows, n)
      invariant ValidAcc(r, s.L)
    {
      r := FastAggInto(r, s.L, li, FamilyKeys(rows, s.aggids[n]), Vals(rows));
    }
  }

  // ----- the calculator

  function TaskRows(tasks: seq<seq<Output>>, li: nat): seq<Row>
    requires forall t, o :: 0 <= t < |tasks| && 0 <= o < |tasks[t]| ==> li < |tasks[t][o]|
  {
    if tasks == [] then [] else TaskRows(tasks[..|tasks| - 1], li) + RowsOf(tasks[|tasks| - 1], li)
  }

  ghost predicate ValidTasks(s: Setup, tasks: seq<seq<Output>>) {
    forall t :: 0 <= t < |tasks| ==> ValidOutputs(s, tasks[t])
  }

  function Tables(s: Setup, tasks: seq<seq<Output>>): seq<LossRow>
    requires s.Valid() && ValidTasks(s, tasks)
  {
    if tasks == [] then [] else Tables(s, tasks[..|tasks| - 1]) + LossTable(s, tasks[|tasks| - 1])
  }

  lemma {:induction false} TaskRowsValid(s: Setup, tasks: seq<seq<Output>>, li: nat)
    requires ValidTasks(s, tasks) && li < s.L
    ensures ValidRows(s, TaskRows(tasks, li))
  {
    if tasks != [] {
      TaskRowsValid(s, tasks[..|tasks| - 1], li);
      RowsOfValid(s, tasks[|tasks| - 1], li);
    }
  }

  function Cell(s: Setup, rows: seq<Row>, r: nat, c: nat): real
    requires ValidRows(s, rows)
  {
    KeySum(CellKeys(s, rows), Vals(rows), (r, c)).loss
  }

  lemma {:induction false} CellAppend(s: Setup, a: seq<Row>, b: seq<Row>, r: nat, c: nat)
    requires ValidRows(s, a) && ValidRows(s, b)
    ensures Cell(s, a + b, r, c) == Cell(s, a, r, c) + Cell(s, b, r, c)
  {
    assert CellKeys(s, a + b) == CellKeys(s, a) + CellKeys(s, b) && Vals(a + b) == Vals(a) + Vals(b);
    KeySumAppend(CellKeys(s, a), Vals(a), CellKeys(s, b), Vals(b), (r, c));
  }

  /** What some sparse matrices add to a cell, one fancy `+=` after the other. */
  function CooSum(coos: seq<Coo>, cell: (nat, nat)): real {
    if coos == [] then 0.0
    else
      var n := |coos| - 1;
      CooSum(coos[..n], cell) + Picked(coos[n], |coos[n].cells|, cell)
  }

  lemma {:induction false} CoosFacts(s: Setup, outputs: seq<Output>, li: nat)
    requires s.Valid() && ValidOutputs(s, outputs) && li < s.L
    ensures ValidRows(s, RowsOf(outputs, li))
    ensures forall i :: 0 <= i < |Coos(s, outputs, li)| ==> InRange(Coos(s, outputs, li)[i], s.A, s.R)
    ensures forall r: nat, c: nat :: CooSum(Coos(s, outputs, li), (r, c)) == Cell(s, RowsOf(outputs, li), r, c)
  {
    hide Picked, AverageLosses, Cell, InRange;
    RowsOfValid(s, outputs, li);
    if outputs == [] {
      NoCell(s);
    } else {
      var n := |outputs| - 1;
      var rows, before := outputs[n][li], RowsOf(outputs[..n], li);
      CoosFacts(s, outputs[..n], li);
      CooInRange(s, rows);
      forall r: nat, c: nat ensures CooSum(Coos(s, outputs, li), (r, c)) == Cell(s, RowsOf(outputs, li), r, c) {
        CellAppend(s, before, rows, r, c);
        CellIsPicked(s, rows, r, c);
        var all, front := Coos(s, outputs, li), Coos(s, outputs[..n], li);
        if rows == [] {
          NoCell(s);
          assert all == front;
        } else {
          assert all == front + [AverageLosses(s, rows)];
          assert all[..|all| - 1] == front;
        }
      }
    }
  }

  lemma {:induction false} NoCell(s: Setup)
    ensures forall r: nat, c: nat :: Cell(s, [], r, c) == 0.0
  {
  }

  lemma {:induction false} CellIsPicked(s: Setup, rows: seq<Row>, r: nat, c: nat)
    requires ValidRows(s, rows)
    ensures var coo := AverageLosses(s, rows);
      Picked(coo, |coo.cells|, (r, c)) == Cell(s, rows, r, c)
  {
    CooCell(s, rows, (r, c));
  }

  /** One more task adds to each cell what its sparse matrices have for it. */
  lemma {:induction false} NextCell(s: Setup, tasks: seq<seq<Output>>, outputs: seq<Output>, li: nat, r: nat, c: nat)
    requires s.Valid() && ValidTasks(s, tasks) && ValidOutputs(s, outputs) && li < s.L
    ensures ValidTasks(s, tasks + [outputs])
    ensures ValidRows(s, TaskRows(tasks, li)) && ValidRows(s, TaskRows(tasks + [outputs], li))
    ensures Cell(s, TaskRows(tasks + [outputs], li), r, c) ==
            Cell(s, TaskRows(tasks, li), r, c) + CooSum(Coos(s, outputs, li), (r, c))
  {
    hide Cell, CooSum, Coos, RowsOf;
    assert (tasks + [outputs])[..|tasks + [outputs]| - 1] == tasks;
    CoosFacts(s, outputs, li);
    TaskRowsValid(s, tasks, li);
    CellAppend(s, TaskRows(tasks, li), RowsOf(outputs, li), r, c);
  }

  lemma {:induction false} NextTables(s: Setup, tasks: seq<seq<Output>>, outputs: seq<Output>)
    requires s.Valid() && ValidTasks(s, tasks) && ValidOutputs(s, outputs)
    ensures ValidTasks(s, tasks + [outputs])
    ensures Tables(s, tasks + [outputs]) == Tables(s, tasks) + LossTable(s, outputs)
  {
    hide LossTable;
    assert (tasks + [outputs])[..|tasks + [outputs]| - 1] == tasks;
  }

  class LossCalculator {
    const s: Setup
    const avgLosses: seq<array2<real>>      // by loss type
    var riskByEvent: seq<LossRow>
    ghost var tasks: seq<seq<Output>>       // the outputs processed so far

    /** One matrix of assets by realizations for each loss type. */
    ghost predicate Shaped() {
      && |avgLosses| == s.L
      && (forall i, j :: 0 <= i < j < s.L ==> avgLosses[i] != avgLosses[j])
      && (forall li :: 0 <= li < s.L ==> avgLosses[li].Length0 == s.A && avgLosses[li].Length1 == s.R)
    }

    /** Each cell is the sum of its rows. */
    ghost predicate Sums(tasks: seq<seq<Output>>)
      requires Shaped() && ValidTasks(s, tasks)
      reads avgLosses
    {
      && (forall li :: 0 <= li < s.L ==> ValidRows(s, TaskRows(tasks, li)))
      && (forall li: nat, r: nat, c: nat :: li < s.L && r < s.A && c < s.R ==>
           avgLosses[li][r, c] == Cell(s, TaskRows(tasks, li), r, c))
    }

    ghost predicate Valid()
      reads this, avgLosses
    {
      s.Valid() && ValidTasks(s, tasks) && Shaped() && Sums(tasks) && riskByEvent == Tables(s, tasks)
    }

    /** `create_avg_losses`: a matrix of zeros for each loss type, and an empty table. */
    constructor (s: Setup)
      requires s.Valid()
      ensures Valid() && fresh(avgLosses) && this.s == s && tasks == []
    {
      var all: seq<array2<real>> := [];
      for li := 0 to s.L
        invariant |all| == li && fresh(all)
        invariant forall i, j :: 0 <= i < j < li ==> all[i] != all[j]
        invariant forall i :: 0 <= i < li ==> all[i].Length0 == s.A && all[i].Length1 == s.R
        invariant forall i: nat, r: nat, c: nat :: i < li && r < s.A && c < s.R ==> all[i][r, c] == 0.0
      {
        var zeros := new real[s.A, s.R]((r, c) => 0.0);
        all := all + [zeros];
      }
      this.s, avgLosses, riskByEvent, tasks := s, all, [], [];
      new;
      NoCell(s);
    }

    /** `agg_dicts` for one loss type. */
    method AddAverages(li: nat, coos: seq<Coo>)
      requires li < |avgLosses|
      requires forall i :: 0 <= i < |coos| ==> InRange(coos[i], avgLosses[li].Length0, avgLosses[li].Length1)
      modifies avgLosses[li]
      ensures forall r: nat, c: nat :: r < avgLosses[li].Length0 && c < avgLosses[li].Length1 ==>
        avgLosses[li][r, c] == old(avgLosses[li][r, c]) + CooSum(coos, (r, c))
    {
      hide Picked;
      var a := avgLosses[li];
      for i := 0 to |coos|
        invariant forall r: nat, c: nat :: r < a.Length0 && c < a.Length1 ==>
          a[r, c] == old(a[r, c]) + CooSum(coos[..i], (r, c))
      {
        assert coos[..i + 1][..i] == coos[..i];
        FancyAdd(a, coos[i]);
      }
      assert coos[..|coos|] == coos;
    }

    /** `agg_dicts` for all the loss types. */
    method AddAllAverages(avg: seq<seq<Coo>>)
      requires Shaped() && |avg| == s.L
      requires forall li, i :: 0 <= li < s.L && 0 <= i < |avg[li]| ==> InRange(avg[li][i], s.A, s.R)
      modifies avgLosses
      ensures forall li: nat, r: nat, c: nat :: li < s.L && r < s.A && c < s.R ==>
        avgLosses[li][r, c] == old(avgLosses[li][r, c]) + CooSum(avg[li], (r, c))
    {
      hide CooSum, InRange;
      for li := 0 to s.L
        invariant forall lj: nat, r: nat, c: nat :: lj < li && r < s.A && c < s.R ==>
          avgLosses[lj][r, c] == old(avgLosses[lj][r, c]) + CooSum(avg[lj], (r, c))
        invariant forall lj: nat, r: nat, c: nat :: li <= lj < s.L && r < s.A && c < s.R ==>
          avgLosses[lj][r, c] == old(avgLosses[lj][r, c])
      {
        AddAverages(li, avg[li]);
      }
    }

    /** Aggregate the outputs of a task and merge the result. */
    method Process(outputs: seq<Output>)
      requires Valid() && ValidOutputs(s, outputs)
      modifies this, avgLosses
      ensures Valid() && tasks == old(tasks) + [outputs]
    {
      hide CooSum, Cell, InRange, LossTable, Coos, RowsOf, TaskRows, ValidRows, Tables;
      var avg, alt := Aggreg(s, outputs);
      forall li | 0 <= li < s.L ensures forall i :: 0 <= i < |avg[li]| ==> InRange(avg[li][i], s.A, s.R) {
        CoosFacts(s, outputs, li);
      }
      AddAllAverages(avg);
      NextTables(s, tasks, outputs);
      riskByEvent := riskByEvent + alt;
      forall li: nat, r: nat, c: nat | li < s.L && r < s.A && c < s.R
        ensures avgLosses[li][r, c] == Cell(s, TaskRows(tasks, li), r, c) + CooSum(Coos(s, outputs, li), (r, c))
      {
      }
      tasks := tasks + [outputs];
      forall li: nat | li < s.L ensures ValidRows(s, TaskRows(tasks, li)) {
        TaskRowsValid(s, tasks, li);
      }
      forall li: nat, r: nat, c: nat | li < s.L && r < s.A && c < s.R
        ensures avgLosses[li][r, c] == Cell(s, TaskRows(tasks, li), r, c)
      {
        NextCell(s, old(tasks), outputs, li, r, c);
      }
    }
  }

  /** The results of the tasks are merged one by one, from nothing. */
  method MergeTasks(s: Setup, tasks: seq<seq<Output>>) returns (lc: LossCalculator)
    requires s.Valid() && ValidTasks(s, tasks)
    ensures fresh(lc) && lc.Valid() && lc.s == s && lc.tasks == tasks
  {
    hide LossCalculator.Valid, LossCalculator.Sums, LossCalculator.Shaped, Setup.Valid, ValidOutputs;
    lc := new LossCalculator(s);
    for t := 0 to |tasks|
      invariant fresh(lc) && fresh(lc.avgLosses) && lc.Valid() && lc.s == s && lc.tasks == tasks[..t]
    {
      lc.Process(tasks[t]);
      assert tasks[..t + 1] == tasks[..t] + [tasks[t]];
    }
    assert tasks[..|tasks|] == tasks;
  }

  /** The calculation: at its end the two aggregations agree for each loss type. */
  method Execute(s: Setup, tasks: seq<seq<Output>>) returns (lc: LossCalculator)
    requires s.Valid() && ValidTasks(s, tasks)
    ensures fresh(lc) && lc.Valid() && lc.s == s && lc.tasks == tasks
    ensures forall li: nat :: li < s.L ==>
      GridSum(lc.avgLosses[li], Cells(s.A, s.R), AnyCell()) ==
        TableTotal(lc.riskByEvent, li, UnderK(s, AllEvents())).loss
  {
    hide TableTotal, GridSum;
    lc := MergeTasks(s, tasks);
    forall li: nat | li < s.L
      ensures GridSum(lc.avgLosses[li], Cells(s.A, s.R), AnyCell()) ==
        TableTotal(lc.riskByEvent, li, UnderK(s, AllEvents())).loss
    {
      AggregationsAgree(lc, li);
    }
  }

  // ----- the two aggregations agree

  /** All the (asset, realization) cells. */
  function Cells(A: nat, R: nat): (k: seq<(nat, nat)>)
    ensures Distinct(k) && forall i :: 0 <= i < |k| ==> k[i].0 < A && k[i].1 < R
    ensures forall a: nat, r: nat :: a < A && r < R ==> (a, r) in k
  {
    if A == 0 then [] else Cells(A - 1, R) + RowCells(A - 1, R)
  }

  function RowCells(a: nat, R: nat): (k: seq<(nat, nat)>)
    ensures |k| == R && forall i :: 0 <= i < R ==> k[i] == (a, i)
    ensures forall r: nat :: r < R ==> (a, r) in k
  {
    if R == 0 then [] else RowCells(a, R - 1) + [(a, R - 1)]
  }

  /** The sum of some cells of a matrix. */
  ghost function GridSum(a: array2<real>, cells: seq<(nat, nat)>, p: ((nat, nat)) -> bool): real
    requires forall i :: 0 <= i < |cells| ==> cells[i].0 < a.Length0 && cells[i].1 < a.Length1
    reads a
  {
    if cells == [] then 0.0
    else
      var n := |cells| - 1;
      var t := GridSum(a, cells[..n], p);
      if p(cells[n]) then t + a[cells[n].0, cells[n].1] else t
  }

  lemma {:induction false} GridIsGroups(
    s: Setup, rows: seq<Row>, a: array2<real>, cells: seq<(nat, nat)>, p: ((nat, nat)) -> bool)
    requires ValidRows(s, rows) && a.Length0 == s.A && a.Length1 == s.R
    requires forall i :: 0 <= i < |cells| ==> cells[i].0 < s.A && cells[i].1 < s.R
    requires forall r: nat, c: nat :: r < s.A && c < s.R ==> a[r, c] == Cell(s, rows, r, c)
    ensures GridSum(a, cells, p) == GroupTotal(cells, CellKeys(s, rows), Vals(rows), p).loss
  {
    hide CellKeys, Vals, KeySum;
    if cells != [] {
      var n := |cells| - 1;
      GridIsGroups(s, rows, a, cells[..n], p);
      assert cells[n] == (cells[n].0, cells[n].1);
    }
  }

  /** A sum of average losses is the sum of the rows that go to its cells. */
  lemma {:induction false} GridIsRows(s: Setup, rows: seq<Row>, a: array2<real>, p: ((nat, nat)) -> bool)
    requires s.Valid() && ValidRows(s, rows) && a.Length0 == s.A && a.Length1 == s.R
    requires forall r: nat, c: nat :: r < s.A && c < s.R ==> a[r, c] == Cell(s, rows, r, c)
    ensures GridSum(a, Cells(s.A, s.R), p) == Total(CellKeys(s, rows), Vals(rows), p).loss
  {
    hide GridSum, GroupTotal, Total;
    var cells, keys := Cells(s.A, s.R), CellKeys(s, rows);
    GridIsGroups(s, rows, a, cells, p);
    forall i | 0 <= i < |keys| ensures keys[i] in cells {
      assert s.rlzId[rows[i].eid] < s.R;
    }
    GroupingConserves(cells, keys, Vals(rows), p);
  }

  lemma {:induction false} TablesUnderK(s: Setup, tasks: seq<seq<Output>>, li: nat, events: nat -> bool)
    requires s.Valid() && ValidTasks(s, tasks) && li < s.L
    ensures TableTotal(Tables(s, tasks), li, UnderK(s, events)) == RowTotal(TaskRows(tasks, li), OfEvents(events))
  {
    hide LossTable, UnderK, OfEvents, RowTotal, TableTotal, ValidRows;
    if tasks == [] {
      NothingUnderK(li, UnderK(s, events), OfEvents(events));
    } else {
      var n := |tasks| - 1;
      assert ValidTasks(s, tasks[..n]);
      TablesUnderK(s, tasks[..n], li, events);
      TotalUnderK(s, tasks[n], li, events);
      TableTotalAppend(Tables(s, tasks[..n]), LossTable(s, tasks[n]), li, UnderK(s, events));
      RowTotalAppend(TaskRows(tasks[..n], li), RowsOf(tasks[n], li), OfEvents(events));
    }
  }

  lemma {:induction false} NothingUnderK(li: nat, q: (nat, nat) -> bool, p: Row -> bool)
    ensures TableTotal([], li, q) == RowTotal([], p)
  {
  }

  lemma {:induction false} RowTotalAppend(a: seq<Row>, b: seq<Row>, p: Row -> bool)
    ensures RowTotal(a + b, p) == RowTotal(a, p).Plus(RowTotal(b, p))
  {
    assert Vals(a + b) == Vals(a) + Vals(b);
    TotalAppend(a, Vals(a), b, Vals(b), p);
  }

  function AnyCell(): ((nat, nat)) -> bool {
    (k: (nat, nat)) => true
  }

  function InColumn(c: nat): ((nat, nat)) -> bool {
    (k: (nat, nat)) => k.1 == c
  }

  /** Before any scaling, whatever was processed: for each loss type the average losses over
      all assets and columns add up to the event losses stored under the total key. */
  lemma {:induction false} AggregationsAgree(lc: LossCalculator, li: nat)
    requires lc.Valid() && li < lc.s.L
    ensures GridSum(lc.avgLosses[li], Cells(lc.s.A, lc.s.R), AnyCell()) ==
            TableTotal(lc.riskByEvent, li, UnderK(lc.s, AllEvents())).loss
  {
    hide Cell, GridSum, TableTotal, Tables, TaskRows;
    var rows := TaskRows(lc.tasks, li);
    GridIsRows(lc.s, rows, lc.avgLosses[li], AnyCell());
    TablesUnderK(lc.s, lc.tasks, li, AllEvents());
    TotalCongruence(CellKeys(lc.s, rows), rows, Vals(rows), AnyCell(), OfEvents(AllEvents()));
  }

  // ----- asset by asset

  function OfAsset(a: nat): Row -> bool {
    (r: Row) => r.aid == a
  }

  function OfAssetAndRlz(rlzId: seq<nat>, a: nat, c: nat): Row -> bool {
    (r: Row) => r.aid == a && r.eid < |rlzId| && rlzId[r.eid] == c
  }

  function InRow(a: nat): ((nat, nat)) -> bool {
    (k: (nat, nat)) => k.0 == a
  }

  ghost predicate HasTables(outputs: seq<Output>, li: nat) {
    forall o :: 0 <= o < |outputs| ==> li < |outputs[o]|
  }

  /** One more output adds the rows of its table. */
  lemma {:induction false} RowsOfSnoc(outputs: seq<Output>, out: Output, li: nat)
    requires HasTables(outputs, li) && li < |out|
    ensures HasTables(outputs + [out], li) && RowsOf(outputs + [out], li) == RowsOf(outputs, li) + out[li]
  {
    assert (outputs + [out])[..|outputs|] == outputs;
  }

  /** The rows of the outputs are those of each of them. */
  lemma {:induction false} RowsOfAppend(a: seq<Output>, b: seq<Output>, li: nat)
    requires HasTables(a, li) && HasTables(b, li)
    ensures HasTables(a + b, li) && RowsOf(a + b, li) == RowsOf(a, li) + RowsOf(b, li)
  {
    hide RowsOf;
    if b == [] {
      assert a + b == a;
      NoRowsOf(li);
    } else {
      var n := |b| - 1;
      RowsOfAppend(a, b[..n], li);
      RowsOfSnoc(a + b[..n], b[n], li);
      RowsOfSnoc(b[..n], b[n], li);
      assert a + b == (a + b[..n]) + [b[n]] && b == b[..n] + [b[n]];
    }
  }

  lemma {:induction false} NoRowsOf(li: nat)
    ensures RowsOf([], li) == []
  {
  }

  ghost predicate AllHaveTables(tasks: seq<seq<Output>>, li: nat) {
    forall t, o :: 0 <= t < |tasks| && 0 <= o < |tasks[t]| ==> li < |tasks[t][o]|
  }

  /** The rows of the tasks are those of all their outputs. */
  lemma {:induction false} TaskRowsAre(tasks: seq<seq<Output>>, li: nat)
    requires AllHaveTables(tasks, li)
    ensures HasTables(Concat(tasks), li) && TaskRows(tasks, li) == RowsOf(Concat(tasks), li)
  {
    if tasks == [] {
    } else {
      var n := |tasks| - 1;
      assert tasks == tasks[..n] + [tasks[n]];
      TaskRowsAre(tasks[..n], li);
      ConcatAppend(tasks[..n], [tasks[n]]);
      assert [tasks[n]][1..] == [] && Concat([tasks[n]]) == tasks[n];
      RowsOfAppend(Concat(tasks[..n]), tasks[n], li);
    }
  }

  /** Whatever was processed, the row of an asset adds up to the losses of that asset. */
  lemma {:induction false} AssetTotals(lc: LossCalculator, li: nat, a: nat)
    requires lc.Valid() && li < lc.s.L && a < lc.s.A
    ensures GridSum(lc.avgLosses[li], Cells(lc.s.A, lc.s.R), InRow(a)) ==
            RowTotal(TaskRows(lc.tasks, li), OfAsset(a)).loss
  {
    hide Cell, GridSum, Tables, TaskRows;
    var rows := TaskRows(lc.tasks, li);
    GridIsRows(lc.s, rows, lc.avgLosses[li], InRow(a));
    TotalCongruence(CellKeys(lc.s, rows), rows, Vals(rows), InRow(a), OfAsset(a));
  }

  /** All the events belong to the same realization. */
  ghost predicate SameRlz(rlzId: seq<nat>) {
    rlzId != [] && forall e :: 0 <= e < |rlzId| ==> rlzId[e] == rlzId[0]
  }

  lemma {:induction false} SameRlzIff(rlzId: seq<nat>)
    ensures SameRlz(rlzId) <==> |Unique(rlzId)| == 1
  {
    var u := Unique(rlzId);
    if |u| == 1 {
      OneRealization(rlzId);
    }
    if SameRlz(rlzId) {
      assert rlzId[0] in u;
      forall i | 0 <= i < |u| ensures u[i] == rlzId[0] {
        assert u[i] in rlzId;
      }
      OneValue(u, rlzId[0]);
      assert |u| > 0;
    }
  }

  lemma {:induction false} OneValue(u: seq<nat>, x: nat)
    requires Distinct(u) && forall i :: 0 <= i < |u| ==> u[i] == x
    ensures |u| <= 1
  {
    if |u| > 1 {
      FirstTwo(u);
    }
  }

  lemma {:induction false} FirstTwo(u: seq<nat>)
    requires Distinct(u) && |u| > 1
    ensures u[0] != u[1]
  {
  }

  /** Each average is the sum of the losses of its asset: in its realization if the events belong to
      several of them, otherwise (or when the realizations are collected) all in column 0. */
  lemma {:induction false} AssetCell(lc: LossCalculator, li: nat, a: nat, c: nat)
    requires lc.Valid() && li < lc.s.L && a < lc.s.A && c < lc.s.R
    ensures var s, rows, x := lc.s, TaskRows(lc.tasks, li), lc.avgLosses[li][a, c];
      if s.collectRlzs || SameRlz(s.rlzId) then
        x == if c == 0 then RowTotal(rows, OfAsset(a)).loss else 0.0
      else
        x == RowTotal(rows, OfAssetAndRlz(s.rlzId, a, c)).loss
  {
    hide Tables, TaskRows, Unique, RowTotal;
    var s, rows := lc.s, TaskRows(lc.tasks, li);
    SameRlzIff(s.rlzId);
    RowCell(s, rows, a, c);
  }

  lemma {:induction false} RowCell(s: Setup, rows: seq<Row>, a: nat, c: nat)
    requires ValidRows(s, rows)
    ensures Cell(s, rows, a, c) ==
      if s.collectRlzs || |Unique(s.rlzId)| == 1 then
        if c == 0 then RowTotal(rows, OfAsset(a)).loss else 0.0
      else
        RowTotal(rows, OfAssetAndRlz(s.rlzId, a, c)).loss
  {
    hide Unique, KeySum, Total;
    var keys := CellKeys(s, rows);
    if s.collectRlzs || |Unique(s.rlzId)| == 1 {
      if c == 0 {
        KeySumIsTotal(keys, Vals(rows), (a, c), InRow(a));
        TotalCongruence(keys, rows, Vals(rows), InRow(a), OfAsset(a));
      } else {
        NoKeySum(keys, Vals(rows), (a, c));
      }
    } else {
      var p := (k: (nat, nat)) => k == (a, c);
      KeySumIsTotal(keys, Vals(rows), (a, c), p);
      TotalCongruence(keys, rows, Vals(rows), p, OfAssetAndRlz(s.rlzId, a, c));
    }
  }

  // ----- realization by realization

  function RlzEvents(s: Setup, c: nat): nat -> bool {
    (e: nat) => e < |s.rlzId| && s.rlzId[e] == c
  }

  /** The column of a realization adds up to the losses under K of its events. */
  ghost predicate ColumnAgrees(lc: LossCalculator, li: nat, c: nat)
    requires lc.Valid() && li < lc.s.L
    reads lc, lc.avgLosses
  {
    GridSum(lc.avgLosses[li], Cells(lc.s.A, lc.s.R), InColumn(c)) ==
    TableTotal(lc.riskByEvent, li, UnderK(lc.s, RlzEvents(lc.s, c))).loss
  }

  lemma {:induction false} ColumnIsRows(lc: LossCalculator, li: nat, c: nat)
    requires lc.Valid() && li < lc.s.L
    ensures var s, rows := lc.s, TaskRows(lc.tasks, li);
      ColumnAgrees(lc, li, c) <==>
      Total(CellKeys(s, rows), Vals(rows), InColumn(c)).loss == RowTotal(rows, OfEvents(RlzEvents(s, c))).loss
  {
    hide Cell, GridSum, TableTotal, Tables, TaskRows, InColumn, UnderK, OfEvents, RlzEvents;
    GridIsRows(lc.s, TaskRows(lc.tasks, li), lc.avgLosses[li], InColumn(c));
    TablesUnderK(lc.s, lc.tasks, li, RlzEvents(lc.s, c));
  }

  lemma {:induction false} OneRealization(rlzId: seq<nat>)
    requires |Unique(rlzId)| == 1
    ensures rlzId != [] && forall e :: 0 <= e < |rlzId| ==> rlzId[e] == rlzId[0]
  {
    var u := Unique(rlzId);
    assert u[0] in rlzId;
    assert forall e :: 0 <= e < |rlzId| ==> rlzId[e] in u && rlzId[e] == u[0];
  }

  /** When the realizations are not collected, every column agrees with its realization
      exactly when the events belong to several realizations, or to realization 0, or the
      losses add up to zero: the losses of a single realization r > 0 are put in column 0. */
  lemma {:induction false} ColumnsAgreeIff(lc: LossCalculator, li: nat)
    requires lc.Valid() && li < lc.s.L && !lc.s.collectRlzs
    ensures (forall c: nat :: c < lc.s.R ==> ColumnAgrees(lc, li, c)) <==>
            |Unique(lc.s.rlzId)| != 1 || lc.s.rlzId[0] == 0 ||
            RowTotal(TaskRows(lc.tasks, li), OfEvents(AllEvents())).loss == 0.0
  {
    hide GridSum, TableTotal, Tables, TaskRows, ColumnAgrees, Cell;
    var s, rows := lc.s, TaskRows(lc.tasks, li);
    assert ValidRows(s, rows);
    var keys := CellKeys(s, rows);
    forall c: nat ensures ColumnAgrees(lc, li, c) <==>
      Total(keys, Vals(rows), InColumn(c)).loss == RowTotal(rows, OfEvents(RlzEvents(s, c))).loss
    {
      ColumnIsRows(lc, li, c);
    }
    if |Unique(s.rlzId)| != 1 {
      ColumnsSeparate(s, rows);
    } else {
      OneRealization(s.rlzId);
      ColumnsMerged(s, rows);
    }
  }

  /** With one event, of the second of two realizations, its loss goes to the first column. */
  lemma {:induction false} ColumnWitness()
    ensures var s := Setup(1, 2, 1, 0, [], [1], false);
      s.Valid() && Column(s, 0) == 0 && CellKeys(s, [Row(0, 0, 0.0, 1.0)]) == [(0, 0)]
  {
    var s := Setup(1, 2, 1, 0, [], [1], false);
    assert Unique(s.rlzId) == [1] by { assert s.rlzId[..0] == []; }
    hide Unique;
    assert Column(s, 0) == 0;
    var rows := [Row(0, 0, 0.0, 1.0)];
    assert |CellKeys(s, rows)| == 1 && CellKeys(s, rows)[0] == (0, 0);
  }

  lemma {:induction false} ColumnsSeparate(s: Setup, rows: seq<Row>)
    requires s.Valid() && ValidRows(s, rows) && !s.collectRlzs && |Unique(s.rlzId)| != 1
    ensures forall c: nat ::
      Total(CellKeys(s, rows), Vals(rows), InColumn(c)) == RowTotal(rows, OfEvents(RlzEvents(s, c)))
  {
    forall c: nat
      ensures Total(CellKeys(s, rows), Vals(rows), InColumn(c)) == RowTotal(rows, OfEvents(RlzEvents(s, c)))
    {
      TotalCongruence(CellKeys(s, rows), rows, Vals(rows), InColumn(c), OfEvents(RlzEvents(s, c)));
    }
  }

  lemma {:induction false} ColumnsMerged(s: Setup, rows: seq<Row>)
    requires s.Valid() && ValidRows(s, rows) && |Unique(s.rlzId)| == 1
    requires s.rlzId != [] && forall e :: 0 <= e < |s.rlzId| ==> s.rlzId[e] == s.rlzId[0]
    ensures var t := RowTotal(rows, OfEvents(AllEvents())).loss;
      (forall c: nat :: c < s.R ==>
        Total(CellKeys(s, rows), Vals(rows), InColumn(c)).loss == RowTotal(rows, OfEvents(RlzEvents(s, c))).loss)
      <==> s.rlzId[0] == 0 || t == 0.0
  {
    var keys, all := CellKeys(s, rows), OfEvents(AllEvents());
    assert 0 <= s.rlzId[0] < s.R;
    forall c: nat
      ensures Total(keys, Vals(rows), InColumn(c)) == if c == 0 then RowTotal(rows, all) else ZERO
      ensures RowTotal(rows, OfEvents(RlzEvents(s, c))) == if c == s.rlzId[0] then RowTotal(rows, all) else ZERO
    {
      if c == 0 {
        TotalCongruence(keys, rows, Vals(rows), InColumn(c), all);
      } else {
        TotalNone(keys, Vals(rows), InColumn(c));
      }
      if c == s.rlzId[0] {
        TotalCongruence(rows, rows, Vals(rows), OfEvents(RlzEvents(s, c)), all);
      } else {
        TotalNone(rows, Vals(rows), OfEvents(RlzEvents(s, c)));
      }
    }
    hide Total, RowTotal, InColumn, OfEvents, RlzEvents, AllEvents, CellKeys;
    assert s.rlzId[0] != 0 ==>
      Total(keys, Vals(rows), InColumn(0)).loss == RowTotal(rows, all).loss
        && RowTotal(rows, OfEvents(RlzEvents(s, 0))).loss == 0.0;
  }
}

/** The rows of one event. */
module EventTables {
  // What the tables of several tasks hold together: the totals of one event depend on its rows,
  // and tasks with disjoint events give a table without duplicates.

  import opened Aggregate
  import opened Losses
  import opened EventBasedRisk
  import R = Reaggregate

  function EventRows(rows: seq<Row>, e: nat): seq<Row> {
    if rows == [] then []
    else
      var n := |rows| - 1;
      if rows[n].eid == e then EventRows(rows[..n], e) + [rows[n]] else EventRows(rows[..n], e)
  }

  lemma {:induction false} EventRowsAppend(a: seq<Row>, b: seq<Row>, e: nat)
    ensures EventRows(a + b, e) == EventRows(a, e) + EventRows(b, e)
  {
    if b == [] {
      assert a + b == a;
    } else {
      var n := |b| - 1;
      assert (a + b)[..|a + b| - 1] == a + b[..n];
      EventRowsAppend(a, b[..n], e);
    }
  }

  // ----- which rows matter for one entry of the table

  lemma {:induction false} EventRowsValid(s: Setup, rows: seq<Row>, e: nat)
    requires ValidRows(s, rows)
    ensures ValidRows(s, EventRows(rows, e))
  {
    if rows != [] {
      EventRowsValid(s, rows[..|rows| - 1], e);
    }
  }

  lemma {:induction false} RowTotalOfEvent(rows: seq<Row>, e: nat, p: Row -> bool)
    requires forall r :: p(r) ==> r.eid == e
    ensures RowTotal(rows, p) == RowTotal(EventRows(rows, e), p)
  {
    if rows != [] {
      var n := |rows| - 1;
      RowTotalOfEvent(rows[..n], e, p);
      assert Vals(rows)[..n] == Vals(rows[..n]);
      if rows[n].eid == e {
        RowTotalSnoc(EventRows(rows[..n], e), rows[n], p);
      }
    }
  }

  lemma {:induction false} RowTotalSnoc(rows: seq<Row>, r: Row, p: Row -> bool)
    ensures RowTotal(rows + [r], p) ==
      if p(r) then RowTotal(rows, p).Plus(Pair(r.variance, r.loss)) else RowTotal(rows, p)
  {
    assert (rows + [r])[..|rows|] == rows && Vals(rows + [r])[..|rows|] == Vals(rows);
  }

  /** What some rows put under one (event, key) pair. */
  function Amount(s: Setup, rows: seq<Row>, e: nat, k: nat): Pair
    requires s.Valid() && ValidRows(s, rows)
  {
    RowTotal(rows, (r: Row) => At(e, k)(r.eid, s.K)).Plus(FamilyMatches(s, rows, |s.aggids|, At(e, k)))
  }

  lemma {:induction false} FamilyMatchesOfEvent(s: Setup, rows: seq<Row>, n: nat, e: nat, k: nat)
    requires s.Valid() && ValidRows(s, rows) && n <= |s.aggids|
    ensures ValidRows(s, EventRows(rows, e))
    ensures FamilyMatches(s, rows, n, At(e, k)) == FamilyMatches(s, EventRows(rows, e), n, At(e, k))
  {
    EventRowsValid(s, rows, e);
    hide RowTotal, EventRows, ValidRows;
    if n > 0 {
      FamilyMatchesOfEvent(s, rows, n - 1, e, k);
      var f := s.aggids[n - 1];
      RowTotalOfEvent(rows, e, (r: Row) => r.aid < |f| && At(e, k)(r.eid, f[r.aid]));
    }
  }

  lemma {:induction false} AmountOfEvent(s: Setup, rows: seq<Row>, e: nat, k: nat)
    requires s.Valid() && ValidRows(s, rows)
    ensures ValidRows(s, EventRows(rows, e)) && Amount(s, rows, e, k) == Amount(s, EventRows(rows, e), e, k)
  {
    hide RowTotal, EventRows, FamilyMatches;
    FamilyMatchesOfEvent(s, rows, |s.aggids|, e, k);
    RowTotalOfEvent(rows, e, (r: Row) => At(e, k)(r.eid, s.K));
  }

  lemma {:induction false} NoAmount(s: Setup, n: nat, e: nat, k: nat)
    requires s.Valid() && n <= |s.aggids|
    ensures FamilyMatches(s, [], n, At(e, k)) == ZERO
  {
    if n > 0 {
      NoAmount(s, n - 1, e, k);
    }
  }

  lemma {:induction false} NothingAmounts(s: Setup, e: nat, k: nat)
    requires s.Valid()
    ensures ValidRows(s, []) && Amount(s, [], e, k) == ZERO
  {
    hide FamilyMatches, Setup.Valid, At;
    assert ValidRows(s, []);
    NoAmount(s, |s.aggids|, e, k);
  }

  lemma {:induction false} TableAmount(s: Setup, outputs: seq<Output>, li: nat, e: nat, k: nat)
    requires s.Valid() && ValidOutputs(s, outputs) && li < s.L
    ensures ValidRows(s, RowsOf(outputs, li))
    ensures TableTotal(LossTable(s, outputs), li, At(e, k)) == Amount(s, RowsOf(outputs, li), e, k)
  {
    hide TableTotal, LossTable, RowTotal, FamilyMatches;
    PackedKeysAggregate(s, outputs, li, At(e, k));
  }

  lemma {:induction false} FamilyMatchesAppend(s: Setup, a: seq<Row>, b: seq<Row>, n: nat, e: nat, k: nat)
    requires s.Valid() && ValidRows(s, a) && ValidRows(s, b) && n <= |s.aggids|
    ensures FamilyMatches(s, a + b, n, At(e, k)) ==
      FamilyMatches(s, a, n, At(e, k)).Plus(FamilyMatches(s, b, n, At(e, k)))
  {
    hide RowTotal;
    if n > 0 {
      FamilyMatchesAppend(s, a, b, n - 1, e, k);
      var f := s.aggids[n - 1];
      RowTotalAppend(a, b, (r: Row) => r.aid < |f| && At(e, k)(r.eid, f[r.aid]));
    }
  }

  lemma {:induction false} AmountAppend(s: Setup, a: seq<Row>, b: seq<Row>, e: nat, k: nat)
    requires s.Valid() && ValidRows(s, a) && ValidRows(s, b)
    ensures Amount(s, a + b, e, k) == Amount(s, a, e, k).Plus(Amount(s, b, e, k))
  {
    hide RowTotal, FamilyMatches;
    FamilyMatchesAppend(s, a, b, |s.aggids|, e, k);
    RowTotalAppend(a, b, (r: Row) => At(e, k)(r.eid, s.K));
  }

  /** The table of some tasks holds under each (event, key) pair what all their rows put there. */
  lemma {:induction false} TablesAmount(s: Setup, tasks: seq<seq<Output>>, li: nat, e: nat, k: nat)
    requires s.Valid() && ValidTasks(s, tasks) && li < s.L
    ensures ValidRows(s, TaskRows(tasks, li))
    ensures TableTotal(Tables(s, tasks), li, At(e, k)) == Amount(s, TaskRows(tasks, li), e, k)
  {
    hide TableTotal, LossTable, Amount, RowsOf, ValidRows;
    TaskRowsValid(s, tasks, li);
    if tasks == [] {
      NothingAmounts(s, e, k);
      AbsentIsZero([], li, e, k);
    } else {
      var n := |tasks| - 1;
      TablesAmount(s, tasks[..n], li, e, k);
      TableAmount(s, tasks[n], li, e, k);
      TableTotalAppend(Tables(s, tasks[..n]), LossTable(s, tasks[n]), li, At(e, k));
      AmountAppend(s, TaskRows(tasks[..n], li), RowsOf(tasks[n], li), e, k);
    }
  }

  /** The table of some tasks has the rows of the tables of each of them. */
  lemma {:induction false} TablesRows(s: Setup, tasks: seq<seq<Output>>, r: LossRow)
    requires s.Valid() && ValidTasks(s, tasks)
    ensures r in Tables(s, tasks) <==> exists t :: 0 <= t < |tasks| && r in LossTable(s, tasks[t])
  {
    hide LossTable;
    if tasks != [] {
      var n := |tasks| - 1;
      TablesRows(s, tasks[..n], r);
      assert forall t :: 0 <= t < n ==> tasks[..n][t] == tasks[t];
    }
  }

  // ----- tasks with disjoint events

  /** Some row of the outputs is of event e. */
  ghost predicate HasRow(s: Setup, outputs: seq<Output>, e: nat)
    requires ValidOutputs(s, outputs)
  {
    exists li: nat :: li < s.L && EventRows(RowsOf(outputs, li), e) != []
  }

  ghost predicate DisjointEvents(s: Setup, tasks: seq<seq<Output>>)
    requires ValidTasks(s, tasks)
  {
    forall a: nat, b: nat, e: nat :: a < b < |tasks| && HasRow(s, tasks[a], e) ==> !HasRow(s, tasks[b], e)
  }

  ghost predicate InRanges(s: Setup, t: seq<LossRow>) {
    forall i :: 0 <= i < |t| ==> t[i].eventId < |s.rlzId| && t[i].aggId <= s.K && t[i].lossId < s.L
  }

  /** The events of the table are events of the rows. */
  lemma {:induction false} TableEvents(s: Setup, outputs: seq<Output>)
    requires s.Valid() && ValidOutputs(s, outputs)
    ensures var t := LossTable(s, outputs);
      Proper(t) && InRanges(s, t) && forall i :: 0 <= i < |t| ==> HasRow(s, outputs, t[i].eventId)
  {
    hide LossTable, TableTotal, Amount, EventRows, RowsOf;
    var t := LossTable(s, outputs);
    LossTableProper(s, outputs);
    LossTableInRange(s, outputs);
    forall i | 0 <= i < |t| ensures HasRow(s, outputs, t[i].eventId) {
      var li, e, k := t[i].lossId, t[i].eventId, t[i].aggId;
      PresentIsTotal(t, i);
      TableAmount(s, outputs, li, e, k);
      AmountOfEvent(s, RowsOf(outputs, li), e, k);
      NothingAmounts(s, e, k);
    }
  }

  ghost predicate SomeHasRow(s: Setup, tasks: seq<seq<Output>>, e: nat)
    requires ValidTasks(s, tasks)
  {
    exists a: nat :: a < |tasks| && HasRow(s, tasks[a], e)
  }

  lemma {:induction false} ProperAppend(a: seq<LossRow>, b: seq<LossRow>)
    requires Proper(a) && Proper(b) && forall i, j :: 0 <= i < |a| && 0 <= j < |b| ==> !SameId(a[i], b[j])
    ensures Proper(a + b)
  {
  }

  lemma {:induction false} OthersHaveNoRow(s: Setup, tasks: seq<seq<Output>>, n: nat, e: nat)
    requires ValidTasks(s, tasks) && DisjointEvents(s, tasks) && n < |tasks|
    requires SomeHasRow(s, tasks[..n], e)
    ensures !HasRow(s, tasks[n], e)
  {
    hide HasRow, ValidOutputs;
    var a: nat :| a < n && HasRow(s, tasks[..n][a], e);
    assert tasks[..n][a] == tasks[a];
  }

  lemma {:induction false} FirstTasks(s: Setup, tasks: seq<seq<Output>>, n: nat)
    requires ValidTasks(s, tasks) && n < |tasks|
    ensures ValidTasks(s, tasks[..n])
    ensures DisjointEvents(s, tasks) ==> DisjointEvents(s, tasks[..n])
    ensures forall e: nat :: SomeHasRow(s, tasks[..n], e) || HasRow(s, tasks[n], e) ==> SomeHasRow(s, tasks, e)
  {
    hide HasRow, ValidOutputs;
    assert forall a: nat :: a < n ==> tasks[..n][a] == tasks[a];
  }

  /** All the rows of the table are of events that the tasks have. */
  ghost predicate Covered(s: Setup, tasks: seq<seq<Output>>, t: seq<LossRow>)
    requires ValidTasks(s, tasks)
  {
    forall i :: 0 <= i < |t| ==> SomeHasRow(s, tasks, t[i].eventId)
  }

  lemma {:induction false} AppendRows(s: Setup, tasks: seq<seq<Output>>, a: seq<LossRow>, b: seq<LossRow>)
    requires ValidTasks(s, tasks) && InRanges(s, a) && InRanges(s, b) && Covered(s, tasks, a) && Covered(s, tasks, b)
    ensures InRanges(s, a + b) && Covered(s, tasks, a + b)
  {
    hide SomeHasRow, ValidTasks;
  }

  lemma {:induction false} LastTask(s: Setup, tasks: seq<seq<Output>>, n: nat, a: seq<LossRow>, b: seq<LossRow>)
    requires ValidTasks(s, tasks) && DisjointEvents(s, tasks) && n < |tasks|
    requires Proper(a) && Covered(s, tasks[..n], a)
    requires Proper(b) && forall j :: 0 <= j < |b| ==> HasRow(s, tasks[n], b[j].eventId)
    ensures Proper(a + b)
  {
    hide HasRow, SomeHasRow, ValidTasks, ValidOutputs, DisjointEvents;
    forall i, j | 0 <= i < |a| && 0 <= j < |b| ensures !SameId(a[i], b[j]) {
      OthersHaveNoRow(s, tasks, n, a[i].eventId);
    }
    ProperAppend(a, b);
  }

  lemma {:induction false} TablesProper(s: Setup, tasks: seq<seq<Output>>)
    requires s.Valid() && ValidTasks(s, tasks) && DisjointEvents(s, tasks)
    ensures Proper(Tables(s, tasks)) && InRanges(s, Tables(s, tasks)) && Covered(s, tasks, Tables(s, tasks))
  {
    if tasks != [] {
      var n := |tasks| - 1;
      FirstTasks(s, tasks, n);
      var a, b := Tables(s, tasks[..n]), LossTable(s, tasks[n]);
      assert Tables(s, tasks) == a + b;
      hide Tables, LossTable, HasRow, SomeHasRow, ValidTasks, DisjointEvents, Setup.Valid, Proper, InRanges;
      TablesProper(s, tasks[..n]);
      TableEvents(s, tasks[n]);
      LastTask(s, tasks, n, a, b);
      AppendRows(s, tasks, a, b);
    }
  }

  // ----- the size of the table

  /** The numbers below n. */
  function Below(n: nat): (b: set<nat>)
    ensures |b| == n && forall x: nat :: x in b <==> x < n
  {
    if n == 0 then {} else Below(n - 1) + {n - 1}
  }

  /** The identities of some rows, as numbers. */
  function Ids(s: Setup, t: seq<LossRow>): set<nat> {
    set i | 0 <= i < |t| :: Id(s, t[i])
  }

  function Id(s: Setup, r: LossRow): nat {
    R.Ravel([r.eventId, r.aggId, r.lossId], Limits(s))
  }

  function Limits(s: Setup): (l: seq<nat>)
    ensures |l| == 3
  {
    [|s.rlzId|, s.K + 1, s.L]
  }

  lemma {:induction false} IdFacts(s: Setup, t: seq<LossRow>)
    requires NoDuplicates(t) && InRanges(s, t)
    ensures forall i :: 0 <= i < |t| ==> Id(s, t[i]) < R.Prod(Limits(s))
    ensures forall i, j :: 0 <= i < j < |t| ==> Id(s, t[i]) != Id(s, t[j])
  {
    hide R.Ravel, R.Prod;
    forall i | 0 <= i < |t|
      ensures Id(s, t[i]) < R.Prod(Limits(s))
      ensures Id(s, t[i]) < R.Prod(Limits(s)) ==>
        R.Unravel(Id(s, t[i]), Limits(s)) == [t[i].eventId, t[i].aggId, t[i].lossId]
    {
      R.RavelFacts([t[i].eventId, t[i].aggId, t[i].lossId], Limits(s));
    }
    forall i, j | 0 <= i < j < |t| ensures Id(s, t[i]) != Id(s, t[j]) {
      assert !SameId(t[i], t[j]);
      var x, y := [t[i].eventId, t[i].aggId, t[i].lossId], [t[j].eventId, t[j].aggId, t[j].lossId];
      assert x[0] != y[0] || x[1] != y[1] || x[2] != y[2];
    }
  }

  lemma {:induction false} IdsCount(s: Setup, t: seq<LossRow>)
    requires forall i, j :: 0 <= i < j < |t| ==> Id(s, t[i]) != Id(s, t[j])
    ensures |Ids(s, t)| == |t|
  {
    hide Id;
    if t == [] {
      assert Ids(s, t) == {};
    } else {
      var n := |t| - 1;
      IdsCount(s, t[..n]);
      assert Ids(s, t) == Ids(s, t[..n]) + {Id(s, t[n])} by {
        assert forall i :: 0 <= i < n ==> t[..n][i] == t[i];
      }
      assert Id(s, t[n]) !in Ids(s, t[..n]);
    }
  }

  lemma {:induction false} SubsetCount(a: set<nat>, b: set<nat>)
    requires a <= b
    ensures |a| <= |b|
  {
    assert b == a + (b - a);
  }

  lemma {:induction false} LimitsProduct(s: Setup)
    ensures R.Prod(Limits(s)) == |s.rlzId| * (s.K + 1) * s.L
  {
    var l := Limits(s);
    assert l[1..] == [s.K + 1, s.L] && l[1..][1..] == [s.L] && [s.L][1..] == [];
    assert R.Prod([s.L]) == s.L;
    assert R.Prod(l[1..]) == (s.K + 1) * s.L;
    Regroup(|s.rlzId|, s.K + 1, s.L);
  }

  lemma {:induction false} Regroup(a: nat, b: nat, c: nat)
    ensures a * (b * c) == a * b * c
  {
  }

  /** The checks at the end of the calculation pass for tasks with disjoint events: at most one
      row for each event, key and loss type, and not more rows than there are such triples. */
  lemma {:induction false} ChecksPass(s: Setup, tasks: seq<seq<Output>>)
    requires s.Valid() && ValidTasks(s, tasks) && DisjointEvents(s, tasks)
    ensures NoDuplicates(Tables(s, tasks)) && |Tables(s, tasks)| <= |s.rlzId| * (s.K + 1) * s.L
  {
    hide Id, Tables, Limits, R.Prod;
    var t := Tables(s, tasks);
    TablesProper(s, tasks);
    IdFacts(s, t);
    IdsCount(s, t);
    SubsetCount(Ids(s, t), Below(R.Prod(Limits(s))));
    LimitsProduct(s);
  }

  // ----- rows in another order

  lemma {:induction false} CountOfEvent(rows: seq<Row>, r: Row)
    ensures multiset(EventRows(rows, r.eid))[r] == multiset(rows)[r]
  {
    if rows != [] {
      var n := |rows| - 1;
      CountOfEvent(rows[..n], r);
      assert rows == rows[..n] + [rows[n]];
    }
  }

  /** The same rows for every event are the same rows. */
  lemma {:induction false} SameBag(a: seq<Row>, b: seq<Row>)
    requires forall e: nat :: EventRows(a, e) == EventRows(b, e)
    ensures multiset(a) == multiset(b)
  {
    forall r ensures multiset(a)[r] == multiset(b)[r] {
      CountOfEvent(a, r);
      CountOfEvent(b, r);
    }
  }

  lemma {:induction false} CellPermuted(s: Setup, x: seq<Row>, t: Row, y: seq<Row>, r: nat, c: nat)
    requires ValidRows(s, x + y) && ValidRows(s, [t])
    ensures ValidRows(s, x + ([t] + y))
    ensures Cell(s, x + ([t] + y), r, c) == Cell(s, x + y, r, c) + Cell(s, [t], r, c)
  {
    hide Cell;
    assert forall i :: 0 <= i < |x| ==> x[i] == (x + y)[i];
    assert forall i :: 0 <= i < |y| ==> y[i] == (x + y)[|x| + i];
    CellAppend(s, x, [t] + y, r, c);
    CellAppend(s, [t], y, r, c);
    CellAppend(s, x, y, r, c);
  }

  lemma {:induction false} TakeOut(a: seq<Row>, b: seq<Row>) returns (j: nat)
    requires a != [] && multiset(a) == multiset(b)
    ensures j < |b| && b[j] == a[|a| - 1] && b == b[..j] + ([b[j]] + b[j + 1..])
    ensures multiset(a[..|a| - 1]) == multiset(b[..j] + b[j + 1..])
  {
    var n := |a| - 1;
    assert a == a[..n] + [a[n]];
    assert a[n] in multiset(b);
    j :| 0 <= j < |b| && b[j] == a[n];
    assert b == b[..j] + ([b[j]] + b[j + 1..]);
    assert multiset(b) == multiset(b[..j] + b[j + 1..]) + multiset{b[j]};
    assert multiset(a) == multiset(a[..n]) + multiset{a[n]};
    assert multiset(a[..n]) == multiset(a) - multiset{a[n]};
    assert multiset(b[..j] + b[j + 1..]) == multiset(b) - multiset{b[j]};
  }

  lemma {:induction false} BagCell(s: Setup, a: seq<Row>, b: seq<Row>, r: nat, c: nat)
    requires ValidRows(s, a) && ValidRows(s, b) && multiset(a) == multiset(b)
    ensures Cell(s, a, r, c) == Cell(s, b, r, c)
  {
    hide Cell;
    if a == [] {
      assert b == [] by {
        assert |multiset(a)| == |a| && |multiset(b)| == |b|;
      }
    } else {
      var n := |a| - 1;
      var j := TakeOut(a, b);
      BagCell(s, a[..n], b[..j] + b[j + 1..], r, c);
      CellPermuted(s, a[..n], a[n], [], r, c);
      assert a[..n] + [] == a[..n] && a[..n] + ([a[n]] + []) == a;
      CellPermuted(s, b[..j], b[j], b[j + 1..], r, c);
    }
  }
}

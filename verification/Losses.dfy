/** The event loss table. */
module Losses {
  // One stream of asset losses, aggregated by event and aggregation key packed in 64 bits.

  import opened Aggregate

  const TWO32: nat := 0x1_0000_0000
  const TWO64: nat := 0x1_0000_0000_0000_0000

  /** A row of an asset loss table. */
  datatype Row = Row(aid: nat, eid: nat, variance: real, loss: real)

  /** The number of assets, realizations, loss types and aggregation keys; the families of
      aggregation identifiers by asset; the realization of each event. */
  datatype Setup = Setup(A: nat, R: nat, L: nat, K: nat, aggids: seq<seq<nat>>, rlzId: seq<nat>, collectRlzs: bool) {
    ghost predicate Valid() {
      && K < TWO32 && |rlzId| <= TWO32
      && (forall g :: 0 <= g < |aggids| ==> |aggids[g]| == A)
      && (forall g, a :: 0 <= g < |aggids| && 0 <= a < A ==> aggids[g][a] < K)
      && (forall e :: 0 <= e < |rlzId| ==> rlzId[e] < R)
      && (collectRlzs ==> R == 1)
    }
  }

  ghost predicate ValidRows(s: Setup, rows: seq<Row>) {
    forall i :: 0 <= i < |rows| ==> rows[i].aid < s.A && rows[i].eid < |s.rlzId|
  }

  /** One table per loss type; a missing table is an empty one. */
  type Output = seq<seq<Row>>

  ghost predicate ValidOutputs(s: Setup, outputs: seq<Output>) {
    forall o :: 0 <= o < |outputs| ==>
      |outputs[o]| == s.L && forall li :: 0 <= li < s.L ==> ValidRows(s, outputs[o][li])
  }

  function Vals(rows: seq<Row>): (v: seq<Pair>)
    ensures |v| == |rows| && forall i :: 0 <= i < |v| ==> v[i].variance == rows[i].variance && v[i].loss == rows[i].loss
  {
    seq(|rows|, i requires 0 <= i < |rows| => Pair(rows[i].variance, rows[i].loss))
  }

  // ----- packed keys

  /** `eid * 2**32 + kid` in unsigned 64-bit arithmetic. */
  function Pack(eid: nat, kid: nat): nat {
    (eid * TWO32 % TWO64 + kid) % TWO64
  }

  /** `divmod(key, 2**32)`. */
  function Unpack(key: nat): (nat, nat) {
    (key / TWO32, key % TWO32)
  }

  /** The pair is recovered exactly when both numbers fit in 32 bits. */
  lemma {:induction false} PackIff(eid: nat, kid: nat)
    ensures Unpack(Pack(eid, kid)) == (eid, kid) <==> eid < TWO32 && kid < TWO32
  {
    if eid < TWO32 && kid < TWO32 {
      assert eid * TWO32 + kid < TWO64;
      assert (eid * TWO32 + kid) / TWO32 == eid;
    } else {
      assert Pack(eid, kid) < TWO64;
      assert Pack(eid, kid) / TWO32 < TWO32;
    }
  }

  function TotalKeys(rows: seq<Row>, K: nat): (k: seq<nat>)
    ensures |k| == |rows|
  {
    seq(|rows|, i requires 0 <= i < |rows| => Pack(rows[i].eid, K))
  }

  function FamilyKeys(rows: seq<Row>, family: seq<nat>): (k: seq<nat>)
    requires forall i :: 0 <= i < |rows| ==> rows[i].aid < |family|
    ensures |k| == |rows|
  {
    seq(|rows|, i requires 0 <= i < |rows| => Pack(rows[i].eid, family[rows[i].aid]))
  }

  // ----- fast_agg into the accumulator

  function AddGroups(acc: seq<Entry>, L: nat, li: nat, uniq: seq<nat>, sums: seq<Pair>): (r: seq<Entry>)
    requires li < L && |uniq| == |sums| && ValidAcc(acc, L)
    ensures ValidAcc(r, L)
  {
    if uniq == [] then acc
    else
      var n := |uniq| - 1;
      var r := AddGroups(acc, L, li, uniq[..n], sums[..n]);
      AddAtFacts(r, L, uniq[n], li, sums[n]);
      AddAt(r, L, uniq[n], li, sums[n])
  }

  function AddKeys(acc: seq<Entry>, L: nat, li: nat, keys: seq<nat>, values: seq<Pair>): (r: seq<Entry>)
    requires li < L && |keys| == |values| && ValidAcc(acc, L)
    ensures ValidAcc(r, L)
  {
    AddGroups(acc, L, li, Unique(keys), GroupSums(Unique(keys), keys, values))
  }

  method FastAggInto(acc: seq<Entry>, L: nat, li: nat, keys: seq<nat>, values: seq<Pair>) returns (r: seq<Entry>)
    requires li < L && |keys| == |values| && ValidAcc(acc, L)
    ensures r == AddKeys(acc, L, li, keys, values)
  {
    hide AddAt, ValidAcc;
    var uniq, sums := FastAgg2(keys, values);
    r := acc;
    for j := 0 to |uniq|
      invariant r == AddGroups(acc, L, li, uniq[..j], sums[..j])
      invariant ValidAcc(r, L)
    {
      assert uniq[..j + 1][..j] == uniq[..j] && sums[..j + 1][..j] == sums[..j];
      ValidLengths(r, L);
      r := AddAt(r, L, uniq[j], li, sums[j]);
    }
    assert uniq[..|uniq|] == uniq && sums[..|uniq|] == sums;
  }

  lemma {:induction false} AddGroupsTotal(
    acc: seq<Entry>, L: nat, li: nat, uniq: seq<nat>, keys: seq<nat>, values: seq<Pair>, lj: nat, p: nat -> bool)
    requires li < L && lj < L && |keys| == |values| && ValidAcc(acc, L)
    ensures AccTotal(AddGroups(acc, L, li, uniq, GroupSums(uniq, keys, values)), L, lj, p) ==
            if lj == li then AccTotal(acc, L, lj, p).Plus(GroupTotal(uniq, keys, values, p))
            else AccTotal(acc, L, lj, p)
  {
    if uniq != [] {
      var n := |uniq| - 1;
      var sums := GroupSums(uniq, keys, values);
      assert sums[..n] == GroupSums(uniq[..n], keys, values);
      AddGroupsTotal(acc, L, li, uniq[..n], keys, values, lj, p);
      AddAtTotal(AddGroups(acc, L, li, uniq[..n], sums[..n]), L, uniq[n], li, sums[n], lj, p);
    }
  }

  /** A call of fast_agg adds the values of its rows to its loss type, and nothing else. */
  lemma {:induction false} AddKeysTotal(
    acc: seq<Entry>, L: nat, li: nat, keys: seq<nat>, values: seq<Pair>, lj: nat, p: nat -> bool)
    requires li < L && lj < L && |keys| == |values| && ValidAcc(acc, L)
    ensures AccTotal(AddKeys(acc, L, li, keys, values), L, lj, p) ==
            if lj == li then AccTotal(acc, L, lj, p).Plus(Total(keys, values, p)) else AccTotal(acc, L, lj, p)
  {
    AddGroupsTotal(acc, L, li, Unique(keys), keys, values, lj, p);
    GroupingConserves(Unique(keys), keys, values, p);
  }

  // ----- aggreg

  /** The families before the n-th for one table. */
  function AddFamilies(acc: seq<Entry>, s: Setup, li: nat, rows: seq<Row>, n: nat): (r: seq<Entry>)
    requires li < s.L && ValidAcc(acc, s.L) && s.Valid() && ValidRows(s, rows) && n <= |s.aggids|
    ensures ValidAcc(r, s.L)
  {
    if n == 0 then acc
    else AddKeys(AddFamilies(acc, s, li, rows, n - 1), s.L, li, FamilyKeys(rows, s.aggids[n - 1]), Vals(rows))
  }

  function AddTable(acc: seq<Entry>, s: Setup, li: nat, rows: seq<Row>): (r: seq<Entry>)
    requires li < s.L && ValidAcc(acc, s.L) && s.Valid() && ValidRows(s, rows)
    ensures ValidAcc(r, s.L)
  {
    AddFamilies(AddKeys(acc, s.L, li, TotalKeys(rows, s.K), Vals(rows)), s, li, rows, |s.aggids|)
  }

  /** The loss types before the n-th of one output. */
  function AddOutput(acc: seq<Entry>, s: Setup, out: Output, n: nat): (r: seq<Entry>)
    requires ValidAcc(acc, s.L) && s.Valid() && n <= s.L == |out|
    requires forall li :: 0 <= li < s.L ==> ValidRows(s, out[li])
    ensures ValidAcc(r, s.L)
  {
    if n == 0 then acc
    else
      var r := AddOutput(acc, s, out, n - 1);
      if out[n - 1] == [] then r else AddTable(r, s, n - 1, out[n - 1])
  }

  function Accumulate(s: Setup, outputs: seq<Output>): (r: seq<Entry>)
    requires s.Valid() && ValidOutputs(s, outputs)
    ensures ValidAcc(r, s.L)
  {
    if outputs == [] then []
    else AddOutput(Accumulate(s, outputs[..|outputs| - 1]), s, outputs[|outputs| - 1], s.L)
  }

  /** All the rows of a loss type. */
  function RowsOf(outputs: seq<Output>, li: nat): seq<Row>
    requires forall o :: 0 <= o < |outputs| ==> li < |outputs[o]|
  {
    if outputs == [] then [] else RowsOf(outputs[..|outputs| - 1], li) + outputs[|outputs| - 1][li]
  }

  lemma {:induction false} RowsOfValid(s: Setup, outputs: seq<Output>, li: nat)
    requires ValidOutputs(s, outputs) && li < s.L
    ensures ValidRows(s, RowsOf(outputs, li))
  {
    if outputs != [] {
      RowsOfValid(s, outputs[..|outputs| - 1], li);
    }
  }

  function FamiliesTotal(s: Setup, rows: seq<Row>, n: nat, p: nat -> bool): Pair
    requires s.Valid() && ValidRows(s, rows) && n <= |s.aggids|
  {
    if n == 0 then ZERO
    else FamiliesTotal(s, rows, n - 1, p).Plus(Total(FamilyKeys(rows, s.aggids[n - 1]), Vals(rows), p))
  }

  /** What the rows contribute under the packed keys that satisfy p. */
  function Contribution(s: Setup, rows: seq<Row>, p: nat -> bool): Pair
    requires s.Valid() && ValidRows(s, rows)
  {
    Total(TotalKeys(rows, s.K), Vals(rows), p).Plus(FamiliesTotal(s, rows, |s.aggids|, p))
  }

  lemma {:induction false} AddFamiliesTotal(
    acc: seq<Entry>, s: Setup, li: nat, rows: seq<Row>, n: nat, lj: nat, p: nat -> bool)
    requires li < s.L && lj < s.L && ValidAcc(acc, s.L) && s.Valid() && ValidRows(s, rows) && n <= |s.aggids|
    ensures AccTotal(AddFamilies(acc, s, li, rows, n), s.L, lj, p) ==
            if lj == li then AccTotal(acc, s.L, lj, p).Plus(FamiliesTotal(s, rows, n, p)) else AccTotal(acc, s.L, lj, p)
  {
    hide AddKeys, AccTotal, Total, ValidAcc, FamilyKeys, Vals;
    if n > 0 {
      AddFamiliesTotal(acc, s, li, rows, n - 1, lj, p);
      AddKeysTotal(AddFamilies(acc, s, li, rows, n - 1), s.L, li, FamilyKeys(rows, s.aggids[n - 1]), Vals(rows), lj, p);
    }
  }

  lemma {:induction false} AddTableTotal(acc: seq<Entry>, s: Setup, li: nat, rows: seq<Row>, lj: nat, p: nat -> bool)
    requires li < s.L && lj < s.L && ValidAcc(acc, s.L) && s.Valid() && ValidRows(s, rows)
    ensures AccTotal(AddTable(acc, s, li, rows), s.L, lj, p) ==
            if lj == li then AccTotal(acc, s.L, lj, p).Plus(Contribution(s, rows, p)) else AccTotal(acc, s.L, lj, p)
  {
    hide AddKeys, AddFamilies, AccTotal, Total, FamiliesTotal, ValidAcc, ValidRows;
    var first := AddKeys(acc, s.L, li, TotalKeys(rows, s.K), Vals(rows));
    AddKeysTotal(acc, s.L, li, TotalKeys(rows, s.K), Vals(rows), lj, p);
    AddFamiliesTotal(first, s, li, rows, |s.aggids|, lj, p);
  }

  lemma {:induction false} FamiliesTotalAppend(s: Setup, a: seq<Row>, b: seq<Row>, n: nat, p: nat -> bool)
    requires s.Valid() && ValidRows(s, a) && ValidRows(s, b) && n <= |s.aggids|
    ensures FamiliesTotal(s, a + b, n, p) == FamiliesTotal(s, a, n, p).Plus(FamiliesTotal(s, b, n, p))
  {
    hide Total, FamilyKeys, Vals;
    if n > 0 {
      FamiliesTotalAppend(s, a, b, n - 1, p);
      FamilyAppend(a, b, s.aggids[n - 1], p);
    }
  }

  lemma {:induction false} FamilyAppend(a: seq<Row>, b: seq<Row>, f: seq<nat>, p: nat -> bool)
    requires forall i :: 0 <= i < |a| ==> a[i].aid < |f|
    requires forall i :: 0 <= i < |b| ==> b[i].aid < |f|
    ensures forall i :: 0 <= i < |a + b| ==> (a + b)[i].aid < |f|
    ensures Total(FamilyKeys(a + b, f), Vals(a + b), p) ==
            Total(FamilyKeys(a, f), Vals(a), p).Plus(Total(FamilyKeys(b, f), Vals(b), p))
  {
    assert FamilyKeys(a + b, f) == FamilyKeys(a, f) + FamilyKeys(b, f) && Vals(a + b) == Vals(a) + Vals(b);
    TotalAppend(FamilyKeys(a, f), Vals(a), FamilyKeys(b, f), Vals(b), p);
  }

  lemma {:induction false} ContributionAppend(s: Setup, a: seq<Row>, b: seq<Row>, p: nat -> bool)
    requires s.Valid() && ValidRows(s, a) && ValidRows(s, b)
    ensures Contribution(s, a + b, p) == Contribution(s, a, p).Plus(Contribution(s, b, p))
  {
    assert TotalKeys(a + b, s.K) == TotalKeys(a, s.K) + TotalKeys(b, s.K) && Vals(a + b) == Vals(a) + Vals(b);
    TotalAppend(TotalKeys(a, s.K), Vals(a), TotalKeys(b, s.K), Vals(b), p);
    FamiliesTotalAppend(s, a, b, |s.aggids|, p);
  }

  lemma {:induction false} NoRowsContribute(s: Setup, n: nat, p: nat -> bool)
    requires s.Valid() && n <= |s.aggids|
    ensures FamiliesTotal(s, [], n, p) == ZERO
  {
    if n > 0 {
      NoRowsContribute(s, n - 1, p);
    }
  }

  lemma {:induction false} NoContribution(s: Setup, p: nat -> bool)
    requires s.Valid()
    ensures Contribution(s, [], p) == ZERO
  {
    NoRowsContribute(s, |s.aggids|, p);
  }

  lemma {:induction false} AddOutputTotal(acc: seq<Entry>, s: Setup, out: Output, n: nat, lj: nat, p: nat -> bool)
    requires ValidAcc(acc, s.L) && s.Valid() && lj < s.L && n <= s.L == |out|
    requires forall li :: 0 <= li < s.L ==> ValidRows(s, out[li])
    ensures AccTotal(AddOutput(acc, s, out, n), s.L, lj, p) ==
            if lj < n then AccTotal(acc, s.L, lj, p).Plus(Contribution(s, out[lj], p)) else AccTotal(acc, s.L, lj, p)
  {
    hide AddTable, AccTotal, ValidAcc, ValidRows;
    if n > 0 {
      AddOutputTotal(acc, s, out, n - 1, lj, p);
      if out[n - 1] == [] {
        NoContribution(s, p);
      } else {
        AddTableTotal(AddOutput(acc, s, out, n - 1), s, n - 1, out[n - 1], lj, p);
      }
    }
  }

  lemma {:induction false} NothingAccumulated(s: Setup, li: nat, p: nat -> bool)
    requires li < s.L
    ensures AccTotal([], s.L, li, p) == ZERO
  {
  }

  /** The accumulator holds exactly what the rows of all the outputs contribute. */
  lemma {:induction false} AccumulateTotal(s: Setup, outputs: seq<Output>, li: nat, p: nat -> bool)
    requires s.Valid() && ValidOutputs(s, outputs) && li < s.L
    ensures ValidRows(s, RowsOf(outputs, li))
    ensures AccTotal(Accumulate(s, outputs), s.L, li, p) == Contribution(s, RowsOf(outputs, li), p)
  {
    hide AddOutput, AccTotal, ValidAcc, ValidRows, Contribution;
    RowsOfValid(s, outputs, li);
    if outputs == [] {
      NoContribution(s, p);
      NothingAccumulated(s, li, p);
    } else {
      var n := |outputs| - 1;
      assert ValidOutputs(s, outputs[..n]);
      RowsOfValid(s, outputs[..n], li);
      AccumulateTotal(s, outputs[..n], li, p);
      AddOutputTotal(Accumulate(s, outputs[..n]), s, outputs[n], s.L, li, p);
      ContributionAppend(s, RowsOf(outputs[..n], li), outputs[n][li], p);
    }
  }

  // ----- the event loss table

  datatype LossRow = LossRow(eventId: nat, aggId: nat, lossId: nat, value: Pair)

  /** The rows of one entry for the loss types before the n-th; zero values are skipped. */
  function EntryRows(e: Entry, n: nat): seq<LossRow>
    requires n <= |e.vals|
  {
    if n == 0 then []
    else
      var r := EntryRows(e, n - 1);
      if e.vals[n - 1] == ZERO then r
      else r + [LossRow(Unpack(e.key).0, Unpack(e.key).1, n - 1, e.vals[n - 1])]
  }

  function TableOf(acc: seq<Entry>, L: nat): seq<LossRow>
    requires forall i :: 0 <= i < |acc| ==> |acc[i].vals| == L
  {
    if acc == [] then [] else EntryRows(acc[0], L) + TableOf(acc[1..], L)
  }

  /** The sum of the table over a loss type and the (event, agg) pairs that satisfy q. */
  function TableTotal(t: seq<LossRow>, li: nat, q: (nat, nat) -> bool): Pair {
    if t == [] then ZERO
    else
      var r := TableTotal(t[1..], li, q);
      if t[0].lossId == li && q(t[0].eventId, t[0].aggId) then t[0].value.Plus(r) else r
  }

  lemma {:induction false} TableTotalAppend(a: seq<LossRow>, b: seq<LossRow>, li: nat, q: (nat, nat) -> bool)
    ensures TableTotal(a + b, li, q) == TableTotal(a, li, q).Plus(TableTotal(b, li, q))
  {
    if a == [] {
      assert a + b == b;
    } else {
      assert (a + b)[1..] == a[1..] + b;
      TableTotalAppend(a[1..], b, li, q);
    }
  }

  lemma {:induction false} EntryRowsTotal(e: Entry, n: nat, li: nat, q: (nat, nat) -> bool)
    requires n <= |e.vals|
    ensures TableTotal(EntryRows(e, n), li, q) ==
            if li < n && q(Unpack(e.key).0, Unpack(e.key).1) then e.vals[li] else ZERO
  {
    if n > 0 {
      EntryRowsTotal(e, n - 1, li, q);
      if e.vals[n - 1] != ZERO {
        var last := LossRow(Unpack(e.key).0, Unpack(e.key).1, n - 1, e.vals[n - 1]);
        TableTotalAppend(EntryRows(e, n - 1), [last], li, q);
        assert [last][1..] == [];
      }
    }
  }

  /** Skipping the zeros does not change any total. */
  lemma {:induction false} TableIsAcc(acc: seq<Entry>, L: nat, li: nat, p: nat -> bool, q: (nat, nat) -> bool)
    requires li < L && forall i :: 0 <= i < |acc| ==> |acc[i].vals| == L
    requires forall k: nat :: p(k) <==> q(Unpack(k).0, Unpack(k).1)
    ensures TableTotal(TableOf(acc, L), li, q) == AccTotal(acc, L, li, p)
  {
    if acc != [] {
      TableIsAcc(acc[1..], L, li, p, q);
      EntryRowsTotal(acc[0], L, li, q);
      TableTotalAppend(EntryRows(acc[0], L), TableOf(acc[1..], L), li, q);
    }
  }

  lemma {:induction false} EntryRowsShape(e: Entry, n: nat)
    requires n <= |e.vals|
    ensures forall i :: 0 <= i < |EntryRows(e, n)| ==> var r := EntryRows(e, n)[i];
      (r.eventId, r.aggId) == Unpack(e.key) && r.lossId < n && r.value == e.vals[r.lossId] != ZERO
    ensures forall i, j :: 0 <= i < j < |EntryRows(e, n)| ==> EntryRows(e, n)[i].lossId != EntryRows(e, n)[j].lossId
  {
    hide Unpack;
    if n > 0 {
      EntryRowsShape(e, n - 1);
    }
  }

  ghost predicate SameId(a: LossRow, b: LossRow) {
    a.eventId == b.eventId && a.aggId == b.aggId && a.lossId == b.lossId
  }

  ghost predicate NoDuplicates(t: seq<LossRow>) {
    forall i, j :: 0 <= i < j < |t| ==> !SameId(t[i], t[j])
  }

  lemma {:induction false} UnpackInjective(a: nat, b: nat)
    ensures Unpack(a) == Unpack(b) ==> a == b
  {
    assert a == (a / TWO32) * TWO32 + a % TWO32;
    assert b == (b / TWO32) * TWO32 + b % TWO32;
  }

  lemma {:induction false} FromLater(r: LossRow, acc: seq<Entry>, L: nat)
    requires acc != [] && ValidAcc(acc, L) && FromEntry(r, acc[1..], L)
    ensures FromEntry(r, acc, L) && (r.eventId, r.aggId) != Unpack(acc[0].key)
  {
    var k :| 0 <= k < |acc[1..]| && (r.eventId, r.aggId) == Unpack(acc[1..][k].key)
             && r.lossId < L && r.value == acc[1..][k].vals[r.lossId] != ZERO;
    assert acc[k + 1] == acc[1..][k];
    UnpackInjective(acc[0].key, acc[k + 1].key);
  }

  lemma {:induction false} FromFirst(acc: seq<Entry>, L: nat, i: nat)
    requires acc != [] && ValidAcc(acc, L) && i < |EntryRows(acc[0], L)|
    ensures var r := EntryRows(acc[0], L)[i]; FromEntry(r, acc, L) && (r.eventId, r.aggId) == Unpack(acc[0].key)
  {
    EntryRowsShape(acc[0], L);
    var r := EntryRows(acc[0], L)[i];
    assert (r.eventId, r.aggId) == Unpack(acc[0].key) && r.lossId < L && r.value == acc[0].vals[r.lossId] != ZERO;
  }

  lemma {:induction false} TableShape(acc: seq<Entry>, L: nat)
    requires ValidAcc(acc, L)
    ensures forall i :: 0 <= i < |TableOf(acc, L)| ==> FromEntry(TableOf(acc, L)[i], acc, L)
    ensures NoDuplicates(TableOf(acc, L))
  {
    if acc != [] {
      assert forall i :: 0 <= i < |acc[1..]| ==> acc[1..][i] == acc[i + 1];
      TableShape(acc[1..], L);
      EntryRowsShape(acc[0], L);
      hide EntryRows, FromEntry, Unpack, ValidAcc;
      var head, rest := EntryRows(acc[0], L), TableOf(acc[1..], L);
      var t := head + rest;
      assert t == TableOf(acc, L);
      forall i | 0 <= i < |t|
        ensures FromEntry(t[i], acc, L) && (i < |head| <==> (t[i].eventId, t[i].aggId) == Unpack(acc[0].key))
      {
        if i < |head| {
          FromFirst(acc, L, i);
        } else {
          assert t[i] == rest[i - |head|];
          FromLater(t[i], acc, L);
        }
      }
      forall i, j | 0 <= i < j < |t| ensures !SameId(t[i], t[j]) {
        if i >= |head| {
          assert !SameId(rest[i - |head|], rest[j - |head|]);
        } else if j < |head| {
          assert head[i].lossId != head[j].lossId;
        }
      }
    }
  }

  ghost predicate FromEntry(r: LossRow, acc: seq<Entry>, L: nat)
    requires forall i :: 0 <= i < |acc| ==> |acc[i].vals| == L
  {
    exists k :: 0 <= k < |acc| && (r.eventId, r.aggId) == Unpack(acc[k].key) && r.lossId < L
      && r.value == acc[k].vals[r.lossId] != ZERO
  }

  /** The event loss table of some outputs. */
  function LossTable(s: Setup, outputs: seq<Output>): seq<LossRow>
    requires s.Valid() && ValidOutputs(s, outputs)
  {
    TableOf(Accumulate(s, outputs), s.L)
  }

  /** Every event, key and loss type has at most one row in the table. */
  lemma {:induction false} LossTableUnique(s: Setup, outputs: seq<Output>)
    requires s.Valid() && ValidOutputs(s, outputs)
    ensures NoDuplicates(LossTable(s, outputs))
  {
    TableShape(Accumulate(s, outputs), s.L);
  }

  /** A set of (event, key) pairs as a set of packed keys. */
  function Packed(q: (nat, nat) -> bool): nat -> bool {
    (k: nat) => q(Unpack(k).0, Unpack(k).1)
  }

  /** The pairs of some events under the total key. */
  function UnderK(s: Setup, events: nat -> bool): (nat, nat) -> bool {
    (e: nat, k: nat) => k == s.K && events(e)
  }

  function BelowK(s: Setup): (nat, nat) -> bool {
    (e: nat, k: nat) => k < s.K
  }

  function AllEvents(): nat -> bool {
    (e: nat) => true
  }

  function OfEvents(events: nat -> bool): Row -> bool {
    (r: Row) => events(r.eid)
  }

  /** Totals of the table are contributions of the rows. */
  lemma {:induction false} LossTableTotal(s: Setup, outputs: seq<Output>, li: nat, q: (nat, nat) -> bool)
    requires s.Valid() && ValidOutputs(s, outputs) && li < s.L
    ensures ValidRows(s, RowsOf(outputs, li))
    ensures TableTotal(LossTable(s, outputs), li, q) == Contribution(s, RowsOf(outputs, li), Packed(q))
  {
    hide Contribution, AccTotal, ValidRows, TableTotal, TableOf, Accumulate;
    var p := Packed(q);
    AccumulateTotal(s, outputs, li, p);
    TableIsAcc(Accumulate(s, outputs), s.L, li, p, q);
  }

  // ----- reference: sums over the rows themselves

  function RowTotal(rows: seq<Row>, p: Row -> bool): Pair {
    Total(rows, Vals(rows), p)
  }

  /** The rows that the family sends to the pairs satisfying q. */
  function FamilyMatches(s: Setup, rows: seq<Row>, n: nat, q: (nat, nat) -> bool): Pair
    requires s.Valid() && ValidRows(s, rows) && n <= |s.aggids|
  {
    if n == 0 then ZERO
    else
      var f := s.aggids[n - 1];
      FamilyMatches(s, rows, n - 1, q).Plus(RowTotal(rows, (r: Row) => r.aid < |f| && q(r.eid, f[r.aid])))
  }

  lemma {:induction false} FamiliesMatch(s: Setup, rows: seq<Row>, n: nat, p: nat -> bool, q: (nat, nat) -> bool)
    requires s.Valid() && ValidRows(s, rows) && n <= |s.aggids|
    requires forall k: nat :: p(k) <==> q(Unpack(k).0, Unpack(k).1)
    ensures FamiliesTotal(s, rows, n, p) == FamilyMatches(s, rows, n, q)
  {
    if n > 0 {
      FamiliesMatch(s, rows, n - 1, p, q);
      var f := s.aggids[n - 1];
      var keys, pr := FamilyKeys(rows, f), (r: Row) => r.aid < |f| && q(r.eid, f[r.aid]);
      forall i | 0 <= i < |rows| ensures p(keys[i]) <==> pr(rows[i]) {
        PackIff(rows[i].eid, f[rows[i].aid]);
      }
      TotalCongruence(keys, rows, Vals(rows), p, pr);
    }
  }

  /** Packing aggregates correctly: the total of the table over any set of (event, key) pairs
      is the sum of the matching rows, those under K and those of each family. */
  lemma {:induction false} PackedKeysAggregate(s: Setup, outputs: seq<Output>, li: nat, q: (nat, nat) -> bool)
    requires s.Valid() && ValidOutputs(s, outputs) && li < s.L
    ensures var rows := RowsOf(outputs, li);
      && ValidRows(s, rows)
      && TableTotal(LossTable(s, outputs), li, q) ==
         RowTotal(rows, (r: Row) => q(r.eid, s.K)).Plus(FamilyMatches(s, rows, |s.aggids|, q))
  {
    hide AccTotal, TableTotal, LossTable;
    LossTableTotal(s, outputs, li, q);
    var rows := RowsOf(outputs, li);
    var p := Packed(q);
    var keys, pr := TotalKeys(rows, s.K), (r: Row) => q(r.eid, s.K);
    forall i | 0 <= i < |rows| ensures p(keys[i]) <==> pr(rows[i]) {
      PackIff(rows[i].eid, s.K);
    }
    TotalCongruence(keys, rows, Vals(rows), p, pr);
    FamiliesMatch(s, rows, |s.aggids|, p, q);
  }

  function Times(n: nat, p: Pair): Pair {
    Pair(n as real * p.variance, n as real * p.loss)
  }

  lemma {:induction false} NoTimes(p: Pair)
    ensures Times(0, p) == ZERO
  {
  }

  lemma {:induction false} TimesStep(n: nat, p: Pair)
    requires n > 0
    ensures Times(n, p) == Times(n - 1, p).Plus(p)
  {
  }

  lemma {:induction false} EveryFamilyMatches(s: Setup, rows: seq<Row>, n: nat, q: (nat, nat) -> bool)
    requires s.Valid() && ValidRows(s, rows) && n <= |s.aggids|
    requires forall e: nat, k: nat :: q(e, k) <==> k < s.K
    ensures FamilyMatches(s, rows, n, q) == Times(n, RowTotal(rows, r => true))
  {
    hide Times, Total;
    assert n == 0 ==> Times(n, RowTotal(rows, r => true)) == ZERO by { NoTimes(RowTotal(rows, r => true)); }
    if n > 0 {
      EveryFamilyMatches(s, rows, n - 1, q);
      var f := s.aggids[n - 1];
      TotalCongruence(rows, rows, Vals(rows), (r: Row) => r.aid < |f| && q(r.eid, f[r.aid]), r => true);
      TimesStep(n, RowTotal(rows, r => true));
    }
  }

  lemma {:induction false} NoFamilyMatches(s: Setup, rows: seq<Row>, n: nat, q: (nat, nat) -> bool)
    requires s.Valid() && ValidRows(s, rows) && n <= |s.aggids|
    requires forall e: nat, k: nat :: q(e, k) ==> k >= s.K
    ensures FamilyMatches(s, rows, n, q) == ZERO
  {
    if n > 0 {
      NoFamilyMatches(s, rows, n - 1, q);
      var f := s.aggids[n - 1];
      TotalNone(rows, Vals(rows), (r: Row) => r.aid < |f| && q(r.eid, f[r.aid]));
    }
  }

  lemma {:induction false} TotalNone<T>(keys: seq<T>, values: seq<Pair>, p: T -> bool)
    requires |keys| == |values| && forall i :: 0 <= i < |keys| ==> !p(keys[i])
    ensures Total(keys, values, p) == ZERO
  {
    if keys != [] {
      TotalNone(keys[..|keys| - 1], values[..|keys| - 1], p);
    }
  }

  /** The table under K is the sum over the rows, for any set of events. */
  lemma {:induction false} TotalUnderK(s: Setup, outputs: seq<Output>, li: nat, events: nat -> bool)
    requires s.Valid() && ValidOutputs(s, outputs) && li < s.L
    ensures TableTotal(LossTable(s, outputs), li, UnderK(s, events)) ==
            RowTotal(RowsOf(outputs, li), OfEvents(events))
  {
    hide TableTotal, LossTable;
    var q := UnderK(s, events);
    PackedKeysAggregate(s, outputs, li, q);
    var rows := RowsOf(outputs, li);
    NoFamilyMatches(s, rows, |s.aggids|, q);
    TotalCongruence(rows, rows, Vals(rows), (r: Row) => q(r.eid, s.K), OfEvents(events));
  }

  /** Over all the keys below K the table adds up to one total under K for each family. */
  lemma {:induction false} FamiliesTimesTotal(s: Setup, outputs: seq<Output>, li: nat)
    requires s.Valid() && ValidOutputs(s, outputs) && li < s.L
    ensures TableTotal(LossTable(s, outputs), li, BelowK(s)) ==
            Times(|s.aggids|, TableTotal(LossTable(s, outputs), li, UnderK(s, AllEvents())))
  {
    hide TableTotal, LossTable;
    var q := BelowK(s);
    var rows := RowsOf(outputs, li);
    PackedKeysAggregate(s, outputs, li, q);
    EveryFamilyMatches(s, rows, |s.aggids|, q);
    TotalNone(rows, Vals(rows), (r: Row) => q(r.eid, s.K));
    TotalUnderK(s, outputs, li, AllEvents());
    TotalCongruence(rows, rows, Vals(rows), OfEvents(AllEvents()), r => true);
  }

  // ----- a table is determined by its totals

  /** One (event, key) pair. */
  function At(e: nat, k: nat): (nat, nat) -> bool {
    (e': nat, k': nat) => e' == e && k' == k
  }

  ghost predicate Proper(t: seq<LossRow>) {
    NoDuplicates(t) && forall i :: 0 <= i < |t| ==> t[i].value != ZERO
  }

  lemma {:induction false} AbsentIsZero(t: seq<LossRow>, li: nat, e: nat, k: nat)
    requires forall i :: 0 <= i < |t| ==> !(t[i].eventId == e && t[i].aggId == k && t[i].lossId == li)
    ensures TableTotal(t, li, At(e, k)) == ZERO
  {
    if t != [] {
      AbsentIsZero(t[1..], li, e, k);
    }
  }

  lemma {:induction false} PresentIsTotal(t: seq<LossRow>, i: nat)
    requires Proper(t) && i < |t|
    ensures TableTotal(t, t[i].lossId, At(t[i].eventId, t[i].aggId)) == t[i].value
  {
    var rest := t[1..];
    assert forall j :: 0 <= j < |rest| ==> rest[j] == t[j + 1];
    if i == 0 {
      forall j | 0 <= j < |rest|
        ensures !(rest[j].eventId == t[0].eventId && rest[j].aggId == t[0].aggId && rest[j].lossId == t[0].lossId)
      {
        assert !SameId(t[0], t[j + 1]);
      }
      AbsentIsZero(rest, t[0].lossId, t[0].eventId, t[0].aggId);
    } else {
      assert Proper(rest) by {
        forall a, b | 0 <= a < b < |rest| ensures !SameId(rest[a], rest[b]) {
          assert !SameId(t[a + 1], t[b + 1]);
        }
      }
      PresentIsTotal(rest, i - 1);
      assert !SameId(t[0], t[i]);
    }
  }

  /** In a table without duplicates and zeros a row is there exactly when it holds the total
      of its event, key and loss type, and that is not zero. */
  lemma {:induction false} RowIff(t: seq<LossRow>, r: LossRow)
    requires Proper(t)
    ensures r in t <==> r.value == TableTotal(t, r.lossId, At(r.eventId, r.aggId)) != ZERO
  {
    if i :| 0 <= i < |t| && SameId(t[i], r) {
      PresentIsTotal(t, i);
      if r in t {
        var j :| 0 <= j < |t| && t[j] == r;
        PresentIsTotal(t, j);
      }
    } else {
      AbsentIsZero(t, r.lossId, r.eventId, r.aggId);
      forall j | 0 <= j < |t| ensures t[j] != r {
        assert !SameId(t[j], r);
      }
    }
  }

  lemma {:induction false} LossTableProper(s: Setup, outputs: seq<Output>)
    requires s.Valid() && ValidOutputs(s, outputs)
    ensures Proper(LossTable(s, outputs))
    ensures forall i :: 0 <= i < |LossTable(s, outputs)| ==> LossTable(s, outputs)[i].lossId < s.L
  {
    TableShape(Accumulate(s, outputs), s.L);
    var t := LossTable(s, outputs);
    forall i | 0 <= i < |t| ensures t[i].value != ZERO && t[i].lossId < s.L {
      assert FromEntry(t[i], Accumulate(s, outputs), s.L);
    }
  }

  function OfEvent(e: nat): Row -> bool {
    (r: Row) => r.eid == e
  }

  /** The rows of an event whose asset has a given key in a family. */
  function OfEventAndKey(f: seq<nat>, e: nat, k: nat): Row -> bool {
    (r: Row) => r.eid == e && r.aid < |f| && f[r.aid] == k
  }

  /** What the families before the n-th put under a key for an event. */
  function FamilyLosses(rows: seq<Row>, aggids: seq<seq<nat>>, n: nat, e: nat, k: nat): Pair
    requires n <= |aggids|
  {
    if n == 0 then ZERO
    else FamilyLosses(rows, aggids, n - 1, e, k).Plus(RowTotal(rows, OfEventAndKey(aggids[n - 1], e, k)))
  }

  lemma {:induction false} FamilyLossesAre(s: Setup, rows: seq<Row>, n: nat, e: nat, k: nat)
    requires s.Valid() && ValidRows(s, rows) && n <= |s.aggids|
    ensures FamilyMatches(s, rows, n, At(e, k)) == FamilyLosses(rows, s.aggids, n, e, k)
  {
    hide RowTotal, OfEventAndKey, At;
    if n > 0 {
      FamilyLossesAre(s, rows, n - 1, e, k);
      OneFamily(rows, s.aggids[n - 1], e, k);
    }
  }

  lemma {:induction false} OneFamily(rows: seq<Row>, f: seq<nat>, e: nat, k: nat)
    ensures RowTotal(rows, (r: Row) => r.aid < |f| && At(e, k)(r.eid, f[r.aid])) ==
            RowTotal(rows, OfEventAndKey(f, e, k))
  {
    var p := (r: Row) => r.aid < |f| && At(e, k)(r.eid, f[r.aid]);
    forall i | 0 <= i < |rows| ensures p(rows[i]) <==> OfEventAndKey(f, e, k)(rows[i]) {
      var r := rows[i];
      assert p(r) <==> r.aid < |f| && At(e, k)(r.eid, f[r.aid]);
      assert r.aid < |f| ==> (At(e, k)(r.eid, f[r.aid]) <==> r.eid == e && f[r.aid] == k);
    }
    TotalCongruence(rows, rows, Vals(rows), p, OfEventAndKey(f, e, k));
  }

  lemma {:induction false} UnderTotal(s: Setup, rows: seq<Row>, e: nat, k: nat)
    requires s.Valid() && ValidRows(s, rows)
    ensures RowTotal(rows, (r: Row) => At(e, k)(r.eid, s.K)) == if k == s.K then RowTotal(rows, OfEvent(e)) else ZERO
    ensures k == s.K ==> FamilyMatches(s, rows, |s.aggids|, At(e, k)) == ZERO
  {
    var p := (r: Row) => At(e, k)(r.eid, s.K);
    forall i | 0 <= i < |rows| ensures p(rows[i]) <==> k == s.K && OfEvent(e)(rows[i]) {
      assert p(rows[i]) <==> At(e, k)(rows[i].eid, s.K);
      assert At(e, k)(rows[i].eid, s.K) <==> rows[i].eid == e && s.K == k;
    }
    if k == s.K {
      TotalCongruence(rows, rows, Vals(rows), p, OfEvent(e));
      NoFamilyMatches(s, rows, |s.aggids|, At(e, k));
    } else {
      TotalNone(rows, Vals(rows), p);
    }
  }

  /** The table, row by row: under K the losses of an event, under another key the losses of the event
      on the assets with that key, family by family; totals of zero are left out. */
  lemma {:induction false} TableRowIff(s: Setup, outputs: seq<Output>, r: LossRow)
    requires s.Valid() && ValidOutputs(s, outputs) && r.lossId < s.L
    ensures var rows := RowsOf(outputs, r.lossId);
      var total := if r.aggId == s.K then RowTotal(rows, OfEvent(r.eventId))
                   else FamilyLosses(rows, s.aggids, |s.aggids|, r.eventId, r.aggId);
      r in LossTable(s, outputs) <==> r.value == total != ZERO
  {
    hide LossTable, TableTotal, FamilyMatches, FamilyLosses, RowTotal;
    var e, k, rows := r.eventId, r.aggId, RowsOf(outputs, r.lossId);
    LossTableProper(s, outputs);
    RowIff(LossTable(s, outputs), r);
    PackedKeysAggregate(s, outputs, r.lossId, At(e, k));
    FamilyLossesAre(s, rows, |s.aggids|, e, k);
    UnderTotal(s, rows, e, k);
  }

  lemma {:induction false} NoEventMatches(s: Setup, rows: seq<Row>, n: nat, e: nat, k: nat)
    requires s.Valid() && ValidRows(s, rows) && n <= |s.aggids| && e >= |s.rlzId|
    ensures FamilyMatches(s, rows, n, At(e, k)) == ZERO
  {
    if n > 0 {
      NoEventMatches(s, rows, n - 1, e, k);
      var f := s.aggids[n - 1];
      TotalNone(rows, Vals(rows), (r: Row) => r.aid < |f| && At(e, k)(r.eid, f[r.aid]));
    }
  }

  lemma {:induction false} NothingOutside(s: Setup, outputs: seq<Output>, li: nat, e: nat, k: nat)
    requires s.Valid() && ValidOutputs(s, outputs) && li < s.L && (e >= |s.rlzId| || k > s.K)
    ensures TableTotal(LossTable(s, outputs), li, At(e, k)) == ZERO
  {
    hide TableTotal, LossTable, FamilyMatches;
    PackedKeysAggregate(s, outputs, li, At(e, k));
    var rows := RowsOf(outputs, li);
    TotalNone(rows, Vals(rows), (r: Row) => At(e, k)(r.eid, s.K));
    if e >= |s.rlzId| {
      NoEventMatches(s, rows, |s.aggids|, e, k);
    } else {
      NoFamilyMatches(s, rows, |s.aggids|, At(e, k));
    }
  }

  /** The rows of the table are of known events, and their keys are below K or K itself. */
  lemma {:induction false} LossTableInRange(s: Setup, outputs: seq<Output>)
    requires s.Valid() && ValidOutputs(s, outputs)
    ensures forall i :: 0 <= i < |LossTable(s, outputs)| ==>
      LossTable(s, outputs)[i].aggId <= s.K && LossTable(s, outputs)[i].eventId < |s.rlzId|
  {
    hide LossTable, TableTotal;
    var t := LossTable(s, outputs);
    LossTableProper(s, outputs);
    forall i | 0 <= i < |t| ensures t[i].aggId <= s.K && t[i].eventId < |s.rlzId| {
      PresentIsTotal(t, i);
      if t[i].aggId > s.K || t[i].eventId >= |s.rlzId| {
        NothingOutside(s, outputs, t[i].lossId, t[i].eventId, t[i].aggId);
        assert false;
      }
    }
  }
}

/** `apply_split`, end to end. */
module ApplySplit {
  // Partition the items, make the tasks, run the protocol, reduce the results.

  import opened Basics
  import opened Tasks
  import opened ModSlices
  import opened Folds
  import opened SplitTask
  import A = AccumDict
  import B = Blocks
  import P = Protocol
  import S = Starmap

  /** The function distributes over concatenation; exceptions are part of the values. */
  ghost predicate Additive<T(!new), V(!new)>(func: seq<T> -> Outcome<V>, op: (V, V) -> V) {
    forall a, b :: a != [] && b != [] ==> func(a + b) == Join(op, func(a), func(b))
  }

  ghost predicate Positive<T>(items: seq<T>, weight: T -> real) {
    items != [] && forall x :: x in items ==> weight(x) > 0.0
  }

  ghost predicate NoneEmpty<T>(blocks: seq<seq<T>>) {
    forall i :: 0 <= i < |blocks| ==> blocks[i] != []
  }

  /** Each call gives a value or an exception that can be sent. */
  ghost predicate OrdinaryFunction<T(!new), V>(func: seq<T> -> Return<V>) {
    forall s :: Ordinary(func(s))
  }

  /** The blocks made by `Starmap.apply` out of the first argument; None is an exception. The
      maximum weight None is the same as 0. */
  function ArgBlocks<T>(items: seq<T>, hint: nat, maxweight: real,
                        weight: T -> real, key: T -> int, nokey: bool, unspecified: int): Option<seq<seq<T>>>
  {
    if maxweight != 0.0 then
      var r := B.SplitBlocks(items, maxweight, weight, key, unspecified);
      if r.failed then None else Some(B.ItemsOf(r.blocks))
    else
      B.SplitInBlocks(items, hint, weight, key, nokey, unspecified)
  }

  /** `concurrent_tasks or 1`, after the default. */
  function ApplyHint(ct: nat, concurrentTasks: Option<nat>): (h: nat)
    ensures h > 0
    ensures concurrentTasks.Some? && concurrentTasks.value > 0 ==> h == concurrentTasks.value
    ensures concurrentTasks.None? && ct > 0 ==> h == ct
    ensures concurrentTasks == Some(0) ==> h == 1
  {
    var h := if concurrentTasks.None? then ct else concurrentTasks.value;
    if h == 0 then 1 else h
  }

  /** `concurrent_tasks or 2*cls.num_cores` */
  function SplitHint(numCores: nat, concurrentTasks: Option<nat>): (h: nat)
    ensures concurrentTasks.Some? && concurrentTasks.value > 0 ==> h == concurrentTasks.value
    ensures concurrentTasks.None? || concurrentTasks.value == 0 ==> h == 2 * numCores
  {
    if concurrentTasks.Some? && concurrentTasks.value > 0 then concurrentTasks.value else 2 * numCores
  }

  /** The constructor of Starmap reads the name of the function of a split task from the first
      of its arguments: a generator has no first element to read, and neither has an empty list. */
  predicate InitFails(isSplit: bool, isLazy: bool, numArgs: nat) {
    isSplit && (isLazy || numArgs == 0)
  }

  /** One split task per block; `slow(b)(i)` says whether task b overruns at slice i. */
  function SplitTasks<T, V>(
    blocks: seq<seq<T>>, func: seq<T> -> Return<V>, outsPerTask: int, slow: nat -> nat -> bool): (r: seq<Task<V>>)
    ensures |r| == |blocks|
    ensures forall i :: 0 <= i < |r| ==> r[i] == Split(blocks[i], func, outsPerTask, slow(i))
  {
    if blocks == [] then []
    else
      var n := |blocks| - 1;
      SplitTasks(blocks[..n], func, outsPerTask, slow) + [Split(blocks[n], func, outsPerTask, slow(n))]
  }

  /** One plain task per block. */
  function PlainTasks<T, V>(blocks: seq<seq<T>>, func: seq<T> -> Return<V>): (r: seq<Task<V>>)
    ensures |r| == |blocks|
    ensures forall i :: 0 <= i < |r| ==> r[i] == Function(func(blocks[i]))
  {
    if blocks == [] then []
    else
      var n := |blocks| - 1;
      PlainTasks(blocks[..n], func) + [CallOn(func, blocks[n])]
  }

  // ----- the function on a sequence is the fold over its elements

  function Single<T, V>(func: seq<T> -> Outcome<V>): T -> Outcome<V> {
    x => func([x])
  }

  lemma {:induction false} AdditiveFold<T(!new), V(!new)>(
    s: seq<T>, func: seq<T> -> Outcome<V>, op: (V, V) -> V, unit: V)
    requires CommutativeMonoid(op, unit) && Additive(func, op) && s != []
    ensures func(s) == FoldBy(s, Single(func), op, unit)
  {
    hide CommutativeMonoid, Additive, Join;
    JoinLaws(op, unit);
    assert s == [s[0]] + s[1..];
    if |s| == 1 {
      assert s[1..] == [] && s == [s[0]];
      assert FoldBy<T, V>([], Single(func), op, unit) == Value(unit);
    } else {
      AdditiveFold(s[1..], func, op, unit);
      AdditiveAt(func, op, [s[0]], s[1..]);
    }
  }

  lemma {:induction false} AdditiveAt<T(!new), V(!new)>(
    func: seq<T> -> Outcome<V>, op: (V, V) -> V, a: seq<T>, b: seq<T>)
    requires Additive(func, op) && a != [] && b != []
    ensures func(a + b) == Join(op, func(a), func(b))
  {
  }

  lemma {:induction false} ConcatFold<T(!new), V(!new)>(
    ss: seq<seq<T>>, func: seq<T> -> Outcome<V>, op: (V, V) -> V, unit: V)
    requires CommutativeMonoid(op, unit) && Additive(func, op)
    requires NoneEmpty(ss)
    ensures FoldBy(ss, func, op, unit) == FoldBy(Concat(ss), Single(func), op, unit)
  {
    hide CommutativeMonoid, Additive, Join;
    if ss != [] {
      AdditiveFold(ss[0], func, op, unit);
      ConcatFold(ss[1..], func, op, unit);
      FoldAppend(ss[0], Concat(ss[1..]), Single(func), op, unit);
    }
  }

  /** Folding an additive function over a partition of the items is calling it on them. */
  lemma {:induction false} PartitionFold<T(!new), V(!new)>(
    items: seq<T>, blocks: seq<seq<T>>, func: seq<T> -> Outcome<V>, op: (V, V) -> V, unit: V)
    requires CommutativeMonoid(op, unit) && Additive(func, op)
    requires items != [] && multiset(Concat(blocks)) == multiset(items)
    requires NoneEmpty(blocks)
    ensures FoldBy(blocks, func, op, unit) == func(items)
  {
    hide CommutativeMonoid, Additive;
    ConcatFold(blocks, func, op, unit);
    FoldPermutation(Concat(blocks), items, Single(func), op, unit);
    AdditiveFold(items, func, op, unit);
  }

  // ----- one split task

  /** What the master gets in all from a split task on some elements. */
  function SplitTotal<T, V>(
    func: seq<T> -> Return<V>, outsPerTask: int, op: (V, V) -> V, unit: V): seq<T> -> Outcome<V> {
    (els: seq<T>) => FoldBy(Slices(els, outsPerTask), Result(func), op, unit)
  }

  lemma {:induction false} SplitBehaves<T(!new), V>(
    els: seq<T>, func: seq<T> -> Return<V>, outsPerTask: int, slow: nat -> bool)
    requires OrdinaryFunction(func)
    ensures WellBehavedTree(Split(els, func, outsPerTask, slow))
  {
    hide Slices, Split;
    SplitBehavesIff(els, func, outsPerTask);
  }

  /** Without outputs per task nothing is computed; with some, an additive function gives its
      value on the elements. */
  lemma {:induction false} SplitTotalIs<T(!new), V(!new)>(
    els: seq<T>, func: seq<T> -> Return<V>, outsPerTask: int, op: (V, V) -> V, unit: V)
    ensures outsPerTask <= 0 ==> SplitTotal(func, outsPerTask, op, unit)(els) == Value(unit)
    ensures CommutativeMonoid(op, unit) && Additive(Result(func), op) && outsPerTask > 0 && els != [] ==>
              SplitTotal(func, outsPerTask, op, unit)(els) == Result(func)(els)
  {
    hide CommutativeMonoid, Additive, Result;
    if CommutativeMonoid(op, unit) && Additive(Result(func), op) && outsPerTask > 0 && els != [] {
      SlicesCoverIff(els, outsPerTask);
      PartitionFold(els, Slices(els, outsPerTask), Result(func), op, unit);
    }
  }

  /** Whether and when a task overruns changes how its work is distributed over outputs and
      subtasks, not the total. */
  lemma {:induction false} TaskTotal<T(!new), V(!new)>(
    els: seq<T>, func: seq<T> -> Return<V>, outsPerTask: int, slow: nat -> bool, op: (V, V) -> V, unit: V)
    returns (outs: seq<Outcome<V>>)
    requires CommutativeMonoid(op, unit) && OrdinaryFunction(func)
    ensures OutputsOf(Messages(Split(els, func, outsPerTask, slow))) == multiset(outs)
    ensures FoldBy(outs, o => o, op, unit) == SplitTotal(func, outsPerTask, op, unit)(els)
  {
    hide CommutativeMonoid, OutputsOf, GeneratorMessages, Slices, YieldsFrom, FoldBy, OutputsFrom, Ordinary, Result;
    var slices := Slices(els, outsPerTask);
    outs := OutputsFrom(slices, 0, func, slow);
    YieldsFromOutputs(slices, 0, func, slow);
    OutputsFromFold(slices, 0, func, slow, op, unit);
    assert slices[0..] == slices;
  }

  // ----- all the tasks

  /** The tasks behave, and the master gets `outs` from them and their subtasks. */
  ghost predicate StandFor<V>(tasks: seq<Task<V>>, outs: seq<Outcome<V>>) {
    P.AllWellBehaved(tasks) && ForestOutputs(tasks) == multiset(outs)
  }

  lemma {:induction false} StandForOneMore<V>(
    tasks: seq<Task<V>>, outs: seq<Outcome<V>>, t: Task<V>, more: seq<Outcome<V>>)
    requires StandFor(tasks, outs) && WellBehavedTree(t) && OutputsOf(Messages(t)) == multiset(more)
    ensures StandFor(tasks + [t], outs + more)
  {
    hide ForestOutputs, WellBehavedTree;
    ForestOneMore(tasks, t);
    assert multiset(outs + more) == multiset(outs) + multiset(more);
  }

  lemma {:induction false} ForestOneMore<V>(tasks: seq<Task<V>>, t: Task<V>)
    ensures ForestOutputs(tasks + [t]) == ForestOutputs(tasks) + OutputsOf(Messages(t))
  {
    hide OutputsOf, Messages, ForestTasks, ForestSize;
    ForestAppend(tasks, [t]);
    assert [t][1..] == [];
    assert ForestOutputs([t]) == OutputsOf(Messages(t)) + ForestOutputs<V>([]);
  }

  lemma {:induction false} FoldSnoc<X, V(!new)>(s: seq<X>, g: X -> Outcome<V>, op: (V, V) -> V, unit: V)
    requires CommutativeMonoid(op, unit) && s != []
    ensures FoldBy(s, g, op, unit) == Join(op, FoldBy(s[..|s| - 1], g, op, unit), g(s[|s| - 1]))
  {
    hide CommutativeMonoid, Join;
    var x := s[|s| - 1];
    assert s == s[..|s| - 1] + [x];
    FoldAppend(s[..|s| - 1], [x], g, op, unit);
    FoldOne(x, g, op, unit);
  }

  lemma {:induction false} FoldOne<X, V(!new)>(x: X, g: X -> Outcome<V>, op: (V, V) -> V, unit: V)
    requires CommutativeMonoid(op, unit)
    ensures FoldBy([x], g, op, unit) == g(x)
  {
    hide CommutativeMonoid, Join;
    JoinLaws(op, unit);
    assert [x][1..] == [];
  }

  lemma {:induction false} SplitTasksStandFor<T(!new), V(!new)>(
    blocks: seq<seq<T>>, func: seq<T> -> Return<V>, outsPerTask: int, slow: nat -> nat -> bool, op: (V, V) -> V,
    unit: V)
    returns (outs: seq<Outcome<V>>)
    requires CommutativeMonoid(op, unit) && OrdinaryFunction(func)
    ensures StandFor(SplitTasks(blocks, func, outsPerTask, slow), outs)
    ensures FoldBy(outs, o => o, op, unit) == FoldBy(blocks, SplitTotal(func, outsPerTask, op, unit), op, unit)
  {
    hide CommutativeMonoid, OrdinaryFunction, OutputsOf, Messages, Join, WellBehavedTree, Split, SplitTotal, StandFor;
    if blocks == [] {
      outs := [];
      NoTasks<V>();
    } else {
      var n := |blocks| - 1;
      var front := SplitTasksStandFor(blocks[..n], func, outsPerTask, slow, op, unit);
      var task := Split(blocks[n], func, outsPerTask, slow(n));
      SplitBehaves(blocks[n], func, outsPerTask, slow(n));
      var last := TaskTotal(blocks[n], func, outsPerTask, slow(n), op, unit);
      outs := front + last;
      StandForOneMore(SplitTasks(blocks[..n], func, outsPerTask, slow), front, task, last);
      FoldAppend(front, last, o => o, op, unit);
      FoldSnoc(blocks, SplitTotal(func, outsPerTask, op, unit), op, unit);
    }
  }

  lemma {:induction false} NoTasks<V>()
    ensures StandFor<V>([], [])
  {
  }

  lemma {:induction false} PlainTasksStandFor<T(!new), V>(blocks: seq<seq<T>>, func: seq<T> -> Return<V>)
    requires OrdinaryFunction(func)
    ensures StandFor(PlainTasks(blocks, func), Calls(blocks, func))
  {
    hide OutputsOf, Messages, WellBehavedTree, CallOn, StandFor, Result;
    if blocks == [] {
      NoTasks<V>();
      assert Calls(blocks, func) == [];
    } else {
      var n := |blocks| - 1;
      PlainTasksStandFor(blocks[..n], func);
      SubtaskOutputs(func, blocks[n]);
      StandForOneMore(PlainTasks(blocks[..n], func), Calls(blocks[..n], func), CallOn(func, blocks[n]),
        [Result(func)(blocks[n])]);
      assert Calls(blocks, func) == Calls(blocks[..n], func) + [Result(func)(blocks[n])];
    }
  }

  // ----- every run

  /** In every run, in whatever order the results arrive, the reduce is the one of what the
      tasks stand for. */
  lemma {:induction false} RunReduces<V(!new)>(
    tasks: seq<Task<V>>, outs: seq<Outcome<V>>, op: (V, V) -> V, unit: V, howmany: nat, sched: seq<P.Event>,
    z: P.State<V>)
    requires CommutativeMonoid(op, unit) && StandFor(tasks, outs) && howmany > 0
    requires P.Run(P.Start(tasks, howmany), sched, z) && z.tasks == []
    ensures FoldBy(P.Values(z.output), o => o, op, unit) == FoldBy(outs, o => o, op, unit)
  {
    hide CommutativeMonoid, P.Run, P.EveryTaskEndedOnce, ForestOutputs, P.Values;
    P.NoWorkLostOrDuplicated(tasks, howmany, sched, z);
    FoldPermutation(P.Values(z.output), outs, o => o, op, unit);
  }

  /** In every run, whichever tasks overrun and in whatever order the results arrive, the
      reduce of split tasks is the fold of what each block stands for. */
  lemma {:induction false} RunTotal<T(!new), V(!new)>(
    blocks: seq<seq<T>>, func: seq<T> -> Return<V>, outsPerTask: int, slow: nat -> nat -> bool,
    op: (V, V) -> V, unit: V, howmany: nat, sched: seq<P.Event>, z: P.State<V>)
    requires CommutativeMonoid(op, unit) && OrdinaryFunction(func) && howmany > 0
    requires P.Run(P.Start(SplitTasks(blocks, func, outsPerTask, slow), howmany), sched, z) && z.tasks == []
    ensures FoldBy(P.Values(z.output), o => o, op, unit) ==
      FoldBy(blocks, SplitTotal(func, outsPerTask, op, unit), op, unit)
  {
    hide CommutativeMonoid, OrdinaryFunction, P.Run, P.Values, SplitTasks, SplitTotal, StandFor, FoldBy;
    var outs := SplitTasksStandFor(blocks, func, outsPerTask, slow, op, unit);
    RunReduces(SplitTasks(blocks, func, outsPerTask, slow), outs, op, unit, howmany, sched, z);
  }

  lemma {:induction false} SplitTotals<T(!new), V(!new)>(
    blocks: seq<seq<T>>, func: seq<T> -> Return<V>, outsPerTask: int, op: (V, V) -> V, unit: V)
    requires CommutativeMonoid(op, unit)
    ensures outsPerTask <= 0 ==> FoldBy(blocks, SplitTotal(func, outsPerTask, op, unit), op, unit) == Value(unit)
    ensures Additive(Result(func), op) && outsPerTask > 0 && NoneEmpty(blocks) ==>
              FoldBy(blocks, SplitTotal(func, outsPerTask, op, unit), op, unit) ==
                FoldBy(blocks, Result(func), op, unit)
  {
    hide CommutativeMonoid, Additive, Result, SplitTotal, Join;
    JoinAssociates(op, unit, Value(unit), Value(unit), Value(unit));
    if blocks != [] {
      SplitTotalIs(blocks[0], func, outsPerTask, op, unit);
      SplitTotals(blocks[1..], func, outsPerTask, op, unit);
    }
  }

  /** Positive items are permuted by the partition, never dropped; only a negative maximum
      weight makes it raise. */
  lemma {:induction false} BlocksPermute<T>(
    items: seq<T>, hint: nat, maxweight: real, weight: T -> real, key: T -> int, nokey: bool, unspecified: int)
    requires Positive(items, weight) && hint > 0
    ensures var r := ArgBlocks(items, hint, maxweight, weight, key, nokey, unspecified);
      && (r.Some? <==> maxweight >= 0.0)
      && (r.Some? ==> multiset(Concat(r.value)) == multiset(items))
      && (r.Some? ==> NoneEmpty(r.value))
  {
    if maxweight != 0.0 {
      B.SplitterFailsIff(items, maxweight, weight, key, unspecified);
      assert forall i :: 0 <= i < |items| ==> items[i] in items;
      if maxweight > 0.0 {
        B.PositivePartition(items, maxweight, weight, key, unspecified);
      }
    } else {
      B.PositiveInBlocks(items, hint, weight, key, nokey, unspecified);
    }
  }

  /** Where the arguments are cut, whatever the weights: in good blocks at the maximum weight, or of the
      sorted items at the total over the hint, which are not many. */
  lemma {:induction false} ArgBlocksAre<T>(
    items: seq<T>, hint: nat, maxweight: real, weight: T -> real, key: T -> int, nokey: bool, unspecified: int)
    returns (blocks: seq<B.Block<T>>)
    requires forall x :: x in items ==> weight(x) >= 0.0
    requires hint > 1 || maxweight != 0.0
    ensures var r := ArgBlocks(items, hint, maxweight, weight, key, nokey, unspecified);
      var sorted := if maxweight != 0.0 then items else B.Sorted(items, key, weight);
      var limit := if maxweight != 0.0 then maxweight else B.Total(sorted, weight) / hint as real;
      && (r.Some? <==> limit > 0.0)
      && (r.Some? ==> r.value == B.ItemsOf(blocks))
      && (r.Some? ==> B.GoodBlocks(blocks, limit, weight, key) && B.Thinned(B.Flat(blocks), sorted, weight))
      && (r.Some? && maxweight == 0.0 ==> |blocks| <= 2 * hint - 2 + |B.Keys(items, key)|)
  {
    hide B.GoodBlocks, B.Thinned, B.Sorted, B.Keys, B.Flat, B.SplitBlocks;
    if maxweight != 0.0 {
      B.SplitterFailsIff(items, maxweight, weight, key, unspecified);
      assert forall i :: 0 <= i < |items| ==> items[i] in items;
      if maxweight > 0.0 {
        B.SplitterPartitions(items, maxweight, weight, key, unspecified);
      }
      blocks := B.SplitBlocks(items, maxweight, weight, key, unspecified).blocks;
    } else {
      var sorted := B.Sorted(items, key, weight);
      B.SplitInBlocksFacts(items, hint, weight, key, nokey, unspecified);
      B.QuotientSign(B.Total(sorted, weight), hint);
      if B.Total(sorted, weight) > 0.0 {
        B.BlockCountBound(items, hint, weight, key, nokey, unspecified);
      }
      blocks := B.SplitBlocks(sorted, B.Total(sorted, weight) / hint as real, weight, key, unspecified).blocks;
    }
  }

  /** For items of positive weight and an additive function, the fold over the blocks, made in
      any of the ways that do not raise, is the function on the whole input. */
  lemma {:induction false} BlocksFold<T(!new), V(!new)>(
    items: seq<T>, hint: nat, maxweight: real, weight: T -> real, key: T -> int, nokey: bool, unspecified: int,
    func: seq<T> -> Return<V>, op: (V, V) -> V, unit: V)
    requires CommutativeMonoid(op, unit) && Additive(Result(func), op)
    requires Positive(items, weight) && hint > 0 && maxweight >= 0.0
    ensures var r := ArgBlocks(items, hint, maxweight, weight, key, nokey, unspecified);
      r.Some? && FoldBy(r.value, Result(func), op, unit) == Result(func)(items)
  {
    hide CommutativeMonoid, Additive, Result, ArgBlocks;
    BlocksPermute(items, hint, maxweight, weight, key, nokey, unspecified);
    var blocks := ArgBlocks(items, hint, maxweight, weight, key, nokey, unspecified).value;
    PartitionFold(items, blocks, Result(func), op, unit);
  }

  /** The parallel reduce equals the function on the whole input: every run of the split tasks
      on blocks of positive items. */
  lemma {:induction false} ParallelEqualsSequential<T(!new), V(!new)>(
    items: seq<T>, hint: nat, weight: T -> real, key: T -> int, nokey: bool, unspecified: int,
    func: seq<T> -> Return<V>, outsPerTask: int, slow: nat -> nat -> bool,
    op: (V, V) -> V, unit: V, howmany: nat, sched: seq<P.Event>, z: P.State<V>)
    requires CommutativeMonoid(op, unit) && OrdinaryFunction(func) && Additive(Result(func), op)
    requires outsPerTask > 0 && howmany > 0 && hint > 0 && Positive(items, weight)
    requires var r := ArgBlocks(items, hint, 0.0, weight, key, nokey, unspecified);
      r.Some? && P.Run(P.Start(SplitTasks(r.value, func, outsPerTask, slow), howmany), sched, z) && z.tasks == []
    ensures FoldBy(P.Values(z.output), o => o, op, unit) == Result(func)(items)
  {
    hide CommutativeMonoid, OrdinaryFunction, Additive, P.Run, Result, ArgBlocks, SplitTasks, P.Values, FoldBy,
         SplitTotal;
    var blocks := ArgBlocks(items, hint, 0.0, weight, key, nokey, unspecified).value;
    BlocksPermute(items, hint, 0.0, weight, key, nokey, unspecified);
    BlocksFold(items, hint, 0.0, weight, key, nokey, unspecified, func, op, unit);
    RunTotal(blocks, func, outsPerTask, slow, op, unit, howmany, sched, z);
    SplitTotals(blocks, func, outsPerTask, op, unit);
  }

  /** The same for plain tasks, where both splitters are legal: a negative maximum weight is
      the only way for it to raise. */
  lemma {:induction false} PlainParallelEqualsSequential<T(!new), V(!new)>(
    items: seq<T>, hint: nat, maxweight: real, weight: T -> real, key: T -> int, nokey: bool, unspecified: int,
    func: seq<T> -> Return<V>, op: (V, V) -> V, unit: V, howmany: nat, sched: seq<P.Event>, z: P.State<V>)
    requires CommutativeMonoid(op, unit) && OrdinaryFunction(func) && Additive(Result(func), op)
    requires howmany > 0 && hint > 0 && Positive(items, weight)
    requires var r := ArgBlocks(items, hint, maxweight, weight, key, nokey, unspecified);
      r.Some? && P.Run(P.Start(PlainTasks(r.value, func), howmany), sched, z) && z.tasks == []
    ensures FoldBy(P.Values(z.output), o => o, op, unit) == Result(func)(items)
  {
    hide CommutativeMonoid, OrdinaryFunction, Additive, P.Run, Result, ArgBlocks, PlainTasks, P.Values, FoldBy,
         StandFor;
    var blocks := ArgBlocks(items, hint, maxweight, weight, key, nokey, unspecified).value;
    BlocksPermute(items, hint, maxweight, weight, key, nokey, unspecified);
    BlocksFold(items, hint, maxweight, weight, key, nokey, unspecified, func, op, unit);
    PlainTasksStandFor(blocks, func);
    RunReduces(PlainTasks(blocks, func), Calls(blocks, func), op, unit, howmany, sched, z);
    CallsFold(blocks, func, op, unit);
  }

  /** The default reduce accumulates dictionaries with `+=`: for functions that give dictionaries
      whose values add up commutatively, every run gives the dictionary of the whole input. */
  lemma {:induction false} ParallelDictionaries<T(!new), K(!new), W(!new)>(
    items: seq<T>, hint: nat, weight: T -> real, key: T -> int, nokey: bool, unspecified: int,
    func: seq<T> -> Return<map<K, W>>, outsPerTask: int, slow: nat -> nat -> bool,
    add: (W, W) -> W, howmany: nat, sched: seq<P.Event>, z: P.State<map<K, W>>)
    requires A.Commutative(add) && A.Associative(add)
    requires OrdinaryFunction(func) && Additive(Result(func), A.MergeWith(add))
    requires outsPerTask > 0 && howmany > 0 && hint > 0 && Positive(items, weight)
    requires var r := ArgBlocks(items, hint, 0.0, weight, key, nokey, unspecified);
      r.Some? && P.Run(P.Start(SplitTasks(r.value, func, outsPerTask, slow), howmany), sched, z) && z.tasks == []
    ensures FoldBy(P.Values(z.output), o => o, A.MergeWith(add), map[]) == Result(func)(items)
  {
    hide Additive, OrdinaryFunction, P.Run, Result, ArgBlocks, SplitTasks, P.Values, FoldBy, CommutativeMonoid,
         A.MergeWith;
    A.MergeIsMonoid<K, W>(add);
    ParallelEqualsSequential(items, hint, weight, key, nokey, unspecified, func, outsPerTask, slow, A.MergeWith(add),
      map[], howmany, sched, z);
  }

  // ----- the programs

  /** `submit_all` and `reduce`. Without expected outputs `log_percent` never raises, so the loop
      always gets to its end. */
  method SubmitAndReduce<V(!new)>(
    tasks: seq<Task<V>>, isLazy: bool, ct: nat, op: (V, V) -> V, unit: V, stale: nat, ghost outs: seq<Outcome<V>>)
    returns (r: Outcome<V>, ghost submitted: seq<Task<V>>)
    requires CommutativeMonoid(op, unit) && StandFor(tasks, outs) && ct > 0
    ensures r == FoldBy(outs, o => o, op, unit)
    ensures multiset(submitted) == ForestTasks(tasks)
  {
    hide CommutativeMonoid, P.Core, P.EveryTaskEndedOnce;
    var smap := new S.Starmap<V>(ct, 0);
    smap.SubmitAll(tasks, isLazy);
    P.InitialCore(tasks);
    P.SubmitManyKeeps(P.Initial(tasks), if isLazy then |tasks| else 0, tasks);
    P.SubmitManyOutput(P.Initial(tasks), if isLazy then |tasks| else 0);
    ghost var sched;
    var results, ok;
    results, ok, sched := smap.Loop(stale, tasks);
    submitted := smap.submitted;
    r := Reduce(results, op, unit);
    LeftIsFold(results, op, unit);
    FoldPermutation(results, outs, o => o, op, unit);
  }

  /** `Starmap.apply` with a plain task, then `reduce`; None is an exception of the splitters. On
      positive items and for an additive function it gives the function on the whole input
      exactly when the maximum weight is not negative. */
  method Apply<T(!new), V(!new)>(
    items: seq<T>, ct: nat, concurrentTasks: Option<nat>, maxweight: real, weight: T -> real, key: T -> int,
    nokey: bool, unspecified: int,
    func: seq<T> -> Return<V>, op: (V, V) -> V, unit: V, stale: nat)
    returns (r: Option<Outcome<V>>, ghost submitted: seq<Task<V>>)
    requires CommutativeMonoid(op, unit) && OrdinaryFunction(func) && ct > 0
    ensures var blocks := ArgBlocks(items, ApplyHint(ct, concurrentTasks), maxweight, weight, key, nokey, unspecified);
      r == if blocks.None? then None else Some(FoldBy(blocks.value, Result(func), op, unit))
    ensures r.None? ==> submitted == []
    ensures r.Some? ==> multiset(submitted) == ForestTasks(PlainTasks(
      ArgBlocks(items, ApplyHint(ct, concurrentTasks), maxweight, weight, key, nokey, unspecified).value, func))
    ensures Positive(items, weight) && Additive(Result(func), op) ==>
      (r == Some(Result(func)(items)) <==> maxweight >= 0.0)
  {
    hide CommutativeMonoid, OrdinaryFunction, Additive, Positive, ArgBlocks, StandFor, Result, FoldBy, PlainTasks;
    var hint := ApplyHint(ct, concurrentTasks);
    var blocks := ArgBlocks(items, hint, maxweight, weight, key, nokey, unspecified);
    if Positive(items, weight) && Additive(Result(func), op) {
      BlocksPermute(items, hint, maxweight, weight, key, nokey, unspecified);
      if maxweight >= 0.0 {
        BlocksFold(items, hint, maxweight, weight, key, nokey, unspecified, func, op, unit);
      }
    }
    submitted := [];
    if blocks.None? {
      return None, [];
    }
    PlainTasksStandFor(blocks.value, func);
    CallsFold(blocks.value, func, op, unit);
    var total;
    total, submitted := SubmitAndReduce(PlainTasks(blocks.value, func), maxweight != 0.0, ct, op, unit, stale,
      Calls(blocks.value, func));
    r := Some(total);
  }

  /** `apply_split` on a Starmap, then `reduce`. With a maximum weight the arguments are a
      generator and the constructor raises, as it does when there are no arguments. On positive
      items and for an additive function it gives the function on the whole input exactly
      when there is no maximum weight. */
  method ApplySplit<T(!new), V(!new)>(
    items: seq<T>, numCores: nat, concurrentTasks: Option<nat>, maxweight: real, weight: T -> real, key: T -> int,
    nokey: bool, unspecified: int,
    func: seq<T> -> Return<V>, outsPerTask: int, slow: nat -> nat -> bool, op: (V, V) -> V, unit: V, stale: nat)
    returns (r: Option<Outcome<V>>, ghost submitted: seq<Task<V>>)
    requires CommutativeMonoid(op, unit) && OrdinaryFunction(func) && numCores > 0
    ensures var blocks := ArgBlocks(items, SplitHint(numCores, concurrentTasks), maxweight, weight, key, nokey,
      unspecified);
      r == if maxweight != 0.0 || blocks.None? || blocks.value == [] then None
           else Some(FoldBy(blocks.value, SplitTotal(func, outsPerTask, op, unit), op, unit))
    ensures r.None? ==> submitted == []
    ensures r.Some? ==> multiset(submitted) == ForestTasks(SplitTasks(
      ArgBlocks(items, SplitHint(numCores, concurrentTasks), maxweight, weight, key, nokey, unspecified).value,
      func, outsPerTask, slow))
    ensures r.Some? && outsPerTask <= 0 ==> r == Some(Value(unit))
    ensures Positive(items, weight) && Additive(Result(func), op) && outsPerTask > 0 ==>
              (r == Some(Result(func)(items)) <==> maxweight == 0.0)
  {
    hide CommutativeMonoid, OrdinaryFunction, Additive, Positive, ArgBlocks, StandFor, Result, FoldBy, SplitTotal,
         SplitTasks;
    var isLazy := maxweight != 0.0;
    if isLazy && InitFails(true, isLazy, 0) {
      return None, [];      // block_splitter is lazy: not even its arguments are looked at
    }
    var hint := SplitHint(numCores, concurrentTasks);
    var blocks := ArgBlocks(items, hint, maxweight, weight, key, nokey, unspecified);
    if Positive(items, weight) && Additive(Result(func), op) {
      BlocksPermute(items, hint, maxweight, weight, key, nokey, unspecified);
      BlocksFold(items, hint, maxweight, weight, key, nokey, unspecified, func, op, unit);
      SomeBlock(items, blocks.value);
    }
    if blocks.None? || InitFails(true, isLazy, |blocks.value|) {
      return None, [];
    }
    SplitTotals(blocks.value, func, outsPerTask, op, unit);
    ghost var outs := SplitTasksStandFor(blocks.value, func, outsPerTask, slow, op, unit);
    var total;
    total, submitted := SubmitAndReduce(SplitTasks(blocks.value, func, outsPerTask, slow), isLazy, 2 * numCores, op,
      unit, stale, outs);
    r := Some(total);
  }

  lemma {:induction false} SomeBlock<T>(items: seq<T>, blocks: seq<seq<T>>)
    ensures (exists w: T -> real :: Positive(items, w)) && multiset(Concat(blocks)) == multiset(items) ==> blocks != []
  {
    assert |multiset(items)| == |items|;
  }

  /** An item for which the lazy splitter has nothing to object, and `apply_split` raises. */
  lemma {:induction false} LazyWitness<T>(x: T, weight: T -> real, key: T -> int)
    requires weight(x) == 1.0
    ensures ArgBlocks([x], 1, 1.0, weight, key, false, key(x)) == Some([[x]])
    ensures InitFails(true, true, 1)
  {
    assert [x][1..] == [];
    assert [] + [x] == [x];
    assert B.ItemsOf([B.Block([x], 1.0)]) == [[x]];
    assert B.SplitFrom([x], 1.0, weight, key, B.Block([], 0.0), key(x)) == B.Split([B.Block([x], 1.0)], false);
  }

  /** `submit_split` on some batches of elements, then `reduce`: here the arguments are given one
      by one, so nothing raises. */
  method SubmitSplit<T(!new), V(!new)>(
    batches: seq<seq<T>>, ct: nat, func: seq<T> -> Return<V>, outsPerTask: int, slow: nat -> nat -> bool,
    op: (V, V) -> V, unit: V, stale: nat)
    returns (r: Outcome<V>, ghost submitted: seq<Task<V>>)
    requires CommutativeMonoid(op, unit) && OrdinaryFunction(func) && ct > 0
    ensures r == FoldBy(batches, SplitTotal(func, outsPerTask, op, unit), op, unit)
    ensures multiset(submitted) == ForestTasks(SplitTasks(batches, func, outsPerTask, slow))
    ensures Additive(Result(func), op) && outsPerTask > 0 && batches != [] && NoneEmpty(batches) ==>
              r == Result(func)(Concat(batches))
  {
    hide CommutativeMonoid, OrdinaryFunction, Additive, StandFor, Result, FoldBy, SplitTotal, SplitTasks;
    ghost var outs := SplitTasksStandFor(batches, func, outsPerTask, slow, op, unit);
    r, submitted := SubmitAndReduce(SplitTasks(batches, func, outsPerTask, slow), true, ct, op, unit, stale, outs);
    SplitTotals(batches, func, outsPerTask, op, unit);
    if Additive(Result(func), op) && batches != [] && NoneEmpty(batches) {
      assert Concat(batches) != [] by { assert Concat(batches) == batches[0] + Concat(batches[1..]); }
      PartitionFold(Concat(batches), batches, Result(func), op, unit);
    }
  }
}
